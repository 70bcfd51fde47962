/** Which request a reply of `send` is about: replays go to requests with the
    fingerprint of the one that was sent, everything else is told of a conflict. */
module SendReplies {
  import opened Options
  import opened SendProtocol

  predicate BindingMatches(s: State) {
    s.stored.Some? ==>
      s.stored.value.call in s.created && s.stored.value.call in s.calls
      && s.stored.value.fingerprint == s.calls[s.stored.value.call].fingerprint
  }

  ghost predicate ReplyMatches(s: State, c: Call)
    requires c in s.calls
  {
    match s.calls[c].reply
    case Some(Receipt(of, _, replay)) =>
      && of in s.created && of in s.calls && s.calls[of].fingerprint == s.calls[c].fingerprint
      && (if replay then of != c && c !in s.created else of == c)
    case Some(IdempotencyConflict) =>
      c !in s.created && exists d :: d in s.created && d in s.calls && s.calls[d].fingerprint != s.calls[c].fingerprint
    case _ => true
  }

  ghost predicate RepliesMatch(s: State) {
    Inv(s) && BindingMatches(s) && forall c :: c in s.calls ==> ReplyMatches(s, c)
  }

  /** Requests stay what they are, and what was created stays created. */
  predicate Remembers(s: State, t: State) {
    && (forall c :: c in s.calls ==> c in t.calls && t.calls[c].fingerprint == s.calls[c].fingerprint)
    && (forall c :: c in s.created ==> c in t.created)
  }

  lemma CommittedRemembers(s: State, c: Call, t: Time)
    requires c in s.calls && BindingMatches(s)
    ensures Remembers(s, Committed(s, c, t)) && BindingMatches(Committed(s, c, t))
    ensures forall d :: d in Committed(s, c, t).created ==> d in s.created || d == c
  {
  }

  lemma RecordedRemembers(s: State, c: Call, t: Time)
    requires IsRecording(s, c) && BindingMatches(s)
    ensures var u := Recorded(s, c, t);
            u.calls == s.calls && u.created == s.created && BindingMatches(u)
  {
  }

  lemma StepRemembers(s: State, a: Action)
    requires Enabled(s, a) && BindingMatches(s)
    ensures Remembers(s, Apply(s, a)) && BindingMatches(Apply(s, a))
    ensures forall d :: d in Apply(s, a).created && d !in s.created ==> (a.Commit? || a.CommitReplyLost?) && d == a.c
  {
    hide Committed, Recorded, BindingMatches, Remembers, Apply;
    if a.Commit? || a.CommitReplyLost? {
      CommittedRemembers(s, a.c, a.observedAt);
      AfterCommit(s, a);
    } else {
      OthersRemember(s, a);
    }
  }

  lemma AfterCommit(s: State, a: Action)
    requires Enabled(s, a) && (a.Commit? || a.CommitReplyLost?)
    requires Remembers(s, Committed(s, a.c, a.observedAt)) && BindingMatches(Committed(s, a.c, a.observedAt))
    ensures Remembers(s, Apply(s, a)) && BindingMatches(Apply(s, a))
    ensures Apply(s, a).created == Committed(s, a.c, a.observedAt).created
  {
    hide Committed;
  }

  lemma OthersRemember(s: State, a: Action)
    requires Enabled(s, a) && BindingMatches(s) && !a.Commit? && !a.CommitReplyLost?
    ensures Remembers(s, Apply(s, a)) && BindingMatches(Apply(s, a)) && Apply(s, a).created == s.created
  {
    hide Recorded, Apply, Remembers, BindingMatches;
    if a.Record? || a.RecordReplyLost? {
      RecordedRemembers(s, a.c, a.changedAt);
      AfterRecord(s, a);
    } else if exists c :: By(a, c) {
      CallsRemember(s, a);
    } else {
      WorldRemembers(s, a);
    }
  }

  lemma AfterRecord(s: State, a: Action)
    requires Enabled(s, a) && (a.Record? || a.RecordReplyLost?) && BindingMatches(Recorded(s, a.c, a.changedAt))
    requires Recorded(s, a.c, a.changedAt).calls == s.calls && Recorded(s, a.c, a.changedAt).created == s.created
    ensures Remembers(s, Apply(s, a)) && BindingMatches(Apply(s, a)) && Apply(s, a).created == s.created
  {
    hide Recorded;
  }

  lemma CallsRemember(s: State, a: Action)
    requires Enabled(s, a) && BindingMatches(s) && exists c :: By(a, c)
    requires !a.Commit? && !a.CommitReplyLost? && !a.Record? && !a.RecordReplyLost?
    ensures Remembers(s, Apply(s, a)) && BindingMatches(Apply(s, a)) && Apply(s, a).created == s.created
  {
  }

  lemma WorldRemembers(s: State, a: Action)
    requires Enabled(s, a) && BindingMatches(s) && forall c :: !By(a, c)
    ensures Remembers(s, Apply(s, a)) && BindingMatches(Apply(s, a)) && Apply(s, a).created == s.created
  {
    assert !(exists c :: By(a, c));
    NamesItsCall(a);
  }

  lemma NamesItsCall(a: Action)
    ensures (exists c :: By(a, c)) || a.Tick? || a.LeasesExpire? || a.StatusObserved? || a.MessageEchoed?
            || a.OperationPurged? || a.ConnectionDeleted?
  {
    if !(a.Tick? || a.LeasesExpire? || a.StatusObserved? || a.MessageEchoed? || a.OperationPurged?
         || a.ConnectionDeleted?) { assert By(a, a.c); }
  }

  /** A reply that is not touched keeps matching, unless its call is being created
      just now, and then it has no reply yet. */
  lemma OldReplyMatches(s: State, t: State, c: Call)
    requires c in s.calls && c in t.calls && ReplyMatches(s, c) && Remembers(s, t)
    requires t.calls[c].reply == s.calls[c].reply
    requires s.calls[c].reply.None? || (c in t.created <==> c in s.created)
    ensures ReplyMatches(t, c)
  {
    if s.calls[c].reply == Some(IdempotencyConflict) {
      var d :| d in s.created && d in s.calls && s.calls[d].fingerprint != s.calls[c].fingerprint;
      assert d in t.created && d in t.calls && t.calls[d].fingerprint != t.calls[c].fingerprint;
    }
  }

  lemma CommitReplyMatches(s: State, a: Action)
    requires RepliesMatch(s) && a.Commit? && Enabled(s, a)
    ensures ReplyMatches(Apply(s, a), a.c)
  {
    hide CreationInv, StoredInv, AttemptInv;
    assert CallInv(s, a.c);
    var t := Apply(s, a);
    if s.stored.Some? {
      var d := s.stored.value.call;
      assert d in s.created && d in s.calls;
      assert d != a.c;
      assert d in t.created && d in t.calls && t.calls[d].fingerprint == s.calls[d].fingerprint;
    }
  }

  lemma StepReply(s: State, a: Action, c: Call)
    requires RepliesMatch(s) && Enabled(s, a) && c in Apply(s, a).calls
    requires Remembers(s, Apply(s, a))
    ensures ReplyMatches(Apply(s, a), c)
  {
    hide CreationInv, StoredInv, AttemptInv, Remembers, Committed;
    var t := Apply(s, a);
    if c in s.calls { assert CallInv(s, c) && ReplyMatches(s, c); }
    if a.Commit? && a.c == c {
      CommitReplyMatches(s, a);
    } else if !By(a, c) {
      NotFromNowhere(s, a, c);
      OthersUntouched(s, a, c);
      OldReplyMatches(s, t, c);
    } else {
      OwnReplyMatches(s, a, c);
    }
  }

  lemma OwnReplyMatches(s: State, a: Action, c: Call)
    requires RepliesMatch(s) && Enabled(s, a) && By(a, c) && !a.Commit? && Remembers(s, Apply(s, a)) && c in Apply(s, a).calls
    ensures ReplyMatches(Apply(s, a), c)
  {
    hide CreationInv, StoredInv, AttemptInv, Committed, Recorded, Remembers, ReplyMatches;
    if c in s.calls { assert CallInv(s, c) && ReplyMatches(s, c); }
    if a.Record? || a.RecordReplyLost? || a.RecordThrows? || a.StoringThrows? {
      RecordReplyMatches(s, a);
    } else {
      EarlyReplyMatches(s, a, c);
    }
  }

  lemma RecordReplyMatches(s: State, a: Action)
    requires Enabled(s, a) && (a.Record? || a.RecordReplyLost? || a.RecordThrows? || a.StoringThrows?)
    requires CallInv(s, a.c) && ReplyMatches(s, a.c) && Remembers(s, Apply(s, a))
    ensures a.c in Apply(s, a).calls && ReplyMatches(Apply(s, a), a.c)
  {
    hide Recorded;
    if a.Record? || a.RecordReplyLost? { RecordedLeaves(s, a.c, a.changedAt); }
  }

  lemma EarlyReplyMatches(s: State, a: Action, c: Call)
    requires Enabled(s, a) && By(a, c) && !a.Commit? && Remembers(s, Apply(s, a)) && c in Apply(s, a).calls
    requires !a.Record? && !a.RecordReplyLost? && !a.RecordThrows? && !a.StoringThrows?
    requires c in s.calls ==> CallInv(s, c) && ReplyMatches(s, c)
    ensures ReplyMatches(Apply(s, a), c)
  {
    hide Committed;
    if a.CommitReplyLost? { CommittedGrows(s, c, a.observedAt); }
  }

  lemma {:induction false} RunReplies(s: State, actions: seq<Action>)
    requires RepliesMatch(s) && IsRun(s, actions)
    ensures RepliesMatch(After(s, actions))
    decreases |actions|
  {
    hide Inv, Apply, Enabled, BindingMatches, ReplyMatches, Remembers;
    if actions != [] {
      var a, t := actions[0], Apply(s, actions[0]);
      StepInv(s, a);
      StepRemembers(s, a);
      forall c | c in t.calls ensures ReplyMatches(t, c) { StepReply(s, a, c); }
      RunReplies(t, actions[1..]);
    }
  }

  /** In every run, a replayed receipt is of another call with the same
      fingerprint, a receipt that is no replay is of the call's own operation, and
      a conflict is answered only to a call whose fingerprint differs from one
      that was sent; neither of the two answered calls sent anything itself. */
  lemma RepliesMatchRequests(s: State, actions: seq<Action>, c: Call)
    requires Initial(s) && IsRun(s, actions) && c in After(s, actions).calls
    ensures ReplyMatches(After(s, actions), c)
  {
    RunReplies(s, actions);
  }

  /** So when all calls under one key ask for the same thing, none of them is ever
      told of a conflict. */
  lemma SameRequestNeverConflicts(s: State, actions: seq<Action>, c: Call)
    requires Initial(s) && IsRun(s, actions) && c in After(s, actions).calls
    requires forall d, e :: d in After(s, actions).calls && e in After(s, actions).calls ==>
               After(s, actions).calls[d].fingerprint == After(s, actions).calls[e].fingerprint
    ensures After(s, actions).calls[c].reply != Some(IdempotencyConflict)
  {
    RepliesMatchRequests(s, actions, c);
  }
}
