/** How the status of a stored send operation can change, exactly, and what a
    receipt still tells later. */
module SendStatus {
  import opened Options
  import opened SendProtocol

  /** Delivered and read are passed once; accepted, sent and failed can each turn
      into the others, since a failure may be taken back. */
  function Stage(status: Status): nat {
    match status
    case Delivered => 1
    case Read => 2
    case _ => 0
  }

  predicate CanBecome(from: Status, to: Status) {
    from == to || (IsObservable(from) && IsObservable(to) && Stage(from) <= Stage(to))
  }

  /** What one operation can look like later. */
  predicate MayFollow(op: Operation, later: Operation) {
    && later.call == op.call && later.expiresAt == op.expiresAt
    && (op.status != Processing ==>
          && later.identified == op.identified
          && (if op.identified then CanBecome(op.status, later.status) else later.status == op.status))
    && (op.status == Processing && !op.identified && later.status != Processing ==>
          later.identified ==> IsObservable(later.status))
  }

  /** An identity is recorded together with a status that bears one. */
  predicate IdentityInv(op: Operation) {
    op.identified ==> IsObservable(op.status)
  }

  lemma FollowsTransitive(a: Operation, b: Operation, c: Operation)
    requires MayFollow(a, b) && MayFollow(b, c) && IdentityInv(b) && IdentityInv(c)
    ensures MayFollow(a, c)
  {
  }

  lemma StepFollows(s: State, a: Action, c: Call)
    requires Inv(s) && Enabled(s, a) && Holds(s, c) && Holds(Apply(s, a), c)
    ensures MayFollow(s.stored.value, Apply(s, a).stored.value)
  {
    hide CreationInv, AttemptInv, Committed, Recorded, CallInv;
    if a.Record? || a.RecordReplyLost? {
      assert CallInv(s, a.c);
      RecordedFollows(s, a.c, a.changedAt);
    }
    if a.Commit? || a.CommitReplyLost? { CommittedFollows(s, a.c, a.observedAt); }
  }

  lemma RecordedFollows(s: State, c: Call, t: Time)
    requires s.stored.Some? && StoredInv(s) && IsRecording(s, c) && CallInv(s, c)
    ensures var u := Recorded(s, c, t);
            u.stored.Some? && u.calls == s.calls && MayFollow(s.stored.value, u.stored.value)
  {
  }

  lemma CommittedFollows(s: State, c: Call, t: Time)
    requires s.stored.Some? && StoredInv(s) && c in s.calls
    ensures var u := Committed(s, c, t);
            u.stored.Some? && c in u.calls && MayFollow(s.stored.value, u.stored.value)
  {
  }

  /** What was released does not come back. */
  lemma {:induction false} GoneForGood(s: State, actions: seq<Action>, c: Call)
    requires Inv(s) && IsRun(s, actions) && c in s.released
    ensures !Holds(After(s, actions), c)
    decreases |actions|
  {
    hide CreationInv, AttemptInv, CallInv;
    if actions != [] {
      StepInv(s, actions[0]);
      ReleasedStays(s, actions[0], c);
      GoneForGood(Apply(s, actions[0]), actions[1..], c);
    }
  }

  lemma ReleasedStays(s: State, a: Action, c: Call)
    requires Enabled(s, a) && c in s.released
    ensures c in Apply(s, a).released
  {
  }

  /** Over any run: as long as an operation is stored, an unidentified one never
      changes a status other than processing, and an identified one changes it only
      within these stages; nothing goes back to processing. */
  lemma {:induction false} StatusFollows(s: State, actions: seq<Action>, c: Call)
    requires Inv(s) && IsRun(s, actions) && Holds(s, c) && Holds(After(s, actions), c)
    ensures MayFollow(s.stored.value, After(s, actions).stored.value)
    decreases |actions|
  {
    hide CreationInv, AttemptInv, CallInv, Apply, Enabled, MayFollow;
    if actions == [] {
      assert MayFollow(s.stored.value, s.stored.value) by { ItselfFollows(s.stored.value); }
    } else {
      var next := Apply(s, actions[0]);
      StepInv(s, actions[0]);
      StepHolds(s, actions[0], c);
      if Holds(next, c) {
        StepFollows(s, actions[0], c);
        StatusFollows(next, actions[1..], c);
        RunInv(next, actions[1..]);
        FollowsTransitive(s.stored.value, next.stored.value, After(s, actions).stored.value);
      } else {
        GoneForGood(next, actions[1..], c);
      }
    }
  }

  lemma ItselfFollows(op: Operation)
    requires IdentityInv(op)
    ensures MayFollow(op, op)
  {
  }

  // ----- every allowed change happens -----

  /** The evidence that brings an identified operation from one status to another;
      the way back from sent to accepted leads over a failure. */
  function Evidence(from: Status, to: Status): seq<Status> {
    if from == to then []
    else if Supersedes(to, from) then [to]
    else [Failed, to]
  }

  function Reports(evidence: seq<Status>, t: Time): seq<Action> {
    if evidence == [] then [] else [StatusObserved(evidence[0], t)] + Reports(evidence[1..], t)
  }

  /** An identified operation can come to have another status exactly when the
      stages allow it. */
  lemma IdentifiedChangesIff(s: State, c: Call, to: Status)
    requires Inv(s) && Holds(s, c) && s.stored.value.identified
    ensures (exists actions: seq<Action> ::
               IsRun(s, actions) && Holds(After(s, actions), c) && After(s, actions).stored.value.status == to)
            <==> CanBecome(s.stored.value.status, to)
  {
    var from := s.stored.value.status;
    forall actions: seq<Action> | IsRun(s, actions) && Holds(After(s, actions), c)
      ensures CanBecome(from, After(s, actions).stored.value.status)
    {
      StatusFollows(s, actions, c);
    }
    if CanBecome(from, to) {
      ReportsReach(s, c, to);
    }
  }

  lemma ReportsReach(s: State, c: Call, to: Status)
    requires Inv(s) && Holds(s, c) && s.stored.value.identified && CanBecome(s.stored.value.status, to)
    ensures var actions := Reports(Evidence(s.stored.value.status, to), 0);
            IsRun(s, actions) && Holds(After(s, actions), c) && After(s, actions).stored.value.status == to
  {
    hide CreationInv, AttemptInv, CallInv;
    var op := s.stored.value;
    assert Correlates(op, 0);
    var evidence := Evidence(op.status, to);
    if |evidence| > 0 {
      OneReport(s, c, evidence[0], 0);
      var s1 := Apply(s, StatusObserved(evidence[0], 0));
      if |evidence| == 1 {
        assert Reports(evidence, 0) == [StatusObserved(to, 0)] by { assert evidence[1..] == []; }
        RunByStates(Reports(evidence, 0), [s, s1]);
      } else {
        OneReport(s1, c, to, 0);
        assert evidence[1..] == [to] && [to][1..] == [];
        assert Reports([to], 0) == [StatusObserved(to, 0)];
        assert Reports(evidence, 0) == [StatusObserved(Failed, 0), StatusObserved(to, 0)];
        RunByStates(Reports(evidence, 0), [s, s1, Apply(s1, StatusObserved(to, 0))]);
      }
    }
  }

  lemma OneReport(s: State, c: Call, evidence: Status, at: Time)
    requires Holds(s, c) && at <= s.now && Correlates(s.stored.value, at) && IsObservable(evidence)
    requires Supersedes(evidence, s.stored.value.status)
    ensures Enabled(s, StatusObserved(evidence, at))
    ensures var t := Apply(s, StatusObserved(evidence, at));
            t == s.(stored := Some(s.stored.value.(status := evidence)))
  {
  }

  /** The update alone, were it to find an unidentified row, would let an unknown
      status become anything; as rows without an identity are never found, an
      operation whose attempt ended unknown stays unknown for as long as it is
      stored, whatever webhooks report. */
  lemma UnknownStays(s: State, actions: seq<Action>, c: Call)
    requires Inv(s) && IsRun(s, actions) && Holds(s, c) && s.stored.value.status == Unknown
    requires Holds(After(s, actions), c)
    ensures forall evidence :: Supersedes(evidence, Unknown)
    ensures After(s, actions).stored.value.status == Unknown
  {
    StatusFollows(s, actions, c);
  }

  // ----- receipts -----

  /** What a receipt with this status says about the operation while it is stored. */
  predicate Bounds(told: Status, op: Operation) {
    told == Processing || told == op.status || (op.identified && CanBecome(told, op.status))
  }

  predicate ReceiptInv(s: State, c: Call)
    requires c in s.calls
  {
    var reply := s.calls[c].reply;
    reply.Some? && reply.value.Receipt? ==>
      reply.value.of in s.created && (Holds(s, reply.value.of) ==> Bounds(reply.value.status, s.stored.value))
  }

  predicate ReceiptsInv(s: State) {
    Inv(s) && forall c :: c in s.calls ==> ReceiptInv(s, c)
  }

  lemma BoundsKept(told: Status, op: Operation, later: Operation)
    requires Bounds(told, op) && MayFollow(op, later) && IdentityInv(op) && IdentityInv(later)
    ensures Bounds(told, later)
  {
  }

  /** A receipt given before the step still bounds the operation after it. */
  lemma OldReceipt(s: State, a: Action, of: Call, told: Status)
    requires Inv(s) && Enabled(s, a) && of in s.created && (Holds(s, of) ==> Bounds(told, s.stored.value))
    ensures of in Apply(s, a).created
    ensures Holds(Apply(s, a), of) ==> Bounds(told, Apply(s, a).stored.value)
  {
    hide CreationInv, AttemptInv, CallInv, Apply, Enabled, MayFollow, Bounds;
    CreatedGrows(s, a);
    StepInv(s, a);
    if Holds(Apply(s, a), of) {
      HeldBefore(s, a, of);
      StepFollows(s, a, of);
      BoundsKept(told, s.stored.value, Apply(s, a).stored.value);
    }
  }

  lemma HeldBefore(s: State, a: Action, of: Call)
    requires Inv(s) && Enabled(s, a) && of in s.created && Holds(Apply(s, a), of)
    ensures Holds(s, of)
  {
    StepInv(s, a);
    if of in s.released { ReleasedStays(s, a, of); }
  }

  lemma NewReceipt(s: State, a: Action, c: Call)
    requires Inv(s) && Enabled(s, a) && c in Apply(s, a).calls
    requires c !in s.calls || Apply(s, a).calls[c].reply != s.calls[c].reply
    ensures ReceiptInv(Apply(s, a), c)
  {
    hide CreationInv, AttemptInv, StoredInv, Apply, ReceiptInv, CallInv;
    if !By(a, c) {
      NotFromNowhere(s, a, c);
      OthersUntouched(s, a, c);
    } else if a.Commit? {
      CommitReceipt(s, a);
    } else if a.Record? || a.RecordReplyLost? || a.RecordThrows? || a.StoringThrows? {
      assert CallInv(s, c);
      RecordReceipt(s, a);
    } else {
      if c in s.calls { assert CallInv(s, c); }
      PlainReceipt(s, a, c);
    }
  }

  lemma CommitReceipt(s: State, a: Action)
    requires a.Commit? && Enabled(s, a) && StoredInv(s)
    ensures a.c in Apply(s, a).calls && ReceiptInv(Apply(s, a), a.c)
  {
  }

  lemma RecordReceipt(s: State, a: Action)
    requires Enabled(s, a) && (a.Record? || a.RecordReplyLost? || a.RecordThrows? || a.StoringThrows?)
    requires CallInv(s, a.c) && (s.calls[a.c].reply.Some? ==> Apply(s, a).calls[a.c].reply != s.calls[a.c].reply)
    ensures a.c in Apply(s, a).calls && ReceiptInv(Apply(s, a), a.c)
  {
  }

  lemma PlainReceipt(s: State, a: Action, c: Call)
    requires Enabled(s, a) && By(a, c) && c in Apply(s, a).calls
    requires !a.Commit? && !a.Record? && !a.RecordReplyLost? && !a.RecordThrows? && !a.StoringThrows?
    requires c in s.calls ==> CallInv(s, c) && Apply(s, a).calls[c].reply != s.calls[c].reply
    ensures ReceiptInv(Apply(s, a), c)
  {
    hide Committed;
    if a.CommitReplyLost? { CommittedGrows(s, c, a.observedAt); }
  }

  lemma ReceiptStep(s: State, a: Action, c: Call)
    requires ReceiptsInv(s) && Enabled(s, a) && c in Apply(s, a).calls
    ensures ReceiptInv(Apply(s, a), c)
  {
    hide CreationInv, AttemptInv, StoredInv, CallInv, Apply, Enabled, Bounds;
    if c in s.calls && Apply(s, a).calls[c].reply == s.calls[c].reply {
      assert ReceiptInv(s, c);
      var reply := s.calls[c].reply;
      if reply.Some? && reply.value.Receipt? { OldReceipt(s, a, reply.value.of, reply.value.status); }
    } else {
      NewReceipt(s, a, c);
    }
  }

  lemma {:induction false} RunReceipts(s: State, actions: seq<Action>)
    requires ReceiptsInv(s) && IsRun(s, actions)
    ensures ReceiptsInv(After(s, actions))
    decreases |actions|
  {
    hide Inv, Apply, Enabled, ReceiptInv;
    if actions != [] {
      var next := Apply(s, actions[0]);
      StepInv(s, actions[0]);
      forall c | c in next.calls ensures ReceiptInv(next, c) { ReceiptStep(s, actions[0], c); }
      RunReceipts(next, actions[1..]);
    }
  }

  /** What a receipt, first or replayed, bounds at every later moment: until its
      operation is purged or its connection deleted, read and unknown stay as told,
      delivered may only become read, and the others move within the stages. */
  lemma ReceiptBounds(s: State, before: seq<Action>, after: seq<Action>, c: Call)
    requires Initial(s) && IsRun(s, before) && IsRun(After(s, before), after)
    requires c in After(s, before).calls
    requires var reply := After(s, before).calls[c].reply; reply.Some? && reply.value.Receipt?
    ensures var told := After(s, before).calls[c].reply.value;
            var t := After(After(s, before), after);
            && told.of in t.created
            && (Holds(t, told.of) || told.of in t.released)
            && (Holds(t, told.of) && told.status != Processing ==> CanBecome(told.status, t.stored.value.status))
            && (Holds(t, told.of) && told.status == Delivered ==> t.stored.value.status in {Delivered, Read})
            && (Holds(t, told.of) && told.status in {Read, Unknown} ==> t.stored.value.status == told.status)
  {
    hide CreationInv, AttemptInv, StoredInv, CallInv;
    var u := After(s, before);
    assert Inv(s) by { InitialInv(s); }
    RunReceipts(s, before);
    assert ReceiptInv(u, c);
    var told := u.calls[c].reply.value;
    LaterBounds(u, after, told.of, told.status);
    RunInv(u, after);
    RunCreatedGrows(u, after);
    CreatedIsAccounted(After(u, after), told.of);
  }

  lemma InitialInv(s: State)
    requires Initial(s)
    ensures Inv(s)
  {
  }

  lemma CreatedIsAccounted(s: State, c: Call)
    requires CreationInv(s) && c in s.created
    ensures Holds(s, c) || c in s.released
  {
  }

  lemma {:induction false} LaterBounds(s: State, actions: seq<Action>, of: Call, told: Status)
    requires Inv(s) && IsRun(s, actions) && of in s.created && (Holds(s, of) ==> Bounds(told, s.stored.value))
    ensures Holds(After(s, actions), of) ==> Bounds(told, After(s, actions).stored.value)
    decreases |actions|
  {
    hide Inv, Apply, Enabled, Bounds;
    if actions != [] {
      StepInv(s, actions[0]);
      OldReceipt(s, actions[0], of, told);
      LaterBounds(Apply(s, actions[0]), actions[1..], of, told);
    }
  }

  /** The provider answers in time, with an identity. */
  function Answering(c: Call, status: Status, t: Time): seq<Action> {
    [ProviderAnswers(c, status, true), Record(c, t)]
  }

  lemma AnswerIsTold(s: State, c: Call, status: Status)
    requires InAttempt(s, c, Calling) && s.calls[c].reply.None? && Holds(s, c) && BearsIdentity(status)
    requires s.stored.value.status == Processing && s.now < s.stored.value.leaseExpiresAt
    ensures var run := Answering(c, status, s.now);
            && IsRun(s, run)
            && var t := After(s, run);
               && InAttempt(t, c, Over) && t.calls[c].reply == Some(Receipt(c, status, false)) && t.now == s.now
               && t.stored == Some(s.stored.value.(status := status, identified := true))
  {
    var run := Answering(c, status, s.now);
    var s1 := Apply(s, run[0]);
    RunByStates(run, [s, s1, Apply(s1, run[1])]);
  }

  function TakingBack(t: Time): seq<Action> {
    [StatusObserved(Failed, t), StatusObserved(Accepted, t)]
  }

  lemma FailureIsTakenBack(s: State, c: Call)
    requires Holds(s, c) && Correlates(s.stored.value, s.now) && s.stored.value.status == Sent
    ensures IsRun(s, TakingBack(s.now))
    ensures After(s, TakingBack(s.now)) == s.(stored := Some(s.stored.value.(status := Accepted)))
  {
    OneReport(s, c, Failed, s.now);
    var s1 := Apply(s, StatusObserved(Failed, s.now));
    OneReport(s1, c, Accepted, s.now);
    RunByStates(TakingBack(s.now), [s, s1, Apply(s1, StatusObserved(Accepted, s.now))]);
  }

  /** A message told as sent can fail, and then count as accepted only: from any
      start, a run whose first receipt says sent and whose store says accepted. */
  lemma SentCanGoBack(s: State, k: Connection, f: nat)
    requires Initial(s) && k !in s.gone
    ensures var run := Sending(0, k, f, s.now) + (Answering(0, Sent, s.now) + TakingBack(s.now));
            && IsRun(s, run)
            && var t := After(s, run);
               && InAttempt(t, 0, Over) && t.calls[0].reply == Some(Receipt(0, Sent, false))
               && Holds(t, 0) && t.stored.value.status == Accepted
  {
    hide Apply, Enabled, IsRun, After, Sending, Answering, TakingBack;
    var first, second, third := Sending(0, k, f, s.now), Answering(0, Sent, s.now), TakingBack(s.now);
    FreeKeySends(s, 0, k, f);
    SendingIsCalling(s, 0, k, f);
    var s1 := After(s, first);
    AnswerIsTold(s1, 0, Sent);
    FailureIsTakenBack(After(s1, second), 0);
    RunConcat(s1, second, third);
    RunConcat(s, first, second + third);
  }

  lemma SendingIsCalling(s: State, c: Call, k: Connection, f: nat)
    requires s.stored.None? && c !in s.calls && k !in s.gone && IsRun(s, Sending(c, k, f, s.now))
    ensures var t := After(s, Sending(c, k, f, s.now));
            && InAttempt(t, c, Calling) && t.calls[c].reply.None? && Holds(t, c)
            && t.stored.value.status == Processing && t.stored.value.leaseExpiresAt == s.now + DISPATCH_LEASE
            && t.now == s.now && t.stored.value.expiresAt == s.now + BINDING_LIFE
  {
    var run := Sending(c, k, f, s.now);
    var s1 := Apply(s, run[0]);
    var s2 := Apply(s1, run[1]);
    var s3 := Apply(s2, run[2]);
    RunByStates(run, [s, s1, s2, s3, Apply(s3, run[3])]);
  }
}
