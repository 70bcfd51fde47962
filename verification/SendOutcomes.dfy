/** What a caller is told about its own attempt: the status the attempt ended with,
    and when that can be a failure. */
module SendOutcomes {
  import opened Options
  import opened SendProtocol

  /** How an attempt ended: with a provider answer, or before the provider was reached. */
  datatype Ending = Ending(status: Status, identified: bool)

  function EndingOf(a: Action, c: Call): seq<Ending> {
    if a.ProviderAnswers? && a.c == c then [Ending(a.status, a.identified)]
    else if a == PreparationFails(c) then [Ending(Unknown, false)]
    else []
  }

  /** All endings of the call's attempt, in order. */
  function Endings(actions: seq<Action>, c: Call): seq<Ending> {
    if actions == [] then [] else Endings(actions[..|actions| - 1], c) + EndingOf(actions[|actions| - 1], c)
  }

  lemma {:induction false} EndingsConcat(a: seq<Action>, b: seq<Action>, c: Call)
    ensures Endings(a + b, c) == Endings(a, c) + Endings(b, c)
    decreases |b|
  {
    if b == [] {
      assert a + b == a;
    } else {
      assert (a + b)[..|a + b| - 1] == a + b[..|b| - 1];
      EndingsConcat(a, b[..|b| - 1], c);
    }
  }

  lemma {:induction false} OthersEndNothing(actions: seq<Action>, c: Call)
    requires forall i :: 0 <= i < |actions| ==> !By(actions[i], c)
    ensures Endings(actions, c) == []
  {
    if actions != [] {
      OthersEndNothing(actions[..|actions| - 1], c);
    }
  }

  /** Up to its record an attempt has at most one ending and its operation is without
      identity; what the call is told is then that ending, or nothing definite. */
  predicate Told(s: State, c: Call, endings: seq<Ending>)
    requires c in s.calls
  {
    var attempt, reply := s.calls[c].attempt, s.calls[c].reply;
    && (match attempt
        case Recording(status, identified) => endings == [Ending(status, identified)]
        case Over => |endings| == 1
        case _ => endings == [])
    && (attempt != Over && Holds(s, c) ==> !s.stored.value.identified && s.stored.value.status in {Processing, Unknown})
    && (reply.Some? && reply.value.Receipt? && !reply.value.replay ==>
          reply.value.of == c
          && (reply.value.status in {Processing, Unknown} || (|endings| == 1 && endings[0].status == reply.value.status)))
  }

  lemma OtherTold(s: State, a: Action, c: Call, endings: seq<Ending>)
    requires Inv(s) && Enabled(s, a) && !By(a, c) && c in s.calls && Told(s, c, endings)
    ensures c in Apply(s, a).calls && Told(Apply(s, a), c, endings)
  {
    OthersUntouched(s, a, c);
    OtherOperation(s, a, c);
    hide Inv, Apply;
  }

  /** Another's step makes no operation of the call, and without an identity it can
      only make it unknown. */
  lemma OtherOperation(s: State, a: Action, c: Call)
    requires Enabled(s, a) && !By(a, c)
    ensures Holds(Apply(s, a), c) ==> Holds(s, c)
    ensures Holds(Apply(s, a), c) && !s.stored.value.identified && s.stored.value.status in {Processing, Unknown} ==>
              !Apply(s, a).stored.value.identified && Apply(s, a).stored.value.status in {Processing, Unknown}
  {
    hide Supersedes, Rank;
  }

  lemma OwnCommitTold(s: State, a: Action, endings: seq<Ending>)
    requires Enabled(s, a) && (a.Commit? || a.CommitReplyLost?) && Told(s, a.c, endings)
    ensures a.c in Apply(s, a).calls && Told(Apply(s, a), a.c, endings)
  {
  }

  lemma OwnRecordTold(s: State, a: Action, endings: seq<Ending>)
    requires Enabled(s, a) && (a.Record? || a.RecordReplyLost?) && Told(s, a.c, endings)
    ensures a.c in Apply(s, a).calls && Told(Apply(s, a), a.c, endings)
  {
  }

  lemma OwnStepTold(s: State, a: Action, c: Call, endings: seq<Ending>)
    requires Enabled(s, a) && By(a, c) && !a.Begin? && !a.Commit? && !a.CommitReplyLost? && !a.Record? && !a.RecordReplyLost?
    requires c in s.calls && Told(s, c, endings)
    ensures c in Apply(s, a).calls && Told(Apply(s, a), c, endings + EndingOf(a, c))
  {
  }

  lemma NewCallTold(s: State, a: Action)
    requires Inv(s) && Enabled(s, a) && a.Begin?
    ensures a.c in Apply(s, a).calls && Told(Apply(s, a), a.c, [])
  {
    if Holds(s, a.c) {
      HolderIsCall(s, a.c);
    }
  }

  lemma HolderIsCall(s: State, c: Call)
    requires Inv(s) && Holds(s, c)
    ensures c in s.calls
  {
    hide CallInv, AttemptInv;
    CreatedAreCalls(s, c);
  }

  lemma StepTold(s: State, a: Action, c: Call, endings: seq<Ending>)
    requires Inv(s) && Enabled(s, a) && c in Apply(s, a).calls
    requires if c in s.calls then Told(s, c, endings) else endings == []
    ensures Told(Apply(s, a), c, endings + EndingOf(a, c))
  {
    hide Inv, Apply, Told;
    if !By(a, c) {
      NotByNoEnding(a, c);
      assert endings + EndingOf(a, c) == endings;
      NotByNotNew(s, a, c);
      OtherTold(s, a, c, endings);
    } else {
      ByItsCall(a, c);
      OwnIsKnown(s, a, c);
      if a.Begin? {
        NewCallTold(s, a);
      } else if a.Commit? || a.CommitReplyLost? {
        OwnCommitTold(s, a, endings);
      } else if a.Record? || a.RecordReplyLost? {
        OwnRecordTold(s, a, endings);
      } else {
        OwnStepTold(s, a, c, endings);
      }
      assert endings + [] == endings;
    }
  }

  lemma NotByNoEnding(a: Action, c: Call)
    requires !By(a, c)
    ensures EndingOf(a, c) == []
  {
  }

  lemma NotByNotNew(s: State, a: Action, c: Call)
    requires Enabled(s, a) && !By(a, c) && c in Apply(s, a).calls
    ensures c in s.calls
  {
    NotFromNowhere(s, a, c);
  }

  lemma ByItsCall(a: Action, c: Call)
    requires By(a, c)
    ensures a.Begin? || a.Commit? || a.CommitReplyLost? || a.Record? || a.RecordReplyLost? ==> a.c == c && EndingOf(a, c) == []
  {
  }

  lemma OwnIsKnown(s: State, a: Action, c: Call)
    requires Enabled(s, a) && By(a, c)
    ensures a.Begin? <==> c !in s.calls
  {
  }

  lemma {:induction false} RunSnoc(s: State, actions: seq<Action>)
    requires actions != []
    ensures var n := |actions| - 1;
            IsRun(s, actions) <==> IsRun(s, actions[..n]) && Enabled(After(s, actions[..n]), actions[n])
    ensures var n := |actions| - 1;
            IsRun(s, actions) ==> After(s, actions) == Apply(After(s, actions[..n]), actions[n])
    decreases |actions|
  {
    hide Apply, Enabled;
    var n := |actions| - 1;
    if n > 0 && Enabled(s, actions[0]) {
      assert actions[1..][..n - 1] == actions[..n][1..] && actions[1..][n - 1] == actions[n];
      RunSnoc(Apply(s, actions[0]), actions[1..]);
    } else if n == 0 {
      assert actions[..0] == [] && actions[1..] == [];
    }
  }

  lemma {:induction false} RunTold(s: State, actions: seq<Action>, c: Call)
    requires Initial(s) && IsRun(s, actions)
    ensures if c in After(s, actions).calls then Told(After(s, actions), c, Endings(actions, c)) else Endings(actions, c) == []
    decreases |actions|
  {
    if actions != [] {
      hide Apply, Enabled, Initial, Told, Inv;
      var n := |actions| - 1;
      RunSnoc(s, actions);
      RunTold(s, actions[..n], c);
      var t := After(s, actions[..n]);
      InitialHolds(s);
      RunInv(s, actions[..n]);
      if c in Apply(t, actions[n]).calls {
        StepTold(t, actions[n], c, Endings(actions[..n], c));
      } else {
        UnknownEndsNothing(t, actions[n], c);
      }
    }
  }

  lemma InitialHolds(s: State)
    requires Initial(s)
    ensures Inv(s)
  {
  }

  lemma UnknownEndsNothing(s: State, a: Action, c: Call)
    requires Enabled(s, a) && c !in Apply(s, a).calls
    ensures c !in s.calls && EndingOf(a, c) == []
  {
    hide Apply, Enabled, EndingOf;
    if c in s.calls {
      KnownStay(s, a, c);
    } else {
      OnlyKnownEnd(s, a, c);
    }
  }

  lemma KnownStay(s: State, a: Action, c: Call)
    requires Enabled(s, a) && c in s.calls
    ensures c in Apply(s, a).calls
  {
    hide Committed, Recorded, Expired, Observed, Echoed;
    if a.Commit? || a.CommitReplyLost? {
      CommittedGrows(s, a.c, a.observedAt);
      if a.c != c { CommitTouchesOnly(s, a.c, a.observedAt, c); }
    }
    if a.Record? || a.RecordReplyLost? { RecordedLeaves(s, a.c, a.changedAt); }
  }

  lemma OnlyKnownEnd(s: State, a: Action, c: Call)
    requires Enabled(s, a) && c !in s.calls
    ensures EndingOf(a, c) == []
  {
  }

  /** In every run: an attempt ends at most once, and when a call is told a definite
      status of its own attempt, that is the status the attempt ended with. */
  lemma ReceiptsTellTheEnding(s: State, actions: seq<Action>, c: Call, of: Call, status: Status)
    requires Initial(s) && IsRun(s, actions) && c in After(s, actions).calls
    requires After(s, actions).calls[c].reply == Some(Receipt(of, status, false))
    ensures of == c && |Endings(actions, c)| <= 1
    ensures status !in {Processing, Unknown} ==> |Endings(actions, c)| == 1 && Endings(actions, c)[0].status == status
  {
    RunTold(s, actions, c);
  }

  /** And an answer that is recorded in time is what the call is told and what is
      stored; an answer before the provider was reached is stored as unknown. */
  lemma AnswerIsRecorded(s: State, c: Call, status: Status, identified: bool)
    requires InAttempt(s, c, Calling) && s.calls[c].reply.None? && Holds(s, c)
    requires s.stored.value.status == Processing && s.now < s.stored.value.leaseExpiresAt
    requires status != Processing && (identified ==> BearsIdentity(status))
    ensures var run := [ProviderAnswers(c, status, identified), Record(c, s.now)];
            && IsRun(s, run)
            && var t := After(s, run);
               && c in t.calls && t.calls[c].reply == Some(Receipt(c, status, false)) && t.calls[c].attempt == Over
               && t.stored == Some(s.stored.value.(status := status, identified := identified))
  {
    var run := [ProviderAnswers(c, status, identified), Record(c, s.now)];
    var s1 := Apply(s, run[0]);
    RunByStates(run, [s, s1, Apply(s1, run[1])]);
  }

  lemma FailedPreparationIsUnknown(s: State, c: Call)
    requires InAttempt(s, c, Started) && s.calls[c].reply.None? && Holds(s, c)
    requires s.stored.value.status == Processing && s.now < s.stored.value.leaseExpiresAt
    ensures var run := [PreparationFails(c), Record(c, s.now)];
            && IsRun(s, run)
            && var t := After(s, run);
               && c in t.calls && t.calls[c].reply == Some(Receipt(c, Unknown, false)) && t.attempts == s.attempts
               && t.stored == Some(s.stored.value.(status := Unknown, identified := false))
  {
    var run := [PreparationFails(c), Record(c, s.now)];
    var s1 := Apply(s, run[0]);
    RunByStates(run, [s, s1, Apply(s1, run[1])]);
  }

  /** An answer recorded too late leaves the operation unknown, and the call is told so. */
  lemma LateAnswerIsUnknown(s: State, c: Call, status: Status, identified: bool)
    requires InAttempt(s, c, Calling) && s.calls[c].reply.None? && Holds(s, c)
    requires s.stored.value.status == Processing && s.stored.value.leaseExpiresAt <= s.now
    requires status != Processing && (identified ==> BearsIdentity(status))
    ensures var run := [ProviderAnswers(c, status, identified), Record(c, s.now)];
            && IsRun(s, run)
            && var t := After(s, run);
               && c in t.calls && t.calls[c].reply == Some(Receipt(c, Unknown, false))
               && t.stored == Some(s.stored.value.(status := Unknown))
  {
    var run := [ProviderAnswers(c, status, identified), Record(c, s.now)];
    var s1 := Apply(s, run[0]);
    RunByStates(run, [s, s1, Apply(s1, run[1])]);
  }

  // ----- what a commit answers -----

  /** A commit is refused exactly when its connection is gone; it creates an operation,
      for ninety days and with forty-five seconds to dispatch, exactly when the key is
      free; a binding that expired but is still there makes it fail; the operation of
      an equal request is told again, and another request conflicts. */
  lemma CommitIsAnswered(s: State, a: Action)
    requires a.Commit? && Enabled(s, a)
    ensures var call, t := s.calls[a.c], Apply(s, a);
            && a.c in t.calls
            && if call.connection in s.gone then t.calls[a.c].reply == Some(Refused) && t.stored == s.stored
               else if s.stored.None? then
                 && t.calls[a.c] == call.(attempt := Ready) && t.created == s.created[a.c := Creation(s.now, a.observedAt, call.connection)]
                 && t.stored == Some(Operation(a.c, call.connection, call.fingerprint, Processing, false,
                                               s.now + 45, a.observedAt + 90 * 86_400))
               else if s.stored.value.expiresAt <= a.observedAt then
                 t.calls[a.c].reply == Some(ServiceUnavailable) && t.stored == s.stored
               else
                 var op := s.stored.value;
                 var status := if op.status == Processing && op.leaseExpiresAt <= a.observedAt then Unknown else op.status;
                 && t.stored == Some(op.(status := status))
                 && t.calls[a.c].reply == Some(if op.fingerprint == call.fingerprint then Receipt(op.call, status, true)
                                               else IdempotencyConflict)
    ensures Apply(s, a).created != s.created ==> s.stored.None? && s.calls[a.c].connection !in s.gone
    ensures forall d :: d in s.calls && d != a.c ==> d in Apply(s, a).calls && Apply(s, a).calls[d] == s.calls[d]
  {
  }

  // ----- what evidence does to a stored status -----

  /** One step of webhook evidence: only an identified operation that has not expired
      takes it, from unknown always, a failure only until delivery, anything over a
      failure, and otherwise only what comes later. */
  lemma EvidenceMovesIff(s: State, evidence: Status, t: Time)
    requires Enabled(s, StatusObserved(evidence, t)) && s.stored.Some?
    ensures var op := s.stored.value;
            var moves := && op.identified && t < op.expiresAt
                         && match op.status
                            case Unknown => true
                            case Processing => true
                            case Accepted => evidence in {Sent, Delivered, Read, Failed}
                            case Sent => evidence in {Delivered, Read, Failed}
                            case Delivered => evidence == Read
                            case Read => false
                            case Failed => evidence != Failed;
            Apply(s, StatusObserved(evidence, t)) == s.(stored := Some(if moves then op.(status := evidence) else op))
  {
  }

  /** An echo of the message shows that it was sent, unless more is known. */
  lemma EchoMovesIff(s: State, t: Time)
    requires Enabled(s, MessageEchoed(t)) && s.stored.Some?
    ensures var op := s.stored.value;
            var moves := op.identified && t < op.expiresAt && !(op.status.Sent? || op.status.Delivered? || op.status.Read?);
            Apply(s, MessageEchoed(t)) == s.(stored := Some(if moves then op.(status := Sent) else op))
  {
  }

  /** A processing operation becomes unknown exactly when its lease has run out. */
  lemma LeaseMovesIff(s: State, t: Time)
    requires Enabled(s, LeasesExpire(t)) && s.stored.Some?
    ensures var op := s.stored.value;
            Apply(s, LeasesExpire(t)) ==
            s.(stored := Some(if op.status == Processing && op.leaseExpiresAt <= t then op.(status := Unknown) else op))
  {
  }

  /** The operation goes with its connection, and by the purge when it has expired. */
  lemma ReleaseForgets(s: State, a: Action)
    requires Enabled(s, a) && (a.OperationPurged? || a.ConnectionDeleted?)
    ensures var t := Apply(s, a);
            && t.gone == (if a.ConnectionDeleted? then s.gone + {a.connection} else s.gone)
            && (t.stored.None? <==> s.stored.None? || a.OperationPurged? || s.stored.value.connection == a.connection)
            && (t.stored.Some? ==> t.stored == s.stored && t.released == s.released)
            && (s.stored.Some? && t.stored.None? ==>
                  t.released == s.released[s.stored.value.call := if a.OperationPurged? then Purged(s.now) else Dropped(s.now)])
            && t.calls == s.calls && t.created == s.created && t.attempts == s.attempts
  {
  }

  /** What the other steps tell a call that has no reply yet: refused when the commit
      refuses, unavailable when the commit or storing the message fails or the commit's
      reply is lost, and still processing when the reply leaves early or the record
      fails or its reply is lost. A reply that was given stays. */
  lemma OthersTell(s: State, a: Action, c: Call)
    requires Enabled(s, a) && By(a, c) && c in s.calls
    ensures var told := Apply(s, a).calls[c].reply;
            match a
            case CommitRefuses(_) => told == Some(Refused)
            case CommitThrows(_) => told == Some(ServiceUnavailable)
            case CommitReplyLost(_, _) => told == Some(ServiceUnavailable)
            case DeferAccepts(_) => told == Some(Receipt(c, Processing, false))
            case RecordReplyLost(_, _) => told == if s.calls[c].reply.Some? then s.calls[c].reply else Some(Receipt(c, Processing, false))
            case RecordThrows(_) => told == if s.calls[c].reply.Some? then s.calls[c].reply else Some(Receipt(c, Processing, false))
            case StoringThrows(_) => told == if s.calls[c].reply.Some? then s.calls[c].reply else Some(ServiceUnavailable)
            case Record(_, _) => s.calls[c].reply.Some? ==> told == s.calls[c].reply
            case Commit(_, _) => true
            case _ => told == s.calls[c].reply
  {
  }
}
