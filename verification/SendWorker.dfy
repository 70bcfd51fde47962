/** The `send` method itself as actions of the protocol: commit, the single
    attempt, and the record, with other calls running before every step. */
module SendWorker {
  import opened Options
  import opened SendProtocol
  import opened SendOutcomes

  /** Whether the runtime can extend the request's lifetime. */
  datatype Defer = NoHook | HookAccepts | HookThrows

  /** What the provider adapter returns. */
  datatype SendResult =
    | IdentityEvidence(evidence: IdentityBearing)
    | ProviderAcknowledgement
    | DefinitiveFailure
    | Ambiguous

  /** What came of an attempt: the adapter's result, or an exception on the way. */
  datatype Outcome = Threw | Returned(result: SendResult)

  /** How a database call came back: what it says was done, or not at all. */
  datatype Report = Refuses | Fails | ReplyLost | Done

  function ResultStatus(result: SendResult): (status: Status)
    ensures status != Processing && (result.IdentityEvidence? ==> BearsIdentity(status) && status == result.evidence)
    ensures status == Unknown <==> result == Ambiguous
    ensures status == Failed <==> result == DefinitiveFailure
    ensures result == ProviderAcknowledgement ==> status == Accepted
  {
    match result
    case IdentityEvidence(status) => status
    case ProviderAcknowledgement => Accepted
    case DefinitiveFailure => Failed
    case Ambiguous => Unknown
  }

  /** Exactly one ending was added: unknown for an ambiguous answer or an exception,
      failed for a definitive failure, the provider's own status for evidence that
      bears an identity, accepted for a mere acknowledgement. */
  predicate EndsWith(before: seq<Ending>, after: seq<Ending>, outcome: Outcome) {
    && |after| == |before| + 1 && before <= after
    && var ending := after[|before|];
       && (ending.status == Unknown <==> outcome == Threw || outcome == Returned(Ambiguous))
       && (ending.status == Failed <==> outcome == Returned(DefinitiveFailure))
       && (outcome == Returned(ProviderAcknowledgement) ==> ending.status == Accepted)
       && (ending.identified <==> outcome.Returned? && outcome.result.IdentityEvidence?)
       && (ending.identified ==> ending.status == outcome.result.evidence)
  }

  /** A definite status that a call is told of its own attempt is what the provider
      answered it: a failure only for a definitive one. */
  predicate TellsOutcome(reply: Reply, outcome: Option<Outcome>) {
    reply.Receipt? && !reply.replay && reply.status !in {Processing, Unknown} ==>
      && outcome.Some? && outcome.value.Returned? && outcome.value.result != Ambiguous
      && (reply.status == Failed <==> outcome.value.result == DefinitiveFailure)
      && (outcome.value.result.IdentityEvidence? ==> reply.status == outcome.value.result.evidence)
      && (outcome.value.result == ProviderAcknowledgement ==> reply.status == Accepted)
  }

  lemma OwnReceiptTells(start: State, trace: seq<Action>, c: Call, outcome: Option<Outcome>)
    requires Initial(start) && IsRun(start, trace) && c in After(start, trace).calls
    requires After(start, trace).calls[c].reply.Some?
    requires if outcome.None? then Endings(trace, c) == [] else EndsWith([], Endings(trace, c), outcome.value)
    ensures TellsOutcome(After(start, trace).calls[c].reply.value, outcome)
  {
    var reply := After(start, trace).calls[c].reply.value;
    if reply.Receipt? && !reply.replay {
      hide IsRun, After, Initial, Endings;
      ReceiptsTellTheEnding(start, trace, c, reply.of, reply.status);
    }
  }

  class World {
    var s: State
    ghost var start: State
    ghost var trace: seq<Action>

    ghost predicate Valid()
      reads this
    {
      IsRun(start, trace) && After(start, trace) == s
    }

    constructor (initial: State)
      ensures Valid() && s == initial && start == initial && trace == []
    {
      s, start, trace := initial, initial, [];
    }

    method Perform(c: Call, a: Action)
      requires Valid() && Enabled(s, a)
      modifies this
      ensures Valid() && s == Apply(old(s), a)
      ensures start == old(start) && trace == old(trace) + [a]
      ensures Endings(trace, c) == Endings(old(trace), c) + EndingOf(a, c)
      ensures EndingOf(a, c) == [] ==> Endings(trace, c) == Endings(old(trace), c)
    {
      assert [a][1..] == [];
      assert (trace + [a])[..|trace|] == trace;
      RunConcat(start, trace, [a]);
      trace := trace + [a];
      s := Apply(s, a);
    }

    /** Whatever other calls and the sweeps do meanwhile. */
    method Interfere(c: Call)
      requires Valid()
      modifies this
      ensures Valid() && start == old(start) && old(trace) <= trace && old(s).now <= s.now
      ensures c in s.calls <==> c in old(s).calls
      ensures c in s.calls ==> s.calls[c] == old(s).calls[c]
      ensures Endings(trace, c) == Endings(old(trace), c)
    {
      var others: seq<Action> := *;
      if IsRun(s, others) && NotBy(others, c) {
        OthersLeaveAlone(s, others, c);
        OthersEndNothing(others, c);
        EndingsConcat(trace, others, c);
        RunConcat(start, trace, others);
        trace := trace + others;
        s := After(s, others);
      }
    }

    /** `completeProviderAttempt`: one provider call at most; an exception and an
        ambiguous answer both become the status unknown. */
    method CompleteProviderAttempt(c: Call) returns (outcome: Outcome)
      requires Valid() && InAttempt(s, c, Started)
      modifies this
      ensures Valid() && start == old(start) && old(trace) <= trace
      ensures InAttempt(s, c, Over) && s.calls[c].reply.Some?
      ensures old(s).calls[c].reply.Some? ==> s.calls[c].reply == old(s).calls[c].reply
      ensures EndsWith(Endings(old(trace), c), Endings(trace, c), outcome)
    {
      hide IsRun, After, Endings, Committed, Recorded, Expired;
      Interfere(c);
      outcome := Threw;
      var prepared: bool := *;
      if prepared {
        Perform(c, CallProvider(c));
        Interfere(c);
        var throws: bool, result: SendResult := *, *;
        if throws {
          Perform(c, ProviderAnswers(c, Unknown, false));
        } else {
          outcome := Returned(result);
          Perform(c, ProviderAnswers(c, ResultStatus(result), result.IdentityEvidence?));
        }
      } else {
        Perform(c, PreparationFails(c));
      }
      var stored, recorded := RecordOutcome(c);
    }

    /** Storing and recording what the attempt came to; each may fail, or its
        reply may be lost. */
    method RecordOutcome(c: Call) returns (stored: Report, recorded: Report)
      requires Valid() && IsRecording(s, c)
      modifies this
      ensures Valid() && start == old(start) && old(trace) <= trace
      ensures InAttempt(s, c, Over) && s.calls[c].reply.Some?
      ensures old(s).calls[c].reply.Some? ==> s.calls[c].reply == old(s).calls[c].reply
      ensures Endings(trace, c) == Endings(old(trace), c)
      ensures old(s).calls[c].reply.None? && stored != Done ==> s.calls[c].reply == Some(ServiceUnavailable)
      ensures old(s).calls[c].reply.None? && stored == Done && recorded != Done ==>
                s.calls[c].reply == Some(Receipt(c, Processing, false))
    {
      hide IsRun, After, Endings, Expired, Holds;
      var changedAt := s.now;
      Interfere(c);
      stored, recorded := *, *;
      if stored != Done {
        Perform(c, StoringThrows(c));
        return;
      }
      match recorded {
        case ReplyLost => Perform(c, RecordReplyLost(c, changedAt));
        case Done => Perform(c, Record(c, changedAt));
        case _ => Perform(c, RecordThrows(c));
      }
    }

    /** `send`. When the hook accepts, the reply leaves while the started attempt
        is still to be completed; the runtime then completes it. */
    method Send(c: Call, connection: Connection, fingerprint: nat, defer: Defer)
      returns (reply: Reply, deferred: bool, outcome: Option<Outcome>)
      requires Valid() && c !in s.calls
      modifies this
      ensures Valid() && start == old(start) && old(trace) <= trace
      ensures c in s.calls && s.calls[c].reply == Some(reply)
      ensures deferred ==> defer == HookAccepts && InAttempt(s, c, Started) && reply == Receipt(c, Processing, false)
      ensures !deferred ==> s.calls[c].attempt in {NoAttempt, Over}
      ensures outcome.None? ==> Endings(trace, c) == Endings(old(trace), c)
      ensures Initial(start) ==> forall i, j :: 0 <= i < j < |s.attempts| ==> s.attempts[i] != s.attempts[j]
      ensures Initial(start) && s.calls[c].attempt == NoAttempt ==> c !in s.attempts
      ensures outcome.Some? ==> EndsWith(Endings(old(trace), c), Endings(trace, c), outcome.value)
      ensures Initial(start) ==> TellsOutcome(reply, outcome)
    {
      hide IsRun, After, Initial, Endings, EndsWith, TellsOutcome, Apply;
      if Initial(start) { RunTold(start, trace, c); }
      Opens(s, c, connection, fingerprint);
      Perform(c, Begin(c, connection, fingerprint));
      var observedAt := s.now;
      Interfere(c);
      var committed: Report;
      deferred, outcome, committed := CommitOnce(c, observedAt, defer);
      reply := s.calls[c].reply.value;
      if Initial(start) {
        OncePerCall(start, trace, c);
        OwnReceiptTells(start, trace, c, outcome);
      }
    }

    /** The commit and, when it created the operation, the attempt. */
    method CommitOnce(c: Call, observedAt: Time, defer: Defer)
      returns (deferred: bool, outcome: Option<Outcome>, committed: Report)
      requires Valid() && Waiting(s, c) && observedAt <= s.now
      modifies this
      ensures Valid() && start == old(start) && old(trace) <= trace
      ensures committed == Refuses ==> c in s.calls && s.calls[c].reply == Some(Refused)
      ensures committed in {Fails, ReplyLost} ==> c in s.calls && s.calls[c].reply == Some(ServiceUnavailable)
      ensures c in s.calls && s.calls[c].reply.Some?
      ensures deferred ==> defer == HookAccepts && InAttempt(s, c, Started) && s.calls[c].reply == Some(Receipt(c, Processing, false))
      ensures !deferred ==> s.calls[c].attempt in {NoAttempt, Over}
      ensures outcome.None? ==> Endings(trace, c) == Endings(old(trace), c)
      ensures outcome.Some? ==> EndsWith(Endings(old(trace), c), Endings(trace, c), outcome.value)
    {
      hide IsRun, After, Initial, Endings, EndsWith;
      deferred, outcome, committed := false, None, *;
      match committed {
        case Refuses => Perform(c, CommitRefuses(c));
        case Fails => Perform(c, CommitThrows(c));
        case ReplyLost => Perform(c, CommitReplyLost(c, observedAt));
        case Done =>
          Perform(c, Commit(c, observedAt));
          if s.calls[c].attempt == Ready {
            deferred, outcome := Attempt(c, defer);
          }
      }
    }

    /** The attempt is started once, before the hook is asked. An accepting hook
        lets the reply go out with the attempt still running; a throwing hook
        leads to awaiting the attempt already started, as does no hook at all. */
    method Attempt(c: Call, defer: Defer) returns (deferred: bool, outcome: Option<Outcome>)
      requires Valid() && InAttempt(s, c, Ready) && s.calls[c].reply.None?
      modifies this
      ensures Valid() && start == old(start) && old(trace) <= trace
      ensures deferred <==> defer == HookAccepts
      ensures deferred ==> InAttempt(s, c, Started) && s.calls[c].reply == Some(Receipt(c, Processing, false))
      ensures !deferred ==> InAttempt(s, c, Over) && s.calls[c].reply.Some?
      ensures deferred ==> outcome.None? && Endings(trace, c) == Endings(old(trace), c)
      ensures !deferred ==> outcome.Some? && EndsWith(Endings(old(trace), c), Endings(trace, c), outcome.value)
    {
      hide IsRun, After, Endings, EndsWith;
      Interfere(c);
      Perform(c, StartAttempt(c));
      if defer != NoHook {
        Interfere(c);
        if defer == HookAccepts {
          Perform(c, DeferAccepts(c));
          return true, None;
        }
      }
      var completed := CompleteProviderAttempt(c);
      return false, Some(completed);
    }
  }

  lemma Opens(s: State, c: Call, connection: Connection, fingerprint: nat)
    requires c !in s.calls
    ensures Enabled(s, Begin(c, connection, fingerprint)) && EndingOf(Begin(c, connection, fingerprint), c) == []
    ensures Waiting(Apply(s, Begin(c, connection, fingerprint)), c)
  {
  }

  lemma OncePerCall(s: State, actions: seq<Action>, c: Call)
    requires Initial(s) && IsRun(s, actions) && c in After(s, actions).calls
    ensures var t := After(s, actions);
            && (forall i, j :: 0 <= i < j < |t.attempts| ==> t.attempts[i] != t.attempts[j])
            && (t.calls[c].attempt == NoAttempt ==> c !in t.attempts)
  {
    AtMostOneAttempt(s, actions);
    NoAttemptNoCall(s, actions, c);
  }

  lemma NoAttemptNoCall(s: State, actions: seq<Action>, c: Call)
    requires Initial(s) && IsRun(s, actions) && c in After(s, actions).calls
    ensures After(s, actions).calls[c].attempt == NoAttempt ==> c !in After(s, actions).attempts
  {
    assert Inv(s);
    RunInv(s, actions);
    assert CallInv(After(s, actions), c);
  }

  predicate NotBy(actions: seq<Action>, c: Call) {
    forall i :: 0 <= i < |actions| ==> !By(actions[i], c)
  }

  lemma {:induction false} OthersLeaveAlone(s: State, actions: seq<Action>, c: Call)
    requires IsRun(s, actions) && NotBy(actions, c)
    ensures var t := After(s, actions);
            s.now <= t.now && (c in t.calls <==> c in s.calls) && (c in t.calls ==> t.calls[c] == s.calls[c])
    decreases |actions|
  {
    hide Apply, Enabled, By;
    if actions != [] {
      OtherLeavesAlone(s, actions[0], c);
      OthersLeaveAlone(Apply(s, actions[0]), actions[1..], c);
    }
  }

  lemma OtherLeavesAlone(s: State, a: Action, c: Call)
    requires Enabled(s, a) && !By(a, c)
    ensures var t := Apply(s, a);
            s.now <= t.now && (c in t.calls <==> c in s.calls) && (c in t.calls ==> t.calls[c] == s.calls[c])
  {
    if (a.Commit? || a.CommitReplyLost?) && c in s.calls {
      CommitTouchesOnly(s, a.c, a.observedAt, c);
    }
  }
}
