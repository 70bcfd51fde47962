/** The worker code itself: `provisionConnectionSetup` and `cleanupConnectionSetup`
    with their helpers, as methods on the shared world. Before every call other
    workers may run, in any number of steps; each call is one action of the
    protocol. The trace shows that whatever these methods do, in any interleaving,
    is a run of the protocol, so its safety results hold of them. */
module SetupWorkers {
  import opened Options
  import opened SetupRow
  import opened SetupProtocol

  /** What the row says when an attempt returns with a lasting outcome. */
  predicate Recorded(row: Row, attempt: Attempt) {
    && (attempt == ProvisionedSetup ==> row.state == Provisioned)
    && (attempt == QuarantinedSetup ==> row.state == Quarantined)
    && (attempt == FailedSetup ==> row.state == Failed)
  }

  /** The row no longer honours a claim of this worker. */
  predicate ClaimLost(s: State, w: Worker) {
    s.row.state != Pending || !s.row.provisioning.HeldBy(w) || !s.row.provisioning.Live(s.now)
  }

  /** How an attempt ends, by the provider failure it saw: after a retryable one as a
      retry that left the claim, after a definitive one with the setup failed unless
      the claim was lost, and with the setup failed after nothing else. */
  predicate EndsAfter(s: State, w: Worker, failed: Option<Failure>, attempt: Attempt) {
    && (failed == Some(Retryable) ==> attempt == Retry && (s.row.state == Pending ==> !s.row.provisioning.HeldBy(w)))
    && (failed == Some(Definitive) ==> attempt == FailedSetup || (attempt == Retry && ClaimLost(s, w)))
    && (attempt == FailedSetup ==> failed == Some(Definitive) && s.row.state == Failed)
  }

  class World {
    var s: State
    ghost var start: State
    ghost var trace: seq<Action>

    ghost predicate Valid()
      reads this
    {
      IsRun(start, trace) && After(start, trace) == s
    }

    constructor (initial: State)
      ensures Valid() && s == initial && start == initial && trace == []
    {
      s, start, trace := initial, initial, [];
    }

    /** One call: the action takes effect at one instant. */
    method Perform(a: Action)
      requires Valid() && Enabled(s, a)
      modifies this
      ensures Valid() && s == Apply(old(s), a)
      ensures start == old(start) && trace == old(trace) + [a]
    {
      OneActionRun(s, a);
      RunConcat(start, trace, [a]);
      trace := trace + [a];
      s := Apply(s, a);
    }

    /** Anything the others do meanwhile; the worker itself does not move. */
    method Interfere(w: Worker)
      requires Valid()
      modifies this
      ensures Valid() && start == old(start) && old(trace) <= trace
      ensures old(s).now <= s.now
      ensures w in s.provisioners <==> w in old(s).provisioners
      ensures w in s.provisioners ==> s.provisioners[w] == old(s).provisioners[w]
      ensures w in s.cleaners <==> w in old(s).cleaners
      ensures w in s.cleaners ==> s.cleaners[w] == old(s).cleaners[w]
    {
      var others: seq<Action> := *;
      if IsRun(s, others) && NotBy(others, w) {
        OthersLeaveAlone(s, others, w);
        RunConcat(start, trace, others);
        trace := trace + others;
        s := After(s, others);
      }
    }

    /** The clock is read here; the call that uses the value comes later. */
    method ReadClock(w: Worker) returns (t: Time)
      requires Valid()
      modifies this
      ensures Valid() && start == old(start) && old(trace) <= trace && t <= s.now
      ensures w in s.provisioners <==> w in old(s).provisioners
      ensures w in s.provisioners ==> s.provisioners[w] == old(s).provisioners[w]
      ensures w in s.cleaners <==> w in old(s).cleaners
      ensures w in s.cleaners ==> s.cleaners[w] == old(s).cleaners[w]
    {
      t := s.now;
      Interfere(w);
    }

    method ListSessions() returns (observed: seq<Session>)
      ensures Lists(observed, s.sessions)
    {
      observed := [];
      var left := s.sessions;
      while left != {}
        invariant left <= s.sessions && Lists(observed, s.sessions - left)
        decreases left
      {
        var x: Session :| x in left;
        assert x !in observed;
        assert (set y | y in observed + [x]) == (set y | y in observed) + {x};
        assert s.sessions - (left - {x}) == (s.sessions - left) + {x};
        observed := observed + [x];
        left := left - {x};
      }
      assert s.sessions - left == s.sessions;
    }

    // ----- connection-setup-provisioning.ts -----

    method ReleaseForRetry(w: Worker) returns (attempt: Attempt)
      requires Valid() && At(s, w, Releasing)
      modifies this
      ensures Valid() && start == old(start) && old(trace) <= trace
      ensures attempt == Retry && At(s, w, Done(attempt))
      ensures s.row.state == Pending ==> !s.row.provisioning.HeldBy(w)
    {
      Interfere(w);
      Perform(ProvisionRelease(w));
      return Retry;
    }

    method FailDefinitively(w: Worker) returns (attempt: Attempt)
      requires Valid() && At(s, w, Failing)
      modifies this
      ensures Valid() && start == old(start) && old(trace) <= trace
      ensures attempt in {FailedSetup, Retry} && At(s, w, Done(attempt))
      ensures attempt == FailedSetup ==> s.row.state == Failed && s.row.provisioning == NoLease
      ensures attempt == Retry ==> ClaimLost(s, w)
    {
      var observedAt := ReadClock(w);
      var failed := FailProvisioning(s.row, w, observedAt).1;
      Perform(ProvisionFail(w, observedAt));
      if !failed {
        return Retry;
      }
      return FailedSetup;
    }

    method Finish(w: Worker, sessions: seq<Session>) returns (attempt: Attempt)
      requires Valid() && At(s, w, Finishing(sessions))
      modifies this
      ensures Valid() && start == old(start) && old(trace) <= trace
      ensures At(s, w, Done(attempt))
      ensures attempt in {ProvisionedSetup, QuarantinedSetup, Retry} && Recorded(s.row, attempt)
      ensures attempt == Retry ==> ClaimLost(s, w)
      ensures attempt == ProvisionedSetup ==> |sessions| == 1
      ensures attempt != Retry ==> s.row.recorded == sessions
    {
      var observedAt := ReadClock(w);
      var committed := FinishProvisioning(s.row, w, observedAt, sessions).1;
      Perform(ProvisionFinish(w, observedAt));
      if !committed {
        return Retry;
      }
      return if |sessions| == 1 then ProvisionedSetup else QuarantinedSetup;
    }

    method AfterProviderFailure(w: Worker, failure: Failure) returns (attempt: Attempt)
      requires Valid() && At(s, w, AfterFailure(failure))
      modifies this
      ensures Valid() && start == old(start) && old(trace) <= trace
      ensures At(s, w, Done(attempt)) && Recorded(s.row, attempt)
      ensures EndsAfter(s, w, Some(failure), attempt)
    {
      if failure == Definitive {
        attempt := FailDefinitively(w);
      } else {
        attempt := ReleaseForRetry(w);
      }
    }

    /** Also tells which failure the provider calls came back with, if any did. */
    method ReconcileClaimedSetup(w: Worker) returns (attempt: Attempt, failed: Option<Failure>)
      requires Valid() && At(s, w, Reconciling)
      modifies this
      ensures Valid() && start == old(start) && old(trace) <= trace
      ensures At(s, w, Done(attempt)) && attempt != IgnoredMessage && Recorded(s.row, attempt)
      ensures EndsAfter(s, w, failed, attempt)
    {
      Interfere(w);
      failed := None;
      var unanswered: bool := *;
      if unanswered {
        var failure: Failure := *;
        failed := Some(failure);
        Perform(ReconcileFails(w, failure));
        attempt := AfterProviderFailure(w, failure);
        return;
      }
      var observed := ListSessions();
      Perform(ReconcileSees(w, observed));
      if observed != [] {
        // present, or duplicates to quarantine
        attempt := Finish(w, observed);
        return;
      }
      var observedAt := ReadClock(w);
      var renewed := RenewProvisioning(s.row, w, observedAt).1;
      Perform(RenewForCreate(w, observedAt));
      if !renewed {
        return Retry, None;
      }
      attempt, failed := Create(w);
    }

    /** The create call and what follows from its answer; it may have landed
        although it comes back as a failure. */
    method Create(w: Worker) returns (attempt: Attempt, failed: Option<Failure>)
      requires Valid() && CanCreate(s, w) && s.provisioners[w].landed.None?
      modifies this
      ensures Valid() && start == old(start) && old(trace) <= trace
      ensures At(s, w, Done(attempt)) && attempt != IgnoredMessage && Recorded(s.row, attempt)
      ensures EndsAfter(s, w, failed, attempt)
    {
      Interfere(w);
      failed := None;
      var lands: bool, answered: bool := *, *;
      if lands && s.now < s.provisioners[w].until {
        Perform(CreateLands(w));
        Interfere(w);
        if answered {
          Perform(CreateReturns(w));
          attempt := Finish(w, s.provisioners[w].sessions);
          return;
        }
      }
      var failure: Failure := *;
      failed := Some(failure);
      Perform(CreateFails(w, failure));
      attempt := AfterProviderFailure(w, failure);
    }

    method ProvisionConnectionSetup(w: Worker) returns (attempt: Attempt, failed: Option<Failure>)
      requires Valid() && w !in s.provisioners
      modifies this
      ensures Valid() && start == old(start) && old(trace) <= trace
      ensures At(s, w, Done(attempt)) && Recorded(s.row, attempt)
      ensures EndsAfter(s, w, failed, attempt)
      ensures Initial(start) ==> Safe(s) && attempt != QuarantinedSetup
      ensures Initial(start) && attempt == ProvisionedSetup ==>
                |s.row.recorded| == 1 && s.sessions == {s.row.recorded[0]}
    {
      failed := None;
      var claimedAt := ReadClock(w);
      var outcome := ClaimProvisioning(s.row, w, claimedAt).1;
      Perform(ProvisionClaim(w, claimedAt));
      if outcome == Leased {
        attempt := Retry;
      } else if outcome != Claimed {
        attempt := IgnoredMessage;
      } else {
        attempt, failed := ReconcileClaimedSetup(w);
      }
      if Initial(start) {
        EveryRunIsSafe(start, trace);
      }
    }

    // ----- connection-setup-cleanup.ts -----

    method CleanupReleaseForRetry(w: Worker) returns (outcome: CleanupAttempt)
      requires Valid() && CleanerAt(s, w, GivingBack)
      modifies this
      ensures Valid() && start == old(start) && old(trace) <= trace
      ensures outcome == CleanupRetry && CleanerAt(s, w, CleanupEnded(outcome))
      ensures Terminal(s.row) ==> !s.row.cleaning.HeldBy(w)
    {
      Interfere(w);
      Perform(CleanupRelease(w));
      return CleanupRetry;
    }

    /** Also tells whether the deletion took effect. */
    method DeleteOne(w: Worker, session: Session) returns (outcome: CleanupAttempt, deleted: bool)
      requires Valid() && CleanerAt(s, w, SawSession(session))
      modifies this
      ensures Valid() && start == old(start) && old(trace) <= trace
      ensures outcome == CleanupRetry && CleanerAt(s, w, CleanupEnded(outcome))
      ensures deleted ==> DeleteLands(w) in trace[|old(trace)|..]
    {
      hide IsRun, After;
      deleted := false;
      var observedAt := ReadClock(w);
      var renewed := RenewCleanup(s.row, w, observedAt).1;
      Perform(RenewForDelete(w, observedAt));
      if !renewed {
        return CleanupRetry, false;
      }
      Interfere(w);
      deleted := *;
      ghost var done := trace;
      if deleted {
        Perform(DeleteLands(w));
        done := trace;
        assert done[|done| - 1] == DeleteLands(w);
        Interfere(w);
      }
      Perform(DeleteReturns(w));
      outcome := CleanupReleaseForRetry(w);
      assert deleted ==> trace[|done| - 1] == DeleteLands(w);
    }

    method CleanupConnectionSetup(w: Worker) returns (outcome: CleanupAttempt)
      requires Valid() && w !in s.cleaners
      modifies this
      ensures Valid() && start == old(start) && old(trace) <= trace
      ensures CleanerAt(s, w, CleanupEnded(outcome))
      ensures outcome == CleanupDone ==> s.row.cleanup == CleanupComplete
      ensures Initial(start) ==> Safe(s) && (outcome == CleanupDone ==> w !in s.deleted && s.sessions == {})
    {
      var claimedAt := ReadClock(w);
      var claim := ClaimCleanup(s.row, w, claimedAt).1;
      Perform(CleanupClaim(w, claimedAt));
      match claim {
        case Leased => outcome := CleanupRetry;
        case Complete => outcome := CleanupDone;
        case Ignored => outcome := CleanupIgnored;
        case Claimed => outcome := InspectClaimedSetup(w);
      }
      if Initial(start) {
        EveryRunIsSafe(start, trace);
        if w in s.deleted {
          DeletingAttemptNeverCompletes(start, trace, w);
        }
      }
    }

    method InspectClaimedSetup(w: Worker) returns (outcome: CleanupAttempt)
      requires Valid() && CleanerAt(s, w, Inspecting)
      modifies this
      ensures Valid() && start == old(start) && old(trace) <= trace
      ensures CleanerAt(s, w, CleanupEnded(outcome)) && outcome != CleanupIgnored
      ensures outcome == CleanupDone ==> s.row.cleanup == CleanupComplete
    {
      Interfere(w);
      var unanswered: bool := *;
      if unanswered {
        Perform(InspectFails(w));
        outcome := CleanupReleaseForRetry(w);
        return;
      }
      var observed := ListSessions();
      Perform(InspectSees(w, observed));
      if observed == [] {
        var observedAt := ReadClock(w);
        var finished := FinishCleanup(s.row, w, observedAt).1;
        Perform(CleanupFinish(w, observedAt));
        return if finished then CleanupDone else CleanupRetry;
      }
      var deleted: bool;
      outcome, deleted := DeleteOne(w, observed[0]);
    }
  }

  lemma OneActionRun(s: State, a: Action)
    requires Enabled(s, a)
    ensures IsRun(s, [a]) && After(s, [a]) == Apply(s, a)
  {
    assert [a][1..] == [];
  }

  predicate By(a: Action, w: Worker) {
    match a
    case ProvisionClaim(v, _) => v == w
    case ReconcileFails(v, _) => v == w
    case ReconcileSees(v, _) => v == w
    case RenewForCreate(v, _) => v == w
    case CreateLands(v) => v == w
    case CreateReturns(v) => v == w
    case CreateFails(v, _) => v == w
    case ProvisionFinish(v, _) => v == w
    case ProvisionFail(v, _) => v == w
    case ProvisionRelease(v) => v == w
    case CleanupClaim(v, _) => v == w
    case InspectFails(v) => v == w
    case InspectSees(v, _) => v == w
    case RenewForDelete(v, _) => v == w
    case DeleteLands(v) => v == w
    case DeleteReturns(v) => v == w
    case CleanupRelease(v) => v == w
    case CleanupFinish(v, _) => v == w
    case _ => false
  }

  predicate NotBy(actions: seq<Action>, w: Worker) {
    forall i :: 0 <= i < |actions| ==> !By(actions[i], w)
  }

  lemma {:induction false} OthersLeaveAlone(s: State, actions: seq<Action>, w: Worker)
    requires IsRun(s, actions) && NotBy(actions, w)
    ensures var t := After(s, actions);
            && s.now <= t.now
            && (w in t.provisioners <==> w in s.provisioners)
            && (w in t.provisioners ==> t.provisioners[w] == s.provisioners[w])
            && (w in t.cleaners <==> w in s.cleaners)
            && (w in t.cleaners ==> t.cleaners[w] == s.cleaners[w])
    decreases |actions|
  {
    hide Apply, Enabled, By;
    if actions != [] {
      OtherLeavesAlone(s, actions[0], w);
      OthersLeaveAlone(Apply(s, actions[0]), actions[1..], w);
    }
  }

  lemma OtherLeavesAlone(s: State, a: Action, w: Worker)
    requires Enabled(s, a) && !By(a, w)
    ensures var t := Apply(s, a);
            && s.now <= t.now
            && (w in t.provisioners <==> w in s.provisioners)
            && (w in t.provisioners ==> t.provisioners[w] == s.provisioners[w])
            && (w in t.cleaners <==> w in s.cleaners)
            && (w in t.cleaners ==> t.cleaners[w] == s.cleaners[w])
  {
  }
}
