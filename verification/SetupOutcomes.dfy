/** How a provisioning attempt ends, and what it leaves of the setup: which provider
    failures end a setup and which are tried again. */
module SetupOutcomes {
  import opened Options
  import opened SetupRow
  import opened SetupProtocol

  /** The provider call of this worker came back with this failure. */
  predicate Fails(a: Action, w: Worker, failure: Failure) {
    a == ReconcileFails(w, failure) || a == CreateFails(w, failure)
  }

  ghost predicate Failed(actions: seq<Action>, w: Worker, failure: Failure) {
    exists i :: 0 <= i < |actions| && Fails(actions[i], w, failure)
  }

  /** A worker on its way to fail the setup saw a definitive failure, one about to
      give the claim back a retryable one, and nobody both. */
  ghost predicate Caused(s: State, w: Worker, actions: seq<Action>) {
    && (w !in s.provisioners || s.provisioners[w] in {Reconciling, SawAbsent} || CanCreate(s, w) ==>
          !Failed(actions, w, Definitive) && !Failed(actions, w, Retryable))
    && (At(s, w, Failing) || At(s, w, Done(FailedSetup)) ==> Failed(actions, w, Definitive))
    && (At(s, w, Releasing) ==> Failed(actions, w, Retryable))
    && (Failed(actions, w, Definitive) ==>
          At(s, w, Failing) || At(s, w, Done(FailedSetup)) || At(s, w, Done(Retry)))
    && (Failed(actions, w, Retryable) ==> At(s, w, Releasing) || At(s, w, Done(Retry)))
    && !(Failed(actions, w, Definitive) && Failed(actions, w, Retryable))
  }

  lemma FailedSnoc(actions: seq<Action>, a: Action, w: Worker, failure: Failure)
    ensures Failed(actions + [a], w, failure) <==> Failed(actions, w, failure) || Fails(a, w, failure)
  {
    if i :| 0 <= i < |actions + [a]| && Fails((actions + [a])[i], w, failure) {
      assert i < |actions| ==> Fails(actions[i], w, failure);
    }
    if Failed(actions, w, failure) {
      var i :| 0 <= i < |actions| && Fails(actions[i], w, failure);
      assert Fails((actions + [a])[i], w, failure);
    }
    if Fails(a, w, failure) {
      assert Fails((actions + [a])[|actions|], w, failure);
    }
  }

  lemma CausedStep(s: State, a: Action, w: Worker, actions: seq<Action>)
    requires Enabled(s, a) && Caused(s, w, actions)
    ensures Caused(Apply(s, a), w, actions + [a])
  {
    hide Failed;
    FailedSnoc(actions, a, w, Definitive);
    FailedSnoc(actions, a, w, Retryable);
  }

  lemma {:induction false} RunSnoc(s: State, actions: seq<Action>)
    requires actions != []
    ensures var n := |actions| - 1;
            IsRun(s, actions) <==> IsRun(s, actions[..n]) && Enabled(After(s, actions[..n]), actions[n])
    ensures var n := |actions| - 1;
            IsRun(s, actions) ==> After(s, actions) == Apply(After(s, actions[..n]), actions[n])
    decreases |actions|
  {
    hide Apply, Enabled;
    var n := |actions| - 1;
    if n > 0 && Enabled(s, actions[0]) {
      var next := Apply(s, actions[0]);
      assert actions[1..][..n - 1] == actions[..n][1..] && actions[1..][n - 1] == actions[n];
      RunSnoc(next, actions[1..]);
    } else if n == 0 {
      assert actions[..0] == [] && actions[1..] == [];
    }
  }

  lemma {:induction false} RunCaused(s: State, actions: seq<Action>, w: Worker)
    requires Initial(s) && IsRun(s, actions)
    ensures Caused(After(s, actions), w, actions)
    decreases |actions|
  {
    if actions != [] {
      hide Caused, Apply, Enabled, Initial;
      var n := |actions| - 1;
      RunSnoc(s, actions);
      RunCaused(s, actions[..n], w);
      CausedStep(After(s, actions[..n]), actions[n], w, actions[..n]);
      assert actions[..n] + [actions[n]] == actions;
    }
  }

  /** In every run: an attempt that failed the setup had seen a definitive failure;
      one that saw a retryable failure ends, if it ends, as a retry; and one that saw
      a definitive failure fails the setup or had lost its claim. */
  lemma FailuresDecide(s: State, actions: seq<Action>, w: Worker, attempt: Attempt)
    requires Initial(s) && IsRun(s, actions) && At(After(s, actions), w, Done(attempt))
    ensures attempt == FailedSetup ==> Failed(actions, w, Definitive)
    ensures Failed(actions, w, Definitive) ==> attempt in {FailedSetup, Retry} && !Failed(actions, w, Retryable)
    ensures Failed(actions, w, Retryable) ==> attempt == Retry
  {
    RunCaused(s, actions, w);
  }

  /** In every run, only an attempt that saw a definitive failure turns the row to
      failed, apart from a failed activation. */
  lemma OnlyDefinitiveFails(s: State, actions: seq<Action>, a: Action)
    requires Initial(s) && IsRun(s, actions) && Enabled(After(s, actions), a)
    requires After(s, actions).row.state != SetupState.Failed && Apply(After(s, actions), a).row.state == SetupState.Failed
    ensures a.ActivationFails? || (a.ProvisionFail? && Failed(actions, a.w, Definitive))
  {
    if a.ProvisionFail? { RunCaused(s, actions, a.w); }
  }

  /** After a retryable failure no step of the worker changes the state of the row. */
  lemma RetryableChangesNothing(s: State, actions: seq<Action>, a: Action, w: Worker)
    requires Initial(s) && IsRun(s, actions) && Failed(actions, w, Retryable)
    requires Enabled(After(s, actions), a) && IsStepOf(a, w)
    ensures Apply(After(s, actions), a).row.state == After(s, actions).row.state
    ensures Apply(After(s, actions), a).sessions == After(s, actions).sessions
  {
    RunCaused(s, actions, w);
  }

  /** A step of the provisioning worker. */
  predicate IsStepOf(a: Action, w: Worker) {
    match a
    case ProvisionClaim(v, _) => v == w
    case ReconcileFails(v, _) => v == w
    case ReconcileSees(v, _) => v == w
    case RenewForCreate(v, _) => v == w
    case CreateLands(v) => v == w
    case CreateReturns(v) => v == w
    case CreateFails(v, _) => v == w
    case ProvisionFinish(v, _) => v == w
    case ProvisionFail(v, _) => v == w
    case ProvisionRelease(v) => v == w
    case _ => false
  }

  // ----- undisturbed attempts -----

  function ReconcileFailure(w: Worker, t: Time, failure: Failure): seq<Action> {
    [ProvisionClaim(w, t), ReconcileFails(w, failure), if failure == Definitive then ProvisionFail(w, t) else ProvisionRelease(w)]
  }

  function CreateFailure(w: Worker, t: Time, failure: Failure): seq<Action> {
    StartingCreation(w, t)
    + [CreateFails(w, failure), if failure == Definitive then ProvisionFail(w, t) else ProvisionRelease(w)]
  }

  /** What an undisturbed attempt leaves: the setup failed for good, or as it was and
      free to be claimed again. */
  predicate EndsAs(s: State, t: State, w: Worker, failure: Failure) {
    && t.sessions == s.sessions && t.now == s.now
    && if failure == Definitive
       then t.row == s.row.(state := SetupState.Failed, provisioning := NoLease) && At(t, w, Done(FailedSetup))
       else t.row == s.row && t.row.state == Pending && t.row.provisioning == NoLease && At(t, w, Done(Retry))
  }

  lemma ReconcileFailureEnds(s: State, w: Worker, failure: Failure)
    requires Initial(s) && s.now < s.row.expiresAt
    ensures var run := ReconcileFailure(w, s.now, failure);
            IsRun(s, run) && EndsAs(s, After(s, run), w, failure)
  {
    var run := ReconcileFailure(w, s.now, failure);
    var s1 := Apply(s, run[0]);
    assert At(s1, w, Reconciling);
    var s2 := Apply(s1, run[1]);
    assert s2.row == s1.row && Enabled(s2, run[2]);
    RunByStates(run, [s, s1, s2, Apply(s2, run[2])]);
  }

  lemma CreateFailureEnds(s: State, w: Worker, failure: Failure)
    requires Initial(s) && s.now < s.row.expiresAt
    ensures var run := CreateFailure(w, s.now, failure);
            IsRun(s, run) && EndsAs(s, After(s, run), w, failure)
  {
    var start, run := StartingCreation(w, s.now), CreateFailure(w, s.now, failure);
    StartedAlone(s, w);
    var t := After(s, start);
    var rest := [run[3], run[4]];
    var t1 := Apply(t, run[3]);
    assert t1.row == t.row && Enabled(t1, run[4]);
    RunByStates(rest, [t, t1, Apply(t1, run[4])]);
    RunConcat(s, start, rest);
    assert run == start + rest;
  }

  lemma StartedAlone(s: State, w: Worker)
    requires Initial(s) && s.now < s.row.expiresAt
    ensures var run := StartingCreation(w, s.now);
            && IsRun(s, run)
            && var t := After(s, run);
               && t.row == s.row.(provisioning := Lease(w, s.now + 120)) && t.sessions == {} && t.now == s.now
               && At(t, w, Creating(s.now + 120, None))
  {
    var run := StartingCreation(w, s.now);
    var s1 := Apply(s, run[0]);
    assert At(s1, w, Reconciling);
    var s2 := Apply(s1, run[1]);
    assert At(s2, w, SawAbsent) && s2.row == s1.row && s2.now == s.now;
    RunByStates(run, [s, s1, s2, Apply(s2, run[2])]);
  }

  /** An attempt that nothing disturbs provisions exactly one session. */
  function Provisioning(w: Worker, t: Time): seq<Action> {
    StartingCreation(w, t) + [CreateLands(w), CreateReturns(w), ProvisionFinish(w, t)]
  }

  lemma UndisturbedAttemptProvisions(s: State, w: Worker)
    requires Initial(s) && s.now < s.row.expiresAt
    ensures var run := Provisioning(w, s.now);
            && IsRun(s, run)
            && var t := After(s, run);
               && t.row == s.row.(state := Provisioned, recorded := [s.next]) && t.sessions == {s.next}
               && At(t, w, Done(ProvisionedSetup))
  {
    var start, run := StartingCreation(w, s.now), Provisioning(w, s.now);
    StartedAlone(s, w);
    var t := After(s, start);
    SessionIsRecorded(t, w);
    assert NextSession(s, w) by { NextIsKept(s, w); }
    var rest := [CreateLands(w), CreateReturns(w), ProvisionFinish(w, t.now)];
    RunConcat(s, start, rest);
    assert run == start + rest;
  }

  predicate NextSession(s: State, w: Worker) {
    IsRun(s, StartingCreation(w, s.now)) && After(s, StartingCreation(w, s.now)).next == s.next
  }

  lemma NextIsKept(s: State, w: Worker)
    requires Initial(s) && s.now < s.row.expiresAt
    ensures NextSession(s, w)
  {
    var run := StartingCreation(w, s.now);
    var s1 := Apply(s, run[0]);
    assert At(s1, w, Reconciling);
    var s2 := Apply(s1, run[1]);
    RunByStates(run, [s, s1, s2, Apply(s2, run[2])]);
  }

  lemma SessionIsRecorded(s: State, w: Worker)
    requires At(s, w, Creating(s.now + LEASE, None)) && s.sessions == {}
    requires s.row.state == Pending && s.row.provisioning == Lease(w, s.now + LEASE)
    ensures var run := [CreateLands(w), CreateReturns(w), ProvisionFinish(w, s.now)];
            && IsRun(s, run)
            && var t := After(s, run);
               && t.row == s.row.(state := Provisioned, provisioning := NoLease, recorded := [s.next])
               && t.sessions == {s.next} && At(t, w, Done(ProvisionedSetup))
  {
    var run := [CreateLands(w), CreateReturns(w), ProvisionFinish(w, s.now)];
    var s1 := Apply(s, run[0]);
    assert CanCreate(s1, w) && s1.provisioners[w].landed == Some(s.next);
    var s2 := Apply(s1, run[1]);
    assert At(s2, w, Finishing([s.next]));
    RunByStates(run, [s, s1, s2, Apply(s2, run[2])]);
  }

  /** A claim whose worker stopped is free after two minutes. */
  lemma StalledClaimIsTakenOver(s: State, w: Worker, later: Time)
    requires s.row.state == Pending && s.row.provisioning.Lease? && s.row.provisioning.expiresAt <= later
    requires s.now <= later < s.row.expiresAt && w !in s.provisioners
    ensures var run := [Tick(later), ProvisionClaim(w, later)];
            && IsRun(s, run)
            && var t := After(s, run);
               At(t, w, Reconciling) && t.row == s.row.(provisioning := Lease(w, later + 120)) && t.now == later
  {
    var run := [Tick(later), ProvisionClaim(w, later)];
    var s1 := Apply(s, run[0]);
    RunByStates(run, [s, s1, Apply(s1, run[1])]);
  }

  // ----- when the stored functions grant a step -----

  /** Another worker's lease of this kind still runs. */
  predicate Runs(lease: Lease, t: Time) {
    lease.Lease? && t < lease.expiresAt
  }

  /** A provisioning claim is granted for two minutes exactly when the setup is pending
      and not expired and no lease runs; while one runs the message comes back. */
  lemma ClaimIff(s: State, a: Action)
    requires a.ProvisionClaim? && Enabled(s, a)
    ensures var open := s.row.state == Pending && a.t < s.row.expiresAt;
            && (At(Apply(s, a), a.w, Reconciling) <==> open && !Runs(s.row.provisioning, a.t))
            && (At(Apply(s, a), a.w, Done(Retry)) <==> open && Runs(s.row.provisioning, a.t))
            && (At(Apply(s, a), a.w, Done(IgnoredMessage)) <==> !open)
    ensures Apply(s, a).row ==
            if At(Apply(s, a), a.w, Reconciling) then s.row.(provisioning := Lease(a.w, a.t + 120)) else s.row
  {
  }

  /** A worker may create exactly when its own claim still runs on a pending setup
      that has not expired, and then for two more minutes. */
  lemma RenewIff(s: State, a: Action)
    requires a.RenewForCreate? && Enabled(s, a)
    ensures var granted := && s.row.state == Pending && a.t < s.row.expiresAt
                           && Runs(s.row.provisioning, a.t) && s.row.provisioning.owner == a.w;
            if granted
            then At(Apply(s, a), a.w, Creating(a.t + 120, None)) && Apply(s, a).row == s.row.(provisioning := Lease(a.w, a.t + 120))
            else At(Apply(s, a), a.w, Done(Retry)) && Apply(s, a).row == s.row
  {
  }

  /** An attempt is recorded exactly while its claim runs on a pending setup, though the
      setup may have expired meanwhile. */
  lemma RecordIff(s: State, a: Action)
    requires (a.ProvisionFinish? || a.ProvisionFail?) && Enabled(s, a)
    ensures var granted := s.row.state == Pending && Runs(s.row.provisioning, a.t) && s.row.provisioning.owner == a.w;
            if !granted then At(Apply(s, a), a.w, Done(Retry)) && Apply(s, a).row == s.row
            else if a.ProvisionFail? then
              && At(Apply(s, a), a.w, Done(FailedSetup))
              && Apply(s, a).row == s.row.(state := SetupState.Failed, provisioning := NoLease)
            else
              var found, t := s.provisioners[a.w].sessions, Apply(s, a);
              && t.row == s.row.(state := t.row.state, provisioning := NoLease, recorded := found)
              && if |found| == 1 then t.row.state == Provisioned && At(t, a.w, Done(ProvisionedSetup))
                 else t.row.state == Quarantined && At(t, a.w, Done(QuarantinedSetup))
  {
  }

  /** Giving a claim back takes away the worker's own lease and nothing else. */
  lemma ReleaseTakesOwnLease(s: State, a: Action)
    requires (a.ProvisionRelease? || a.CleanupRelease?) && Enabled(s, a)
    ensures a.ProvisionRelease? ==>
              Apply(s, a).row == if s.row.state == Pending && s.row.provisioning.Lease? && s.row.provisioning.owner == a.w
                                 then s.row.(provisioning := NoLease) else s.row
    ensures a.CleanupRelease? ==>
              Apply(s, a).row == if AwaitsCleanup(s.row) && s.row.cleaning.Lease? && s.row.cleaning.owner == a.w
                                 then s.row.(cleaning := NoLease) else s.row
  {
  }

  predicate AwaitsCleanup(row: Row) {
    row.cleanup == CleanupPending && (row.state == Cancelled || row.state == Expired || row.state == SetupState.Failed)
  }

  /** A cleanup claim is granted exactly when a cleanup is pending and no lease of
      either kind runs; it takes the provisioning lease away. */
  lemma CleanupClaimIff(s: State, a: Action)
    requires a.CleanupClaim? && Enabled(s, a)
    ensures var busy, t := Runs(s.row.provisioning, a.t) || Runs(s.row.cleaning, a.t), Apply(s, a);
            && (CleanerAt(t, a.w, CleanupEnded(CleanupIgnored)) <==> s.row.cleanup == NoCleanup)
            && (CleanerAt(t, a.w, CleanupEnded(CleanupDone)) <==> s.row.cleanup == CleanupComplete)
            && (CleanerAt(t, a.w, CleanupEnded(CleanupRetry)) <==> s.row.cleanup == CleanupPending && busy)
            && (CleanerAt(t, a.w, Inspecting) <==> s.row.cleanup == CleanupPending && !busy)
            && t.row == if CleanerAt(t, a.w, Inspecting)
                        then s.row.(provisioning := NoLease, cleaning := Lease(a.w, a.t + 120)) else s.row
  {
  }

  /** A cleanup worker may delete, or complete the cleanup, exactly while its claim runs. */
  lemma CleanupGoesOnIff(s: State, a: Action)
    requires (a.RenewForDelete? || a.CleanupFinish?) && Enabled(s, a)
    ensures var t := Apply(s, a);
            if !(AwaitsCleanup(s.row) && Runs(s.row.cleaning, a.t) && s.row.cleaning.owner == a.w) then
              CleanerAt(t, a.w, CleanupEnded(CleanupRetry)) && t.row == s.row
            else if a.RenewForDelete? then
              && t.row == s.row.(cleaning := Lease(a.w, a.t + 120))
              && CleanerAt(t, a.w, Deleting(s.cleaners[a.w].found))
            else
              && t.row == s.row.(cleanup := CleanupComplete, cleaning := NoLease, provisioning := NoLease, recorded := [])
              && CleanerAt(t, a.w, CleanupEnded(CleanupDone))
  {
  }

  /** What reaches the provider: a creation adds a session that never was, a deletion
      removes the one that was found. */
  lemma ProviderSteps(s: State, a: Action)
    requires Enabled(s, a)
    ensures a.CreateLands? ==>
              && Apply(s, a).sessions == s.sessions + {s.next} && Apply(s, a).next > s.next
              && At(Apply(s, a), a.w, Creating(s.provisioners[a.w].until, Some(s.next)))
    ensures a.DeleteLands? ==>
              Apply(s, a).sessions == s.sessions - {s.cleaners[a.w].target} && Apply(s, a).deleted == s.deleted + {a.w}
    ensures !a.CreateLands? && !a.DeleteLands? ==> Apply(s, a).sessions == s.sessions && Apply(s, a).next == s.next
    ensures a.Tick? ==> Apply(s, a) == s.(now := a.later)
  {
  }

  /** What the owner, the clock and the activation do to a setup: a setup that is
      activated, cancelled or expired stays as it is, and any other is cancelled, or
      expired when its time has come, with a cleanup to follow; its leases stay. */
  lemma OthersDecide(s: State, a: Action)
    requires Enabled(s, a)
    ensures var final := s.row.state == Activated || s.row.state == Cancelled || s.row.state == Expired;
            && (a.OwnerCancels? ==>
                  Apply(s, a).row == if final then s.row else s.row.(state := Cancelled, cleanup := CleanupPending))
            && (a.SetupExpires? ==>
                  Apply(s, a).row == if final || a.t < s.row.expiresAt then s.row
                                     else s.row.(state := Expired, cleanup := CleanupPending))
            && (a.Activates? ==>
                  Apply(s, a).row == if s.row.state == Provisioned then s.row.(state := Activated) else s.row)
    ensures a.ActivationFails? ==>
              Apply(s, a).row ==
              if s.row.state == SetupState.Failed then s.row.(cleanup := CleanupPending)
              else if s.row.state == Provisioned && a.t < s.row.expiresAt && s.row.recorded != []
              then s.row.(state := SetupState.Failed, cleanup := CleanupPending, provisioning := NoLease, cleaning := NoLease)
              else s.row
    ensures a.OwnerCancels? || a.SetupExpires? || a.Activates? || a.ActivationFails? ==>
              Apply(s, a) == s.(row := Apply(s, a).row)
  {
  }

  /** Preparing an account deletion cancels as the owner would, and takes the leases. */
  lemma DeletionTakesLeases(s: State)
    ensures var final := s.row.state == Activated || s.row.state == Cancelled || s.row.state == Expired;
            Deleted(s) == if final then s else
              s.(row := s.row.(state := Cancelled, cleanup := CleanupPending, cleaning := NoLease, provisioning := NoLease))
  {
  }
}
