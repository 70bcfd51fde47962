/** Provisioning and cleanup of one Connection Setup as a protocol: any number of
    workers, every interleaving, arbitrary delays between reading the clock and
    reaching the database, and a worker that stops anywhere (it simply takes no
    further step). The provider is reached by calls whose effect lands at some
    point between the call and its return. */
module SetupProtocol {
  import opened Options
  import opened SetupRow

  datatype Attempt = Retry | IgnoredMessage | ProvisionedSetup | QuarantinedSetup | FailedSetup

  /** Where a provisioning worker is; each constructor is a point between two calls. */
  datatype ProvisionPc =
    | Reconciling
    | SawAbsent
    | Creating(until: Time, landed: Option<Session>)
    | Finishing(sessions: seq<Session>)
    | Failing
    | Releasing
    | Done(attempt: Attempt)

  datatype CleanupAttempt = CleanupRetry | CleanupIgnored | CleanupDone

  datatype CleanupPc =
    | Inspecting
    | SawNothing
    | SawSession(found: Session)
    | Deleting(target: Session)
    | GivingBack
    | CleanupEnded(outcome: CleanupAttempt)

  datatype State = State(
    now: Time, row: Row, sessions: set<Session>, next: Session,
    provisioners: map<Worker, ProvisionPc>, cleaners: map<Worker, CleanupPc>,
    deleted: set<Worker>)

  /** How a provider call comes back when it does not succeed. */
  datatype Failure = Retryable | Definitive

  datatype Action =
    | Tick(later: Time)
    // provisioning workers
    | ProvisionClaim(w: Worker, t: Time)
    | ReconcileFails(w: Worker, failure: Failure)
    | ReconcileSees(w: Worker, observed: seq<Session>)
    | RenewForCreate(w: Worker, t: Time)
    | CreateLands(w: Worker)
    | CreateReturns(w: Worker)
    | CreateFails(w: Worker, failure: Failure)
    | ProvisionFinish(w: Worker, t: Time)
    | ProvisionFail(w: Worker, t: Time)
    | ProvisionRelease(w: Worker)
    // cleanup workers
    | CleanupClaim(w: Worker, t: Time)
    | InspectFails(w: Worker)
    | InspectSees(w: Worker, observed: seq<Session>)
    | RenewForDelete(w: Worker, t: Time)
    | DeleteLands(w: Worker)
    | DeleteReturns(w: Worker)
    | CleanupRelease(w: Worker)
    | CleanupFinish(w: Worker, t: Time)
    // others
    | OwnerCancels
    | SetupExpires(t: Time)
    | ActivationFails(t: Time)
    | Activates

  predicate At(s: State, w: Worker, pc: ProvisionPc) {
    w in s.provisioners && s.provisioners[w] == pc
  }

  predicate CleanerAt(s: State, w: Worker, pc: CleanupPc) {
    w in s.cleaners && s.cleaners[w] == pc
  }

  /** A reconcile answers with a listing of the sessions that exist at that moment. */
  predicate Lists(observed: seq<Session>, sessions: set<Session>) {
    && (set x | x in observed) == sessions
    && (forall i, j :: 0 <= i < j < |observed| ==> observed[i] != observed[j])
  }

  predicate CanCreate(s: State, w: Worker) {
    w in s.provisioners && s.provisioners[w].Creating?
  }

  predicate Enabled(s: State, a: Action) {
    match a
    case Tick(later) => s.now <= later
    case ProvisionClaim(w, t) => w !in s.provisioners && t <= s.now
    case ReconcileFails(w, _) => At(s, w, Reconciling)
    case ReconcileSees(w, observed) => At(s, w, Reconciling) && Lists(observed, s.sessions)
    case RenewForCreate(w, t) => At(s, w, SawAbsent) && t <= s.now
    // The one assumption on the provider: a creation lands before the renewed
    // lease can be taken over.
    case CreateLands(w) => CanCreate(s, w) && s.provisioners[w].landed.None? && s.now < s.provisioners[w].until
    case CreateReturns(w) => CanCreate(s, w) && s.provisioners[w].landed.Some?
    case CreateFails(w, _) => CanCreate(s, w)
    case ProvisionFinish(w, t) => w in s.provisioners && s.provisioners[w].Finishing? && t <= s.now
    case ProvisionFail(w, t) => At(s, w, Failing) && t <= s.now
    case ProvisionRelease(w) => At(s, w, Releasing)
    case CleanupClaim(w, t) => w !in s.cleaners && t <= s.now
    case InspectFails(w) => CleanerAt(s, w, Inspecting)
    case InspectSees(w, observed) => CleanerAt(s, w, Inspecting) && Lists(observed, s.sessions)
    case RenewForDelete(w, t) => w in s.cleaners && s.cleaners[w].SawSession? && t <= s.now
    case DeleteLands(w) => w in s.cleaners && s.cleaners[w].Deleting?
    case DeleteReturns(w) => w in s.cleaners && s.cleaners[w].Deleting?
    case CleanupRelease(w) => CleanerAt(s, w, GivingBack)
    case CleanupFinish(w, t) => CleanerAt(s, w, SawNothing) && t <= s.now
    case OwnerCancels => true
    case SetupExpires(t) => t <= s.now
    case ActivationFails(t) => t <= s.now
    case Activates => true
  }

  function Move(s: State, w: Worker, pc: ProvisionPc): State {
    s.(provisioners := s.provisioners[w := pc])
  }

  function MoveCleaner(s: State, w: Worker, pc: CleanupPc): State {
    s.(cleaners := s.cleaners[w := pc])
  }

  function AfterFailure(failure: Failure): ProvisionPc {
    if failure == Definitive then Failing else Releasing
  }

  function Apply(s: State, a: Action): State
    requires Enabled(s, a)
  {
    match a
    case Tick(later) => s.(now := later)
    case ProvisionClaim(w, t) =>
      var (row, outcome) := ClaimProvisioning(s.row, w, t);
      Move(s.(row := row), w,
           if outcome == Claimed then Reconciling
           else if outcome == Leased then Done(Retry) else Done(IgnoredMessage))
    case ReconcileFails(w, failure) => Move(s, w, AfterFailure(failure))
    case ReconcileSees(w, observed) => Move(s, w, if observed == [] then SawAbsent else Finishing(observed))
    case RenewForCreate(w, t) =>
      var (row, renewed) := RenewProvisioning(s.row, w, t);
      Move(s.(row := row), w, if renewed then Creating(t + LEASE, None) else Done(Retry))
    case CreateLands(w) =>
      Move(s.(sessions := s.sessions + {s.next}, next := s.next + 1), w,
           Creating(s.provisioners[w].until, Some(s.next)))
    case CreateReturns(w) => Move(s, w, Finishing([s.provisioners[w].landed.value]))
    case CreateFails(w, failure) => Move(s, w, AfterFailure(failure))
    case ProvisionFinish(w, t) =>
      var sessions := s.provisioners[w].sessions;
      var (row, committed) := FinishProvisioning(s.row, w, t, sessions);
      Move(s.(row := row), w,
           Done(if !committed then Retry else if |sessions| == 1 then ProvisionedSetup else QuarantinedSetup))
    case ProvisionFail(w, t) =>
      var (row, failed) := FailProvisioning(s.row, w, t);
      Move(s.(row := row), w, Done(if failed then FailedSetup else Retry))
    case ProvisionRelease(w) => Move(s.(row := ReleaseProvisioning(s.row, w)), w, Done(Retry))
    case CleanupClaim(w, t) =>
      var (row, outcome) := ClaimCleanup(s.row, w, t);
      MoveCleaner(s.(row := row), w,
                  match outcome
                  case Claimed => Inspecting
                  case Leased => CleanupEnded(CleanupRetry)
                  case Complete => CleanupEnded(CleanupDone)
                  case Ignored => CleanupEnded(CleanupIgnored))
    case InspectFails(w) => MoveCleaner(s, w, GivingBack)
    case InspectSees(w, observed) =>
      MoveCleaner(s, w, if observed == [] then SawNothing else SawSession(observed[0]))
    case RenewForDelete(w, t) =>
      var (row, renewed) := RenewCleanup(s.row, w, t);
      MoveCleaner(s.(row := row), w,
                  if renewed then Deleting(s.cleaners[w].found) else CleanupEnded(CleanupRetry))
    case DeleteLands(w) => s.(sessions := s.sessions - {s.cleaners[w].target}, deleted := s.deleted + {w})
    case DeleteReturns(w) => MoveCleaner(s, w, GivingBack)
    case CleanupRelease(w) => MoveCleaner(s.(row := ReleaseCleanup(s.row, w)), w, CleanupEnded(CleanupRetry))
    case CleanupFinish(w, t) =>
      var (row, finished) := FinishCleanup(s.row, w, t);
      MoveCleaner(s.(row := row), w, CleanupEnded(if finished then CleanupDone else CleanupRetry))
    case OwnerCancels => s.(row := Cancel(s.row))
    case SetupExpires(t) => s.(row := Expire(s.row, t))
    case ActivationFails(t) => s.(row := FailActivation(s.row, t))
    case Activates => s.(row := Activate(s.row))
  }

  predicate Initial(s: State) {
    && s.row.state == Pending && s.row.provisioning == NoLease
    && s.row.cleanup == NoCleanup && s.row.cleaning == NoLease && s.row.recorded == []
    && s.sessions == {} && s.provisioners == map[] && s.cleaners == map[] && s.deleted == {}
  }

  /** `actions` is a run from `s`: every action is enabled when its turn comes. */
  predicate IsRun(s: State, actions: seq<Action>)
    decreases |actions|
  {
    actions == [] || (Enabled(s, actions[0]) && IsRun(Apply(s, actions[0]), actions[1..]))
  }

  function After(s: State, actions: seq<Action>): State
    requires IsRun(s, actions)
    decreases |actions|
  {
    if actions == [] then s else After(Apply(s, actions[0]), actions[1..])
  }

  // ----- the invariant -----

  /** A creation may still land. */
  predicate InFlight(s: State, w: Worker) {
    CanCreate(s, w) && s.provisioners[w].landed.None? && s.now < s.provisioners[w].until
  }

  /** What the state of the row says about its leases. */
  predicate RowInv(row: Row) {
    && (row.state in {Pending, Provisioned, Quarantined, Activated} ==> row.cleanup == NoCleanup)
    && (row.cleanup != CleanupPending ==> row.cleaning == NoLease)
    && (row.provisioning.Lease? ==> row.cleaning == NoLease && row.cleanup != CleanupComplete)
    && (row.state in {Provisioned, Quarantined, Activated, Failed} ==> row.provisioning == NoLease)
    && row.state != Quarantined
  }

  /** What each provisioning worker knows while its claim stands. */
  predicate ProvisionInv(s: State, w: Worker)
    requires w in s.provisioners
  {
    var pc := s.provisioners[w];
    && (InFlight(s, w) ==> s.row.provisioning == Lease(w, pc.until))
    && (s.row.provisioning.HeldBy(w) ==>
          && (pc == SawAbsent ==> s.sessions == {})
          && (pc.Creating? && pc.landed.None? ==> s.sessions == {})
          && (pc.Creating? && pc.landed.Some? && s.row.state == Pending ==> s.sessions == {pc.landed.value})
          && (pc.Finishing? && s.row.state == Pending ==> |pc.sessions| == 1 && s.sessions == {pc.sessions[0]}))
  }

  /** What each cleanup worker knows while its claim stands. */
  predicate CleanupInv(s: State, w: Worker)
    requires w in s.cleaners
  {
    var pc := s.cleaners[w];
    && (s.row.cleanup == NoCleanup ==> pc.CleanupEnded?)
    && (pc == SawNothing && s.row.cleaning.HeldBy(w) ==> s.sessions == {})
    && (w in s.deleted ==> pc.Deleting? || pc == GivingBack || pc == CleanupEnded(CleanupRetry))
  }

  predicate AtMostOne(sessions: set<Session>) {
    forall x, y :: x in sessions && y in sessions ==> x == y
  }

  predicate Inv(s: State) {
    && RowInv(s.row)
    && AtMostOne(s.sessions)
    && (forall x :: x in s.sessions ==> x < s.next)
    && (forall w :: w in s.provisioners ==> ProvisionInv(s, w))
    && (forall w :: w in s.cleaners ==> CleanupInv(s, w))
    && s.deleted <= s.cleaners.Keys
    && (s.row.state in {Provisioned, Activated} ==> |s.row.recorded| == 1 && s.sessions == {s.row.recorded[0]})
    && (s.row.cleanup == CleanupComplete ==> s.sessions == {})
  }

  lemma InitialInv(s: State)
    requires Initial(s)
    ensures Inv(s)
  {
  }

  lemma ListingOfAtMostOne(observed: seq<Session>, sessions: set<Session>)
    requires Lists(observed, sessions) && AtMostOne(sessions) && observed != []
    ensures |observed| == 1 && sessions == {observed[0]}
  {
    assert forall i :: 0 <= i < |observed| ==> observed[i] in sessions;
    FirstTwoDiffer(observed, sessions);
  }

  lemma FirstTwoDiffer(observed: seq<Session>, sessions: set<Session>)
    requires Lists(observed, sessions)
    ensures |observed| > 1 ==> observed[0] != observed[1]
  {
  }

  /** What a worker learns from a listing holds as long as its claim does. */
  lemma ReconcileInv(s: State, a: Action)
    requires Inv(s) && Enabled(s, a) && a.ReconcileSees?
    ensures Inv(Apply(s, a))
  {
    if a.observed != [] {
      ListingOfAtMostOne(a.observed, s.sessions);
    }
  }

  /** A session appears only when no other exists and no cleanup has begun. */
  lemma CreateLandsInv(s: State, a: Action)
    requires Inv(s) && Enabled(s, a) && a.CreateLands?
    ensures Inv(Apply(s, a))
  {
  }

  lemma TickInv(s: State, a: Action)
    requires Inv(s) && Enabled(s, a) && (a.Tick? || a.ReconcileFails?)
    ensures Inv(Apply(s, a))
  {
  }

  lemma CreateEndsInv(s: State, a: Action)
    requires Inv(s) && Enabled(s, a) && (a.CreateReturns? || a.CreateFails?)
    ensures Inv(Apply(s, a))
  {
  }

  lemma InspectInv(s: State, a: Action)
    requires Inv(s) && Enabled(s, a) && (a.InspectFails? || a.DeleteReturns?)
    ensures Inv(Apply(s, a))
  {
  }

  lemma InspectSeesInv(s: State, a: Action)
    requires Inv(s) && Enabled(s, a) && a.InspectSees?
    ensures Inv(Apply(s, a))
  {
  }

  lemma ClaimInv(s: State, a: Action)
    requires Inv(s) && Enabled(s, a) && a.ProvisionClaim?
    ensures Inv(Apply(s, a))
  {
  }

  lemma ReleaseInv(s: State, a: Action)
    requires Inv(s) && Enabled(s, a) && a.ProvisionRelease?
    ensures Inv(Apply(s, a))
  {
  }

  lemma RenewInv(s: State, a: Action)
    requires Inv(s) && Enabled(s, a) && a.RenewForCreate?
    ensures Inv(Apply(s, a))
  {
  }

  lemma FinishInv(s: State, a: Action)
    requires Inv(s) && Enabled(s, a) && a.ProvisionFinish?
    ensures Inv(Apply(s, a))
  {
  }

  lemma FailInv(s: State, a: Action)
    requires Inv(s) && Enabled(s, a) && a.ProvisionFail?
    ensures Inv(Apply(s, a))
  {
  }

  lemma CleanupClaimInv(s: State, a: Action)
    requires Inv(s) && Enabled(s, a) && a.CleanupClaim?
    ensures Inv(Apply(s, a))
  {
  }

  lemma RenewForDeleteInv(s: State, a: Action)
    requires Inv(s) && Enabled(s, a) && a.RenewForDelete?
    ensures Inv(Apply(s, a))
  {
  }

  lemma DeleteLandsInv(s: State, a: Action)
    requires Inv(s) && Enabled(s, a) && a.DeleteLands?
    ensures Inv(Apply(s, a))
  {
  }

  lemma CleanupReleaseInv(s: State, a: Action)
    requires Inv(s) && Enabled(s, a) && a.CleanupRelease?
    ensures Inv(Apply(s, a))
  {
  }

  lemma CleanupFinishInv(s: State, a: Action)
    requires Inv(s) && Enabled(s, a) && a.CleanupFinish?
    ensures Inv(Apply(s, a))
  {
  }

  lemma CancelInv(s: State, a: Action)
    requires Inv(s) && Enabled(s, a) && (a.OwnerCancels? || a.SetupExpires?)
    ensures Inv(Apply(s, a))
  {
  }

  lemma ActivationInv(s: State, a: Action)
    requires Inv(s) && Enabled(s, a) && (a.ActivationFails? || a.Activates?)
    ensures Inv(Apply(s, a))
  {
  }

  lemma StepInv(s: State, a: Action)
    requires Inv(s) && Enabled(s, a)
    ensures Inv(Apply(s, a))
  {
    hide Inv, Apply;
    match a
    case Tick(_) => TickInv(s, a);
    case ReconcileFails(_, _) => TickInv(s, a);
    case ReconcileSees(_, _) => ReconcileInv(s, a);
    case CreateLands(_) => CreateLandsInv(s, a);
    case CreateReturns(_) => CreateEndsInv(s, a);
    case CreateFails(_, _) => CreateEndsInv(s, a);
    case ProvisionClaim(_, _) => ClaimInv(s, a);
    case RenewForCreate(_, _) => RenewInv(s, a);
    case ProvisionRelease(_) => ReleaseInv(s, a);
    case ProvisionFinish(_, _) => FinishInv(s, a);
    case ProvisionFail(_, _) => FailInv(s, a);
    case CleanupClaim(_, _) => CleanupClaimInv(s, a);
    case RenewForDelete(_, _) => RenewForDeleteInv(s, a);
    case DeleteLands(_) => DeleteLandsInv(s, a);
    case CleanupRelease(_) => CleanupReleaseInv(s, a);
    case CleanupFinish(_, _) => CleanupFinishInv(s, a);
    case InspectFails(_) => InspectInv(s, a);
    case InspectSees(_, _) => InspectSeesInv(s, a);
    case DeleteReturns(_) => InspectInv(s, a);
    case OwnerCancels => CancelInv(s, a);
    case SetupExpires(_) => CancelInv(s, a);
    case ActivationFails(_) => ActivationInv(s, a);
    case Activates => ActivationInv(s, a);
  }

  lemma {:induction false} RunInv(s: State, actions: seq<Action>)
    requires Inv(s) && IsRun(s, actions)
    ensures Inv(After(s, actions))
    decreases |actions|
  {
    hide Inv, Apply, Enabled;
    if actions != [] {
      StepInv(s, actions[0]);
      RunInv(Apply(s, actions[0]), actions[1..]);
    }
  }

  // ----- main results -----

  /** At most one provider session per setup, a provisioned row that records
      exactly the one that exists, no duplicates to quarantine, and no session
      left behind by a completed cleanup. */
  predicate Safe(s: State) {
    && |s.sessions| <= 1
    && (s.row.state in {Provisioned, Activated} ==>
          |s.row.recorded| == 1 && s.sessions == {s.row.recorded[0]})
    && s.row.state != Quarantined
    && (s.row.cleanup == CleanupComplete ==> s.sessions == {})
  }

  lemma InvSafe(s: State)
    requires Inv(s)
    ensures Safe(s)
  {
    if s.sessions != {} {
      var x :| x in s.sessions;
      assert s.sessions == {x};
    }
  }

  /** Safety of every run: any workers, redeliveries, stops and delays. */
  lemma EveryRunIsSafe(s: State, actions: seq<Action>)
    requires Initial(s) && IsRun(s, actions)
    ensures Safe(After(s, actions))
  {
    InitialInv(s);
    RunInv(s, actions);
    InvSafe(After(s, actions));
  }

  /** A cleanup attempt that deleted a session is not the one that completes, and
      an attempt completes only with nothing left to delete. */
  lemma DeletingAttemptNeverCompletes(s: State, actions: seq<Action>, w: Worker)
    requires Initial(s) && IsRun(s, actions) && w in After(s, actions).deleted
    ensures w in After(s, actions).cleaners
    ensures After(s, actions).cleaners[w] != CleanupEnded(CleanupDone)
  {
    InitialInv(s);
    RunInv(s, actions);
  }

  /** Once a cleanup has completed nothing can create a session any more, even
      if the row is cancelled again and its cleanup becomes pending once more. */
  predicate Closed(s: State) {
    s.row.cleanup != NoCleanup && s.row.state in {Failed, Cancelled, Expired}
    && forall w :: w in s.provisioners ==> !InFlight(s, w)
  }

  lemma {:induction false} ClosedRun(s: State, actions: seq<Action>)
    requires Closed(s) && IsRun(s, actions)
    ensures Closed(After(s, actions)) && After(s, actions).sessions <= s.sessions
    decreases |actions|
  {
    if actions != [] {
      ClosedStep(s, actions[0]);
      ClosedRun(Apply(s, actions[0]), actions[1..]);
    }
  }

  lemma ClosedStep(s: State, a: Action)
    requires Closed(s) && Enabled(s, a)
    ensures Closed(Apply(s, a)) && Apply(s, a).sessions <= s.sessions
  {
  }

  lemma NoSessionAfterCleanup(s: State, before: seq<Action>, after: seq<Action>)
    requires Initial(s) && IsRun(s, before) && After(s, before).row.cleanup == CleanupComplete
    requires IsRun(After(s, before), after)
    ensures After(After(s, before), after).sessions == {}
  {
    InitialInv(s);
    RunInv(s, before);
    ClosedRun(After(s, before), after);
  }

  // ----- account deletion -----

  function Deleted(s: State): State {
    s.(row := PrepareAccountDeletion(s.row))
  }

  ghost predicate SafeFromHere(s: State) {
    forall actions :: IsRun(s, actions) ==> Safe(After(s, actions))
  }

  lemma RunOfFour(s: State, a: Action, b: Action, c: Action, d: Action)
    requires Enabled(s, a) && Enabled(Apply(s, a), b) && Enabled(Apply(Apply(s, a), b), c)
    requires Enabled(Apply(Apply(Apply(s, a), b), c), d)
    ensures IsRun(s, [a, b, c, d]) && After(s, [a, b, c, d]) == Apply(Apply(Apply(Apply(s, a), b), c), d)
  {
    hide Apply, Enabled;
    var s1 := Apply(s, a);
    var s2 := Apply(s1, b);
    var s3 := Apply(s2, c);
    assert [a, b, c, d][1..] == [b, c, d] && [b, c, d][1..] == [c, d] && [c, d][1..] == [d] && [d][1..] == [];
    assert IsRun(s3, [d]) && After(s3, [d]) == Apply(s3, d);
    assert IsRun(s2, [c, d]) && After(s2, [c, d]) == Apply(s3, d);
    assert IsRun(s1, [b, c, d]) && After(s1, [b, c, d]) == Apply(s3, d);
  }

  lemma FreshWorker(used: set<Worker>) returns (w: Worker)
    ensures w !in used
  {
    w := 0;
    ghost var left := used;
    while w in used
      invariant forall x :: x in used && x !in left ==> x < w
      invariant left <= used && forall x :: x in left ==> w <= x
      decreases left
    {
      left := left - {w};
      w := w + 1;
    }
  }

  /** A cleanup that finds nothing completes, and leaves the provisioners alone. */
  lemma EmptyCleanup(s: State, c: Worker)
    requires Terminal(s.row) && s.row.provisioning == NoLease && s.row.cleaning == NoLease
    requires s.sessions == {} && c !in s.cleaners
    ensures Enabled(s, CleanupClaim(c, s.now))
    ensures var s1 := Apply(s, CleanupClaim(c, s.now));
            && Enabled(s1, InspectSees(c, []))
            && var s2 := Apply(s1, InspectSees(c, []));
               && Enabled(s2, CleanupFinish(c, s.now))
               && var s3 := Apply(s2, CleanupFinish(c, s.now));
                  && s3.row.cleanup == CleanupComplete && s3.provisioners == s.provisioners && s3.now == s.now
                  && s3.sessions == {} && CleanerAt(s3, c, CleanupEnded(CleanupDone))
  {
    var s1 := Apply(s, CleanupClaim(c, s.now));
    assert CleanerAt(s1, c, Inspecting);
    var s2 := Apply(s1, InspectSees(c, []));
    assert CleanerAt(s2, c, SawNothing);
  }

  lemma LateLanding(s: State, w: Worker)
    requires s.row.cleanup == CleanupComplete && w in s.provisioners && InFlight(s, w)
    ensures Enabled(s, CreateLands(w))
    ensures Apply(s, CreateLands(w)).row == s.row && s.next in Apply(s, CreateLands(w)).sessions
  {
  }

  function OrphanRun(s: State, c: Worker, w: Worker): seq<Action> {
    [CleanupClaim(c, s.now), InspectSees(c, []), CleanupFinish(c, s.now), CreateLands(w)]
  }

  /** The run that leaves an orphan behind: the leases are gone, so a cleanup
      claims the setup, sees nothing and completes; then the creation lands. */
  lemma OrphanIsLeft(s: State, c: Worker, w: Worker)
    requires Terminal(s.row) && s.row.provisioning == NoLease && s.row.cleaning == NoLease
    requires s.sessions == {} && c !in s.cleaners && w in s.provisioners && InFlight(s, w)
    ensures IsRun(s, OrphanRun(s, c, w)) && !Safe(After(s, OrphanRun(s, c, w)))
  {
    hide Apply, Enabled, IsRun, After, CleanerAt;
    EmptyCleanup(s, c);
    var s3 := Apply(Apply(Apply(s, CleanupClaim(c, s.now)), InspectSees(c, [])), CleanupFinish(c, s.now));
    LateLanding(s3, w);
    RunOfFour(s, CleanupClaim(c, s.now), InspectSees(c, []), CleanupFinish(c, s.now), CreateLands(w));
  }

  /** Preparing an account deletion while a creation is in flight is not safe. */
  lemma DeletionOrphans(s: State, w: Worker)
    requires Inv(s) && s.row.state == Pending && w in s.provisioners && InFlight(s, w)
    ensures !SafeFromHere(Deleted(s))
  {
    hide Apply, Enabled, IsRun, After, Safe, OrphanRun;
    var c := FreshWorker(s.cleaners.Keys);
    var s0 := Deleted(s);
    NothingThereYet(s, w);
    OrphanIsLeft(s0, c, w);
  }

  lemma NothingThereYet(s: State, w: Worker)
    requires Inv(s) && s.row.state == Pending && w in s.provisioners && InFlight(s, w)
    ensures s.sessions == {} && Terminal(Deleted(s).row) && InFlight(Deleted(s), w)
    ensures Deleted(s).row.provisioning == NoLease && Deleted(s).row.cleaning == NoLease
  {
    assert ProvisionInv(s, w);
  }

  /** Preparing an account deletion in a reachable state keeps every later run
      safe exactly when no creation that the pending setup allowed is in flight.
      A live provisioning lease is the caller's sign that one may be. */
  lemma DeletionSafeIff(s: State, actions: seq<Action>)
    requires Initial(s) && IsRun(s, actions)
    ensures var t := After(s, actions);
            SafeFromHere(Deleted(t)) <==>
            t.row.state != Pending || forall w :: w in t.provisioners ==> !InFlight(t, w)
    ensures var t := After(s, actions);
            !t.row.provisioning.Live(t.now) ==> SafeFromHere(Deleted(t))
  {
    InitialInv(s);
    RunInv(s, actions);
    var t := After(s, actions);
    if t.row.state == Pending && exists w :: w in t.provisioners && InFlight(t, w) {
      var w :| w in t.provisioners && InFlight(t, w);
      DeletionOrphans(t, w);
    } else {
      DeletionKeepsInv(t);
      forall later | IsRun(Deleted(t), later)
        ensures Safe(After(Deleted(t), later))
      {
        RunInv(Deleted(t), later);
        InvSafe(After(Deleted(t), later));
      }
    }
  }

  lemma DeletionKeepsInv(s: State)
    requires Inv(s)
    requires s.row.state != Pending || forall w :: w in s.provisioners ==> !InFlight(s, w)
    ensures Inv(Deleted(s))
  {
  }

  // ----- progress of the cleanup -----

  /** A terminal setup that no worker holds and no creation can reach. */
  predicate Idle(s: State) {
    && Terminal(s.row) && s.row.provisioning == NoLease && s.row.cleaning == NoLease
  }

  /** One undisturbed attempt that sees sessions deletes the first one listed. */
  function DeletingAttempt(w: Worker, t: Time, observed: seq<Session>): seq<Action> {
    [CleanupClaim(w, t), InspectSees(w, observed), RenewForDelete(w, t), DeleteLands(w),
     DeleteReturns(w), CleanupRelease(w)]
  }

  function CompletingAttempt(w: Worker, t: Time): seq<Action> {
    [CleanupClaim(w, t), InspectSees(w, []), CleanupFinish(w, t)]
  }

  lemma {:induction false} RunConcat(s: State, first: seq<Action>, second: seq<Action>)
    requires IsRun(s, first) && IsRun(After(s, first), second)
    ensures IsRun(s, first + second) && After(s, first + second) == After(After(s, first), second)
    decreases |first|
  {
    hide Apply, Enabled;
    if first == [] {
      assert first + second == second;
    } else {
      RunConcat(Apply(s, first[0]), first[1..], second);
      assert (first + second)[1..] == first[1..] + second;
    }
  }

  lemma {:induction false} RunByStates(actions: seq<Action>, states: seq<State>)
    requires |states| == |actions| + 1
    requires forall i :: 0 <= i < |actions| ==>
               Enabled(states[i], actions[i]) && Apply(states[i], actions[i]) == states[i + 1]
    ensures IsRun(states[0], actions) && After(states[0], actions) == states[|actions|]
    decreases |actions|
  {
    hide Apply, Enabled;
    if actions != [] {
      var tail, rest := actions[1..], states[1..];
      assert forall i :: 0 <= i < |tail| ==> tail[i] == actions[i + 1] && rest[i] == states[i + 1];
      RunByStates(tail, rest);
    }
  }

  /** Claim, see nothing, renew: the creation is on its way. */
  function StartingCreation(w: Worker, t: Time): seq<Action> {
    [ProvisionClaim(w, t), ReconcileSees(w, []), RenewForCreate(w, t)]
  }

  /** The unsafe moment is reached from every fresh setup: after these three steps
      an account deletion is followed by a run that leaves a session behind. */
  lemma DeletionOrphanIsReached(s: State, w: Worker)
    requires Initial(s) && s.now < s.row.expiresAt
    ensures var run := StartingCreation(w, s.now);
            && IsRun(s, run)
            && var t := After(s, run);
               t.row.state == Pending && InFlight(t, w) && !SafeFromHere(Deleted(t))
  {
    var run := StartingCreation(w, s.now);
    CreationStarts(s, w);
    InitialInv(s);
    RunInv(s, run);
    hide IsRun, After, Inv, SafeFromHere;
    DeletionOrphans(After(s, run), w);
  }

  lemma CreationStarts(s: State, w: Worker)
    requires Initial(s) && s.now < s.row.expiresAt
    ensures var run := StartingCreation(w, s.now);
            && IsRun(s, run)
            && var t := After(s, run); t.row.state == Pending && w in t.provisioners && InFlight(t, w)
  {
    var run := StartingCreation(w, s.now);
    var s1 := Apply(s, run[0]);
    assert At(s1, w, Reconciling);
    var s2 := Apply(s1, run[1]);
    assert At(s2, w, SawAbsent) && s2.row == s1.row && s2.now == s.now;
    RunByStates(run, [s, s1, s2, Apply(s2, run[2])]);
  }

  /** Undisturbed, an attempt removes the session its listing put first and gives
      the claim back, whatever the order of the listing. */
  lemma DeletingAttemptProgress(s: State, w: Worker, observed: seq<Session>)
    requires Idle(s) && w !in s.cleaners && Lists(observed, s.sessions) && observed != []
    ensures var run := DeletingAttempt(w, s.now, observed);
            && IsRun(s, run)
            && var t := After(s, run);
               && Idle(t) && t.now == s.now && t.cleaners == s.cleaners[w := CleanupEnded(CleanupRetry)]
               && t.sessions == s.sessions - {observed[0]} && |t.sessions| == |s.sessions| - 1
  {
    hide IsRun, After, Apply, Enabled;
    var a := DeletingAttempt(w, s.now, observed);
    var s1, s2, s3 := StepsToDelete(s, w, observed);
    var s4, s5, s6 := StepsBackToIdle(s3, w);
    assert observed[0] in s.sessions;
    assert s6.cleaners == s.cleaners[w := CleanupEnded(CleanupRetry)];
    RunByStates(a, [s, s1, s2, s3, s4, s5, s6]);
  }

  lemma StepsToDelete(s: State, w: Worker, observed: seq<Session>) returns (s1: State, s2: State, s3: State)
    requires Idle(s) && w !in s.cleaners && Lists(observed, s.sessions) && observed != []
    ensures Enabled(s, CleanupClaim(w, s.now)) && s1 == Apply(s, CleanupClaim(w, s.now))
    ensures Enabled(s1, InspectSees(w, observed)) && s2 == Apply(s1, InspectSees(w, observed))
    ensures Enabled(s2, RenewForDelete(w, s.now)) && s3 == Apply(s2, RenewForDelete(w, s.now))
    ensures s3 == s.(row := s.row.(cleaning := Lease(w, s.now + LEASE)),
                     cleaners := s.cleaners[w := Deleting(observed[0])])
  {
    s1 := Apply(s, CleanupClaim(w, s.now));
    s2 := Apply(s1, InspectSees(w, observed));
    s3 := Apply(s2, RenewForDelete(w, s.now));
  }

  lemma StepsBackToIdle(s: State, w: Worker) returns (s1: State, s2: State, s3: State)
    requires Terminal(s.row) && s.row.cleaning.HeldBy(w) && w in s.cleaners && s.cleaners[w].Deleting?
    ensures Enabled(s, DeleteLands(w)) && s1 == Apply(s, DeleteLands(w))
    ensures Enabled(s1, DeleteReturns(w)) && s2 == Apply(s1, DeleteReturns(w))
    ensures Enabled(s2, CleanupRelease(w)) && s3 == Apply(s2, CleanupRelease(w))
    ensures s3 == s.(row := s.row.(cleaning := NoLease), sessions := s.sessions - {s.cleaners[w].target},
                     deleted := s.deleted + {w}, cleaners := s.cleaners[w := CleanupEnded(CleanupRetry)])
  {
    s1 := Apply(s, DeleteLands(w));
    s2 := Apply(s1, DeleteReturns(w));
    s3 := Apply(s2, CleanupRelease(w));
  }

  lemma CompletingAttemptProgress(s: State, w: Worker)
    requires Idle(s) && w !in s.cleaners && s.sessions == {}
    ensures var run := CompletingAttempt(w, s.now);
            && IsRun(s, run)
            && var t := After(s, run);
               t.row.cleanup == CleanupComplete && t.sessions == {} && CleanerAt(t, w, CleanupEnded(CleanupDone))
  {
    EmptyCleanup(s, w);
    hide IsRun, After, Apply, Enabled;
    var a := CompletingAttempt(w, s.now);
    var s1 := Apply(s, a[0]);
    var s2 := Apply(s1, a[1]);
    RunByStates(a, [s, s1, s2, Apply(s2, a[2])]);
  }

  /** The session count is the termination measure: with k sessions and no new
      one, k deleting attempts and one more complete the cleanup. */
  lemma {:induction false} CleanupDrains(s: State) returns (run: seq<Action>)
    requires Idle(s)
    ensures IsRun(s, run) && |run| == 6 * |s.sessions| + 3
    ensures After(s, run).row.cleanup == CleanupComplete && After(s, run).sessions == {}
    decreases |s.sessions|
  {
    hide Apply, Enabled, IsRun, After;
    var w := FreshWorker(s.cleaners.Keys);
    if s.sessions == {} {
      CompletingAttemptProgress(s, w);
      run := CompletingAttempt(w, s.now);
    } else {
      var observed := SomeListing(s.sessions);
      DeletingAttemptProgress(s, w, observed);
      var first := DeletingAttempt(w, s.now, observed);
      var second := CleanupDrains(After(s, first));
      RunConcat(s, first, second);
      run := first + second;
    }
  }

  lemma {:induction false} SomeListing(sessions: set<Session>) returns (observed: seq<Session>)
    ensures Lists(observed, sessions) && (sessions != {} ==> observed != [])
    decreases |sessions|
  {
    if sessions == {} {
      observed := [];
    } else {
      var x :| x in sessions;
      var rest := SomeListing(sessions - {x});
      observed := [x] + rest;
      assert forall y :: y in observed <==> y == x || y in rest;
      assert forall y :: y in rest <==> y in sessions - {x};
      assert forall i :: 0 <= i < |rest| ==> observed[i + 1] == rest[i] && rest[i] in rest;
    }
  }
}
