/** The Connection Setup row and the stored functions that the workers call on
    it, in the form the latest migration leaves them. Every function reads the
    time its caller passes, never a clock of its own. */
module SetupRow {
  type Worker = nat
  type Session = nat
  type Time = nat

  const LEASE := 120

  datatype SetupState =
    | Pending | Provisioned | Quarantined | Failed | Activated | Cancelled | Expired

  datatype Cleanup = NoCleanup | CleanupPending | CleanupComplete

  datatype Lease = NoLease | Lease(owner: Worker, expiresAt: Time) {
    predicate Live(t: Time) {
      Lease? && t < expiresAt
    }

    predicate HeldBy(w: Worker) {
      Lease? && owner == w
    }
  }

  datatype Row = Row(
    state: SetupState, expiresAt: Time, provisioning: Lease,
    cleanup: Cleanup, cleaning: Lease, recorded: seq<Session>)

  datatype ClaimOutcome = Claimed | Leased | Complete | Ignored

  // ----- provisioning -----

  function ClaimProvisioning(row: Row, w: Worker, t: Time): (Row, ClaimOutcome) {
    if row.state != Pending || row.expiresAt <= t then (row, Ignored)
    else if row.provisioning.Live(t) then (row, Leased)
    else (row.(provisioning := Lease(w, t + LEASE)), Claimed)
  }

  function RenewProvisioning(row: Row, w: Worker, t: Time): (Row, bool) {
    if row.state == Pending && t < row.expiresAt && row.provisioning.HeldBy(w) && row.provisioning.Live(t)
    then (row.(provisioning := Lease(w, t + LEASE)), true)
    else (row, false)
  }

  function ReleaseProvisioning(row: Row, w: Worker): Row {
    if row.state == Pending && row.provisioning.HeldBy(w) then row.(provisioning := NoLease) else row
  }

  function FailProvisioning(row: Row, w: Worker, t: Time): (Row, bool) {
    if row.state == Pending && row.provisioning.HeldBy(w) && row.provisioning.Live(t)
    then (row.(state := Failed, provisioning := NoLease), true)
    else (row, false)
  }

  function FinishProvisioning(row: Row, w: Worker, t: Time, sessions: seq<Session>): (Row, bool) {
    if row.state == Pending && row.provisioning.HeldBy(w) && row.provisioning.Live(t)
    then (row.(state := if |sessions| == 1 then Provisioned else Quarantined,
               provisioning := NoLease, recorded := sessions), true)
    else (row, false)
  }

  // ----- cleanup -----

  function ClaimCleanup(row: Row, w: Worker, t: Time): (Row, ClaimOutcome) {
    if row.cleanup == NoCleanup then (row, Ignored)
    else if row.cleanup == CleanupComplete then (row, Complete)
    else if row.provisioning.Live(t) || row.cleaning.Live(t) then (row, Leased)
    else (row.(provisioning := NoLease, cleaning := Lease(w, t + LEASE)), Claimed)
  }

  predicate Terminal(row: Row) {
    row.state in {Cancelled, Expired, Failed} && row.cleanup == CleanupPending
  }

  function RenewCleanup(row: Row, w: Worker, t: Time): (Row, bool) {
    if Terminal(row) && row.cleaning.HeldBy(w) && row.cleaning.Live(t)
    then (row.(cleaning := Lease(w, t + LEASE)), true)
    else (row, false)
  }

  function ReleaseCleanup(row: Row, w: Worker): Row {
    if Terminal(row) && row.cleaning.HeldBy(w) then row.(cleaning := NoLease) else row
  }

  function FinishCleanup(row: Row, w: Worker, t: Time): (Row, bool) {
    if Terminal(row) && row.cleaning.HeldBy(w) && row.cleaning.Live(t)
    then (row.(cleanup := CleanupComplete, cleaning := NoLease, provisioning := NoLease, recorded := []), true)
    else (row, false)
  }

  // ----- the account owner and the sweeps -----

  function Cancel(row: Row): Row {
    if row.state in {Activated, Cancelled, Expired} then row
    else row.(state := Cancelled, cleanup := CleanupPending)
  }

  function Expire(row: Row, t: Time): Row {
    if row.state in {Activated, Cancelled, Expired} || t < row.expiresAt then row
    else row.(state := Expired, cleanup := CleanupPending)
  }

  function FailActivation(row: Row, t: Time): Row {
    if row.state == Failed then row.(cleanup := CleanupPending)
    else if row.state == Provisioned && t < row.expiresAt && row.recorded != []
    then row.(state := Failed, cleanup := CleanupPending, provisioning := NoLease, cleaning := NoLease)
    else row
  }

  function Activate(row: Row): Row {
    if row.state == Provisioned then row.(state := Activated) else row
  }

  /** What preparing the deletion of the personal account does to its setups:
      unlike a cancellation, it takes the leases away. */
  function PrepareAccountDeletion(row: Row): Row {
    if row.state in {Activated, Cancelled, Expired} then row
    else row.(state := Cancelled, cleanup := CleanupPending, cleaning := NoLease, provisioning := NoLease)
  }
}
