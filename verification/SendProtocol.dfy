/** All `send` calls that share one grant and idempotency key, as a protocol: any
    number of calls, every interleaving, calls that stop anywhere, lost replies of
    the database, what webhooks later observe, and the rows going away. A call's
    own id serves as its send id. */
module SendProtocol {
  import opened Options

  type Call = nat
  type Connection = nat
  type Time = nat

  const BINDING_LIFE := 90 * 86_400
  const DISPATCH_LEASE := 45

  datatype Status = Processing | Accepted | Sent | Delivered | Read | Failed | Unknown

  /** A send operation together with the binding that ties it to the key: they are
      inserted by one statement and deleted by one cascade. `identified`: the
      provider's message identity has been recorded. */
  datatype Operation = Operation(
    call: Call, connection: Connection, fingerprint: nat, status: Status, identified: bool,
    leaseExpiresAt: Time, expiresAt: Time)

  datatype Reply =
    | Receipt(of: Call, status: Status, replay: bool)
    | IdempotencyConflict
    | Refused
    | ServiceUnavailable

  /** The single provider attempt of a call. */
  datatype Attempt =
    | NoAttempt
    | Ready
    | Started
    | Calling
    | Recording(status: Status, identified: bool)
    | Over

  datatype CallState = CallState(connection: Connection, fingerprint: nat, attempt: Attempt, reply: Option<Reply>)

  /** When a creating commit took effect, the time its call had observed, and the
      connection it sends from. */
  datatype Creation = Creation(committedAt: Time, observedAt: Time, connection: Connection)

  /** How an operation and its binding went: purged when expired, or dropped with
      their connection. */
  datatype Release = Purged(at: Time) | Dropped(at: Time)

  datatype State = State(
    now: Time, stored: Option<Operation>, gone: set<Connection>, calls: map<Call, CallState>,
    created: map<Call, Creation>, released: map<Call, Release>, attempts: seq<Call>)

  datatype Action =
    | Tick(later: Time)
    | Begin(c: Call, connection: Connection, fingerprint: nat)
    | Commit(c: Call, observedAt: Time)
    | CommitRefuses(c: Call)
    | CommitThrows(c: Call)
    | CommitReplyLost(c: Call, observedAt: Time)
    | StartAttempt(c: Call)
    | DeferAccepts(c: Call)
    | PreparationFails(c: Call)
    | CallProvider(c: Call)
    | ProviderAnswers(c: Call, status: Status, identified: bool)
    | Record(c: Call, changedAt: Time)
    | RecordReplyLost(c: Call, changedAt: Time)
    | RecordThrows(c: Call)
    | StoringThrows(c: Call)
    | LeasesExpire(observedAt: Time)
    | StatusObserved(status: Status, receivedAt: Time)
    | MessageEchoed(receivedAt: Time)
    | OperationPurged(c: Call)
    | ConnectionDeleted(connection: Connection)

  predicate InAttempt(s: State, c: Call, a: Attempt) {
    c in s.calls && s.calls[c].attempt == a
  }

  predicate Waiting(s: State, c: Call) {
    InAttempt(s, c, NoAttempt) && s.calls[c].reply.None?
  }

  predicate IsRecording(s: State, c: Call) {
    c in s.calls && s.calls[c].attempt.Recording?
  }

  /** The operation of this call is still stored. */
  predicate Holds(s: State, c: Call) {
    s.stored.Some? && s.stored.value.call == c
  }

  /** `IdentityBearingSendStatus`: the statuses that come with an identity. */
  predicate BearsIdentity(status: Status) {
    status in {Accepted, Sent, Delivered, Read}
  }

  type IdentityBearing = status: Status | BearsIdentity(status) witness Accepted

  /** The statuses a webhook reports: those, and failure. */
  predicate IsObservable(status: Status) {
    BearsIdentity(status) || status == Failed
  }

  predicate Enabled(s: State, a: Action) {
    match a
    case Tick(later) => s.now <= later
    case Begin(c, _, _) => c !in s.calls
    case Commit(c, t) => Waiting(s, c) && t <= s.now
    case CommitRefuses(c) => Waiting(s, c)
    case CommitThrows(c) => Waiting(s, c)
    case CommitReplyLost(c, t) => Waiting(s, c) && t <= s.now
    case StartAttempt(c) => InAttempt(s, c, Ready)
    case DeferAccepts(c) => c in s.calls && s.calls[c].attempt !in {NoAttempt, Ready} && s.calls[c].reply.None?
    case PreparationFails(c) => InAttempt(s, c, Started)
    case CallProvider(c) => InAttempt(s, c, Started)
    case ProviderAnswers(c, status, identified) =>
      InAttempt(s, c, Calling) && status != Processing && (identified ==> BearsIdentity(status))
    case Record(c, t) => IsRecording(s, c) && t <= s.now
    case RecordReplyLost(c, t) => IsRecording(s, c) && t <= s.now
    case RecordThrows(c) => IsRecording(s, c)
    case StoringThrows(c) => IsRecording(s, c)
    case LeasesExpire(t) => t <= s.now
    case StatusObserved(status, t) => t <= s.now && IsObservable(status)
    case MessageEchoed(t) => t <= s.now
    case OperationPurged(c) => Holds(s, c) && s.stored.value.expiresAt <= s.now
    case ConnectionDeleted(k) => k !in s.gone
  }

  /** A processing operation whose lease has run out counts as unknown. */
  function Expired(op: Operation, t: Time): Operation {
    if op.status == Processing && op.leaseExpiresAt <= t then op.(status := Unknown) else op
  }

  function Rank(status: Status): nat {
    match status
    case Accepted => 1
    case Sent => 2
    case Delivered => 3
    case Read => 4
    case _ => 0
  }

  /** The condition of the update in `projectSendEvidence`. */
  predicate Supersedes(evidence: Status, status: Status) {
    || status == Unknown
    || (evidence == Failed && status in {Processing, Accepted, Sent})
    || (evidence != Failed && (status == Failed || Rank(evidence) > Rank(status)))
  }

  /** A webhook finds the operation by its message identity, until it expires. */
  predicate Correlates(op: Operation, t: Time) {
    op.identified && t < op.expiresAt
  }

  function Observed(op: Operation, evidence: Status, t: Time): Operation {
    if Correlates(op, t) && Supersedes(evidence, op.status) then op.(status := evidence) else op
  }

  /** An outgoing message seen in the conversation. */
  function Echoed(op: Operation, t: Time): Operation {
    if Correlates(op, t) && op.status in {Processing, Accepted, Failed, Unknown} then op.(status := Sent) else op
  }

  function Answer(s: State, c: Call, reply: Reply): State
    requires c in s.calls
  {
    s.(calls := s.calls[c := s.calls[c].(reply := Some(reply))])
  }

  /** The first reply stands: a deferred attempt replies to nobody. */
  function AnswerIfOpen(s: State, c: Call, reply: Reply): State
    requires c in s.calls
  {
    if s.calls[c].reply.None? then Answer(s, c, reply) else s
  }

  function Advance(s: State, c: Call, a: Attempt): State
    requires c in s.calls
  {
    s.(calls := s.calls[c := s.calls[c].(attempt := a)])
  }

  /** The commit transaction: the connection must be there; a binding that has
      expired but is still stored makes the insert fail. */
  function Committed(s: State, c: Call, t: Time): State
    requires c in s.calls
  {
    var call := s.calls[c];
    if call.connection in s.gone then Answer(s, c, Refused)
    else if s.stored.None? then
      Advance(s.(stored := Some(Operation(c, call.connection, call.fingerprint, Processing, false,
                                          s.now + DISPATCH_LEASE, t + BINDING_LIFE)),
                 created := s.created[c := Creation(s.now, t, call.connection)]), c, Ready)
    else if s.stored.value.expiresAt <= t then Answer(s, c, ServiceUnavailable)
    else
      var op := Expired(s.stored.value, t);
      Answer(s.(stored := Some(op)), c,
             if op.fingerprint == call.fingerprint then Receipt(op.call, op.status, true) else IdempotencyConflict)
  }

  /** `recordProviderOutcome`. */
  function Recorded(s: State, c: Call, t: Time): State
    requires IsRecording(s, c)
  {
    if !Holds(s, c) then s
    else
      var op, outcome := s.stored.value, s.calls[c].attempt;
      s.(stored := Some(
           if op.status == Processing && t < op.leaseExpiresAt
           then op.(status := outcome.status, identified := outcome.identified)
           else Expired(op, t)))
  }

  function OnStored(s: State, op: Operation -> Operation): State {
    if s.stored.Some? then s.(stored := Some(op(s.stored.value))) else s
  }

  function Released(s: State, release: Release): State
    requires s.stored.Some?
  {
    s.(stored := None, released := s.released[s.stored.value.call := release])
  }

  function Apply(s: State, a: Action): State
    requires Enabled(s, a)
  {
    match a
    case Tick(later) => s.(now := later)
    case Begin(c, connection, fingerprint) =>
      s.(calls := s.calls[c := CallState(connection, fingerprint, NoAttempt, None)])
    case Commit(c, t) => Committed(s, c, t)
    case CommitRefuses(c) => Answer(s, c, Refused)
    case CommitThrows(c) => Answer(s, c, ServiceUnavailable)
    case CommitReplyLost(c, t) =>
      // the transaction took effect, the call sees an exception and gives up
      var after := Committed(s, c, t);
      Answer(Advance(after, c, NoAttempt), c, ServiceUnavailable)
    case StartAttempt(c) => Advance(s, c, Started)
    case DeferAccepts(c) => Answer(s, c, Receipt(c, Processing, false))
    case PreparationFails(c) => Advance(s, c, Recording(Unknown, false))
    case CallProvider(c) => Advance(s.(attempts := s.attempts + [c]), c, Calling)
    case ProviderAnswers(c, status, identified) => Advance(s, c, Recording(status, identified))
    case Record(c, t) =>
      var after := Recorded(s, c, t);
      AnswerIfOpen(Advance(after, c, Over), c,
                   Receipt(c, if Holds(after, c) then after.stored.value.status else Processing, false))
    case RecordReplyLost(c, t) =>
      AnswerIfOpen(Advance(Recorded(s, c, t), c, Over), c, Receipt(c, Processing, false))
    case RecordThrows(c) => AnswerIfOpen(Advance(s, c, Over), c, Receipt(c, Processing, false))
    case StoringThrows(c) => AnswerIfOpen(Advance(s, c, Over), c, ServiceUnavailable)
    case LeasesExpire(t) => OnStored(s, op => Expired(op, t))
    case StatusObserved(status, t) => OnStored(s, op => Observed(op, status, t))
    case MessageEchoed(t) => OnStored(s, op => Echoed(op, t))
    case OperationPurged(_) => Released(s, Purged(s.now))
    case ConnectionDeleted(k) =>
      var after := s.(gone := s.gone + {k});
      if s.stored.Some? && s.stored.value.connection == k then Released(after, Dropped(s.now)) else after
  }

  predicate IsRun(s: State, actions: seq<Action>)
    decreases |actions|
  {
    actions == [] || (Enabled(s, actions[0]) && IsRun(Apply(s, actions[0]), actions[1..]))
  }

  function After(s: State, actions: seq<Action>): State
    requires IsRun(s, actions)
    decreases |actions|
  {
    if actions == [] then s else After(Apply(s, actions[0]), actions[1..])
  }

  predicate Initial(s: State) {
    s.stored.None? && s.calls == map[] && s.created == map[] && s.released == map[] && s.attempts == []
  }

  lemma {:induction false} RunConcat(s: State, first: seq<Action>, second: seq<Action>)
    requires IsRun(s, first) && IsRun(After(s, first), second)
    ensures IsRun(s, first + second) && After(s, first + second) == After(After(s, first), second)
    decreases |first|
  {
    hide Apply, Enabled;
    if first == [] {
      assert first + second == second;
    } else {
      RunConcat(Apply(s, first[0]), first[1..], second);
      assert (first + second)[1..] == first[1..] + second;
    }
  }

  // ----- the invariant -----

  /** What a call's stage says about its creation and its attempt. */
  predicate CallInv(s: State, c: Call)
    requires c in s.calls
  {
    var call := s.calls[c];
    && (call.attempt != NoAttempt ==> c in s.created)
    && (call.attempt in {NoAttempt, Ready, Started} ==> c !in s.attempts)
    && (call.attempt == Ready ==> call.reply.None?)
    && (call.attempt.Recording? ==> call.attempt.status != Processing)
    && (call.attempt.Recording? && call.attempt.identified ==> BearsIdentity(call.attempt.status))
    && (call.reply.Some? && call.reply.value.Receipt? && call.reply.value.replay ==> call.attempt == NoAttempt)
    && (c in s.created && call.attempt == NoAttempt ==> call.reply == Some(ServiceUnavailable))
    && (call.reply.Some? && call.reply.value in {Refused, IdempotencyConflict} ==> call.attempt == NoAttempt)
  }

  /** The stored operation is that of a creation not released, on a connection
      that is still there; an identity comes only with statuses that bear one. */
  predicate StoredInv(s: State) {
    s.stored.Some? ==>
      var op := s.stored.value;
      && op.call in s.created && op.call !in s.released
      && op.connection == s.created[op.call].connection && op.connection !in s.gone
      && op.expiresAt == s.created[op.call].observedAt + BINDING_LIFE
      && (op.identified ==> IsObservable(op.status))
  }

  /** The operation of `first` had gone before that of `second` was created. */
  predicate Apart(s: State, first: Call, second: Call)
    requires second in s.created
  {
    first in s.released && s.released[first].at <= s.created[second].committedAt
  }

  /** Every creation is stored or was released. */
  predicate CreatedInv(s: State) {
    forall c :: c in s.created ==>
      c in s.calls && s.created[c].committedAt <= s.now && (c in s.released || Holds(s, c))
  }

  /** Every release has one of the two reasons. */
  predicate ReleasedInv(s: State) {
    forall c :: c in s.released ==>
      && c in s.created && s.created[c].committedAt <= s.released[c].at <= s.now
      && (s.released[c].Purged? ==> s.created[c].observedAt + BINDING_LIFE <= s.released[c].at)
      && (s.released[c].Dropped? ==> s.created[c].connection in s.gone)
  }

  predicate OrderInv(s: State) {
    forall c, d :: c in s.created && d in s.created && c != d ==> Apart(s, c, d) || Apart(s, d, c)
  }

  predicate CreationInv(s: State) {
    CreatedInv(s) && ReleasedInv(s) && OrderInv(s)
  }

  predicate AttemptInv(s: State) {
    && (forall i :: 0 <= i < |s.attempts| ==> s.attempts[i] in s.created)
    && (forall i, j :: 0 <= i < j < |s.attempts| ==> s.attempts[i] != s.attempts[j])
  }

  predicate Inv(s: State) {
    && StoredInv(s) && CreationInv(s) && AttemptInv(s)
    && forall c :: c in s.calls ==> CallInv(s, c)
  }

  lemma CommitCreates(s: State, c: Call, t: Time)
    requires CreationInv(s) && StoredInv(s) && c in s.calls && c !in s.created && t <= s.now
    ensures CreationInv(Committed(s, c, t)) && StoredInv(Committed(s, c, t))
  {
    hide OrderInv;
    var u := Committed(s, c, t);
    if u.created != s.created {
      FreshIsApart(s, c, t);
    } else {
      hide Committed;
      CommittedSame(s, c, t);
      CreationFrame(s, u);
    }
  }

  lemma CommittedSame(s: State, c: Call, t: Time)
    requires c in s.calls && c !in s.created && Committed(s, c, t).created == s.created
    ensures SameCreations(s, Committed(s, c, t))
  {
  }

  /** All earlier operations are gone when another is created. */
  lemma FreshIsApart(s: State, c: Call, t: Time)
    requires CreationInv(s) && c in s.calls && c !in s.created && Committed(s, c, t).created != s.created
    ensures OrderInv(Committed(s, c, t))
  {
    var u := Committed(s, c, t);
    forall d, e | d in u.created && e in u.created && d != e ensures Apart(u, d, e) || Apart(u, e, d) {
      if d != c && e != c {
        KeepsApart(s, u, d, e);
      } else {
        assert (if d == c then e else d) in s.released;
      }
    }
  }

  lemma KeepsApart(s: State, u: State, d: Call, e: Call)
    requires OrderInv(s) && d in s.created && e in s.created && d != e
    requires forall c :: c in s.created ==> c in u.created && u.created[c] == s.created[c]
    requires forall c :: c in s.released ==> c in u.released && u.released[c] == s.released[c]
    ensures Apart(u, d, e) || Apart(u, e, d)
  {
    assert Apart(s, d, e) || Apart(s, e, d);
  }

  lemma ReleaseKeeps(s: State, a: Action)
    requires CreationInv(s) && StoredInv(s) && Enabled(s, a) && (a.OperationPurged? || a.ConnectionDeleted?)
    ensures CreationInv(Apply(s, a)) && StoredInv(Apply(s, a))
  {
    ReleaseKeepsOrder(s, a);
    hide OrderInv;
    assert CreatedInv(Apply(s, a)) by { hide ReleasedInv, StoredInv; }
  }

  lemma ReleaseKeepsOrder(s: State, a: Action)
    requires OrderInv(s) && StoredInv(s) && Enabled(s, a) && (a.OperationPurged? || a.ConnectionDeleted?)
    ensures OrderInv(Apply(s, a))
  {
    var u := Apply(s, a);
    forall d, e | d in u.created && e in u.created && d != e ensures Apart(u, d, e) || Apart(u, e, d) {
      KeepsApart(s, u, d, e);
    }
  }

  /** All the other steps leave the creations alone, and the operation in place. */
  predicate SameCreations(s: State, t: State) {
    && t.created == s.created && t.released == s.released && t.gone == s.gone
    && t.calls.Keys >= s.calls.Keys && s.now <= t.now
    && (t.stored.Some? <==> s.stored.Some?)
    && (s.stored.Some? ==> SameOperation(s.stored.value, t.stored.value))
  }

  predicate SameOperation(op: Operation, later: Operation) {
    && later.call == op.call && later.connection == op.connection && later.fingerprint == op.fingerprint
    && later.expiresAt == op.expiresAt
    && ((op.identified ==> IsObservable(op.status)) ==> later.identified ==> IsObservable(later.status))
  }

  lemma CreationFrame(s: State, t: State)
    requires CreationInv(s) && StoredInv(s) && SameCreations(s, t)
    ensures CreationInv(t) && StoredInv(t)
  {
  }

  lemma StepFrame(s: State, a: Action)
    requires Enabled(s, a) && !a.OperationPurged? && !a.ConnectionDeleted?
    requires forall c :: c in s.calls ==> CallInv(s, c)
    ensures !a.Commit? && !a.CommitReplyLost? ==> SameCreations(s, Apply(s, a))
    ensures a.Commit? || a.CommitReplyLost? ==> SameCreations(Committed(s, a.c, a.observedAt), Apply(s, a))
  {
    hide Committed, Recorded, CallInv;
    if a.Record? || a.RecordReplyLost? { RecordedFrame(s, a.c, a.changedAt); }
  }

  lemma RecordedFrame(s: State, c: Call, t: Time)
    requires IsRecording(s, c) && CallInv(s, c)
    ensures SameCreations(s, Recorded(s, c, t)) && Recorded(s, c, t).calls == s.calls
  {
  }

  lemma CreationStep(s: State, a: Action)
    requires Inv(s) && Enabled(s, a)
    ensures CreationInv(Apply(s, a)) && StoredInv(Apply(s, a))
  {
    hide AttemptInv, Committed, CreationInv, StoredInv, Apply, SameCreations;
    if a.OperationPurged? || a.ConnectionDeleted? {
      ReleaseKeeps(s, a);
    } else if a.Commit? || a.CommitReplyLost? {
      StepFrame(s, a);
      assert CallInv(s, a.c);
      CommitCreates(s, a.c, a.observedAt);
      CreationFrame(Committed(s, a.c, a.observedAt), Apply(s, a));
    } else {
      StepFrame(s, a);
      CreationFrame(s, Apply(s, a));
    }
  }

  lemma AttemptStep(s: State, a: Action)
    requires Inv(s) && Enabled(s, a)
    ensures AttemptInv(Apply(s, a))
  {
    hide CreationInv, StoredInv, CallInv, Apply, Enabled;
    CreatedGrows(s, a);
    AttemptsOnly(s, a);
    if a.CallProvider? { StartedIsNew(s, a.c); }
  }

  lemma StartedIsNew(s: State, c: Call)
    requires Enabled(s, CallProvider(c)) && (forall d :: d in s.calls ==> CallInv(s, d))
    ensures c in s.created && c !in s.attempts
  {
    assert CallInv(s, c);
  }

  lemma AttemptsOnly(s: State, a: Action)
    requires Enabled(s, a)
    ensures Apply(s, a).attempts == if a.CallProvider? then s.attempts + [a.c] else s.attempts
  {
    hide Committed, Recorded;
    if a.Commit? || a.CommitReplyLost? { CommittedGrows(s, a.c, a.observedAt); }
    if a.Record? || a.RecordReplyLost? { RecordedLeaves(s, a.c, a.changedAt); }
  }

  /** A commit creates for its own call at most. */
  lemma CommittedGrows(s: State, c: Call, t: Time)
    requires c in s.calls
    ensures var u := Committed(s, c, t);
            && u.attempts == s.attempts && c in u.calls
            && (u.created == s.created || (s.stored.None? && u.created == s.created[c := u.created[c]] && c in u.created))
  {
  }

  lemma CommitTouchesOnly(s: State, d: Call, t: Time, c: Call)
    requires d in s.calls && c in s.calls && c != d
    ensures var after := Committed(s, d, t);
            && c in after.calls && after.calls[c] == s.calls[c] && d in after.calls
            && (c in after.created <==> c in s.created) && after.attempts == s.attempts
  {
  }

  /** The step leaves the other calls and their creations and attempts alone. */
  lemma OthersUntouched(s: State, a: Action, c: Call)
    requires Inv(s) && Enabled(s, a) && c in s.calls && !By(a, c)
    ensures var t := Apply(s, a);
            && c in t.calls && t.calls[c] == s.calls[c]
            && (c in t.created <==> c in s.created) && (c in t.attempts <==> c in s.attempts)
  {
    hide Inv, Committed, Expired, Observed, Echoed;
    if a.Commit? || a.CommitReplyLost? {
      CommitTouchesOnly(s, a.c, a.observedAt, c);
    }
  }

  predicate By(a: Action, c: Call) {
    match a
    case Begin(d, _, _) => d == c
    case Commit(d, _) => d == c
    case CommitRefuses(d) => d == c
    case CommitThrows(d) => d == c
    case CommitReplyLost(d, _) => d == c
    case StartAttempt(d) => d == c
    case DeferAccepts(d) => d == c
    case PreparationFails(d) => d == c
    case CallProvider(d) => d == c
    case ProviderAnswers(d, _, _) => d == c
    case Record(d, _) => d == c
    case RecordReplyLost(d, _) => d == c
    case RecordThrows(d) => d == c
    case StoringThrows(d) => d == c
    case _ => false
  }

  lemma OwnStep(s: State, a: Action, c: Call)
    requires Inv(s) && Enabled(s, a) && By(a, c)
    ensures c in Apply(s, a).calls && CallInv(Apply(s, a), c)
  {
    hide CreationInv, StoredInv, AttemptInv, CallInv, Apply;
    CreatedAreCalls(s, c);
    if c in s.attempts { AttemptsAreCreated(s, c); }
    if c in s.calls { assert CallInv(s, c); }
    if a.Commit? || a.CommitReplyLost? {
      OwnCommit(s, a);
    } else {
      OwnOther(s, a, c);
    }
  }

  lemma OwnCommit(s: State, a: Action)
    requires Enabled(s, a) && (a.Commit? || a.CommitReplyLost?) && CallInv(s, a.c)
    ensures a.c in Apply(s, a).calls && CallInv(Apply(s, a), a.c)
  {
    hide Committed;
    CommittedCall(s, a.c, a.observedAt);
  }

  lemma OwnOther(s: State, a: Action, c: Call)
    requires Enabled(s, a) && By(a, c) && !a.Commit? && !a.CommitReplyLost?
    requires c in s.calls ==> CallInv(s, c)
    requires (c in s.created ==> c in s.calls) && (c in s.attempts ==> c in s.created)
    ensures c in Apply(s, a).calls && CallInv(Apply(s, a), c)
  {
    hide Recorded;
    if a.Record? || a.RecordReplyLost? { RecordedLeaves(s, c, a.changedAt); }
  }

  lemma CommittedCall(s: State, c: Call, t: Time)
    requires Waiting(s, c) && CallInv(s, c)
    ensures var after := Committed(s, c, t);
            && c in after.calls && after.attempts == s.attempts
            && (if c in after.created && c !in s.created then after.calls[c] == s.calls[c].(attempt := Ready)
                else after.created == s.created && after.calls[c].attempt == NoAttempt && after.calls[c].reply.Some?
                     && (after.calls[c].reply.value.Receipt? ==> after.calls[c].reply.value.replay))
  {
  }

  lemma RecordedLeaves(s: State, c: Call, t: Time)
    requires IsRecording(s, c)
    ensures var after := Recorded(s, c, t);
            after.calls == s.calls && after.created == s.created && after.attempts == s.attempts
  {
  }

  lemma AttemptsAreCreated(s: State, c: Call)
    requires AttemptInv(s) && c in s.attempts
    ensures c in s.created
  {
  }

  lemma CreatedAreCalls(s: State, c: Call)
    requires CreationInv(s)
    ensures c in s.created ==> c in s.calls
  {
  }

  lemma CallStep(s: State, a: Action, c: Call)
    requires Inv(s) && Enabled(s, a) && c in Apply(s, a).calls
    ensures CallInv(Apply(s, a), c)
  {
    hide Apply, CreationInv, StoredInv, AttemptInv;
    if By(a, c) {
      OwnStep(s, a, c);
    } else {
      NotFromNowhere(s, a, c);
      OthersUntouched(s, a, c);
      assert CallInv(s, c);
    }
  }

  lemma NotFromNowhere(s: State, a: Action, c: Call)
    requires Enabled(s, a) && c in Apply(s, a).calls && !By(a, c)
    ensures c in s.calls
  {
    hide Expired, Observed, Echoed;
  }

  lemma StepInv(s: State, a: Action)
    requires Inv(s) && Enabled(s, a)
    ensures Inv(Apply(s, a))
  {
    hide Apply, CallInv, CreationInv, AttemptInv, StoredInv;
    CreationStep(s, a);
    AttemptStep(s, a);
    forall c | c in Apply(s, a).calls ensures CallInv(Apply(s, a), c) { CallStep(s, a, c); }
  }

  lemma {:induction false} RunInv(s: State, actions: seq<Action>)
    requires Inv(s) && IsRun(s, actions)
    ensures Inv(After(s, actions))
    decreases |actions|
  {
    hide Inv, Apply, Enabled;
    if actions != [] {
      StepInv(s, actions[0]);
      RunInv(Apply(s, actions[0]), actions[1..]);
    }
  }

  // ----- at most one attempt -----

  /** In every run the provider is called at most once by each call, only by calls
      whose own commit created the operation. Of two provider calls under the same
      key, the operation of one was gone before that of the other was created: it
      was purged, at least 90 days after its call observed the time, or dropped
      with its connection. */
  lemma AtMostOneAttempt(s: State, actions: seq<Action>)
    requires Initial(s) && IsRun(s, actions)
    ensures var t := After(s, actions);
            && (forall i :: 0 <= i < |t.attempts| ==> t.attempts[i] in t.created)
            && (forall i, j :: 0 <= i < j < |t.attempts| ==>
                  && t.attempts[i] != t.attempts[j]
                  && t.attempts[i] in t.created && t.attempts[j] in t.created
                  && (Apart(t, t.attempts[i], t.attempts[j]) || Apart(t, t.attempts[j], t.attempts[i])))
            && (forall c :: c in t.released ==>
                  && c in t.created
                  && match t.released[c]
                     case Purged(at) => t.created[c].observedAt + BINDING_LIFE <= at
                     case Dropped(_) => t.created[c].connection in t.gone)
  {
    assert Inv(s);
    RunInv(s, actions);
  }

  /** Within the life of one binding there is at most one attempt, unless a
      connection that the key was used with is deleted. */
  lemma OneAttemptWithinBindingLife(s: State, actions: seq<Action>, start: Time)
    requires Initial(s) && IsRun(s, actions)
    requires var t := After(s, actions);
             forall c :: c in t.created ==>
               && start <= t.created[c].observedAt && t.created[c].committedAt < start + BINDING_LIFE
               && t.created[c].connection !in t.gone
    ensures |After(s, actions).attempts| <= 1
  {
    if |After(s, actions).attempts| > 1 {
      var first, second := TwoAttempts(s, actions);
      assert false;
    }
  }

  lemma TwoAttempts(s: State, actions: seq<Action>) returns (first: Call, second: Call)
    requires Initial(s) && IsRun(s, actions) && |After(s, actions).attempts| > 1
    ensures var t := After(s, actions);
            && first in t.created && second in t.created && Apart(t, first, second)
            && (t.created[first].observedAt + BINDING_LIFE <= t.created[second].committedAt
                || t.created[first].connection in t.gone)
  {
    AtMostOneAttempt(s, actions);
    var t := After(s, actions);
    first, second := t.attempts[0], t.attempts[1];
    if !Apart(t, first, second) {
      first, second := second, first;
    }
  }

  /** The steps that take away the operation of `c`, made on connection `k`. */
  predicate Frees(a: Action, c: Call, k: Connection) {
    a == OperationPurged(c) || a == ConnectionDeleted(k)
  }

  ghost predicate Freed(actions: seq<Action>, c: Call, k: Connection) {
    exists i :: 0 <= i < |actions| && Frees(actions[i], c, k)
  }

  lemma StepHolds(s: State, a: Action, c: Call)
    requires Inv(s) && Enabled(s, a) && Holds(s, c)
    ensures Holds(Apply(s, a), c) <==> !Frees(a, c, s.stored.value.connection)
    ensures Holds(Apply(s, a), c) ==> Apply(s, a).stored.value.connection == s.stored.value.connection
    ensures Holds(Apply(s, a), c) ==> Apply(s, a).created == s.created
    ensures !Holds(Apply(s, a), c) ==> Apply(s, a).stored.None? && Apply(s, a).created == s.created
    ensures !Holds(Apply(s, a), c) ==> c in Apply(s, a).released
  {
    hide CreationInv, AttemptInv, CallInv, Recorded, Committed;
    if a.Commit? || a.CommitReplyLost? { HeldCommit(s, a.c, a.observedAt); }
    if a.Record? || a.RecordReplyLost? { RecordedKeeps(s, a.c, a.changedAt); }
  }

  /** While an operation is stored, a commit creates nothing. */
  lemma HeldCommit(s: State, d: Call, t: Time)
    requires s.stored.Some? && d in s.calls
    ensures var u := Committed(s, d, t);
            && u.created == s.created && u.released == s.released && u.stored.Some? && d in u.calls
            && u.stored.value.call == s.stored.value.call && u.stored.value.connection == s.stored.value.connection
  {
  }

  lemma RecordedKeeps(s: State, d: Call, t: Time)
    requires s.stored.Some? && IsRecording(s, d)
    ensures var u := Recorded(s, d, t);
            && u.created == s.created && u.released == s.released && u.stored.Some? && d in u.calls
            && u.stored.value.call == s.stored.value.call && u.stored.value.connection == s.stored.value.connection
  {
  }

  /** Without a purge of the operation or a deletion of its connection nothing is
      created, and the operation stays. */
  lemma {:induction false} HeldUntilFreed(s: State, actions: seq<Action>, c: Call)
    requires Inv(s) && IsRun(s, actions) && Holds(s, c)
    ensures !Freed(actions, c, s.stored.value.connection) ==>
              Holds(After(s, actions), c) && After(s, actions).created == s.created
    ensures After(s, actions).created == s.created ==>
              (After(s, actions).stored.None? <==> Freed(actions, c, s.stored.value.connection))
    decreases |actions|
  {
    hide Inv, Apply, Enabled;
    if actions != [] {
      var k, next := s.stored.value.connection, Apply(s, actions[0]);
      StepInv(s, actions[0]);
      StepHolds(s, actions[0], c);
      FreedCons(actions, c, k);
      if Holds(next, c) {
        HeldUntilFreed(next, actions[1..], c);
      } else {
        StaysFree(next, actions[1..]);
      }
    }
  }

  lemma FreedCons(actions: seq<Action>, c: Call, k: Connection)
    requires actions != []
    ensures Freed(actions, c, k) <==> Frees(actions[0], c, k) || Freed(actions[1..], c, k)
  {
    if i :| 0 <= i < |actions| && Frees(actions[i], c, k) {
      if i > 0 { assert actions[1..][i - 1] == actions[i]; }
    }
    if i :| 0 <= i < |actions[1..]| && Frees(actions[1..][i], c, k) {
      assert actions[i + 1] == actions[1..][i];
    }
  }

  lemma FreeStep(s: State, a: Action)
    requires Inv(s) && Enabled(s, a) && s.stored.None?
    ensures s.created.Keys <= Apply(s, a).created.Keys
    ensures Apply(s, a).created == s.created ==> Apply(s, a).stored.None?
  {
    if a.Commit? || a.CommitReplyLost? {
      assert CallInv(s, a.c);
    }
  }

  lemma CreatedGrows(s: State, a: Action)
    requires Inv(s) && Enabled(s, a)
    ensures forall c :: c in s.created ==> c in Apply(s, a).created && Apply(s, a).created[c] == s.created[c]
  {
    hide CreationInv, AttemptInv, StoredInv, Committed, Recorded;
    if a.Commit? || a.CommitReplyLost? {
      assert CallInv(s, a.c);
      CommittedGrows(s, a.c, a.observedAt);
    }
    if a.Record? || a.RecordReplyLost? { RecordedLeaves(s, a.c, a.changedAt); }
  }

  lemma {:induction false} RunCreatedGrows(s: State, actions: seq<Action>)
    requires Inv(s) && IsRun(s, actions)
    ensures forall c :: c in s.created ==> c in After(s, actions).created && After(s, actions).created[c] == s.created[c]
    decreases |actions|
  {
    hide Inv, Apply, Enabled;
    if actions != [] {
      StepInv(s, actions[0]);
      CreatedGrows(s, actions[0]);
      RunCreatedGrows(Apply(s, actions[0]), actions[1..]);
    }
  }

  lemma {:induction false} StaysFree(s: State, actions: seq<Action>)
    requires Inv(s) && IsRun(s, actions) && s.stored.None?
    ensures After(s, actions).created == s.created ==> After(s, actions).stored.None?
    decreases |actions|
  {
    hide Inv, Apply, Enabled;
    if actions != [] {
      var next := Apply(s, actions[0]);
      StepInv(s, actions[0]);
      FreeStep(s, actions[0]);
      CreatedGrows(s, actions[0]);
      RunCreatedGrows(next, actions[1..]);
      if next.created == s.created {
        StaysFree(next, actions[1..]);
      } else {
        assert next.created.Keys != s.created.Keys;
      }
    }
  }

  /** The exact condition: after an operation was created, and whatever happened
      since, the next commit under the key creates another one if and only if the
      operation was purged or its connection deleted in between. */
  lemma NextCreationIff(s: State, between: seq<Action>, c: Call, d: Call, t: Time)
    requires Inv(s) && Holds(s, c) && IsRun(s, between) && After(s, between).created == s.created
    requires Waiting(After(s, between), d) && t <= After(s, between).now
    requires After(s, between).calls[d].connection !in After(s, between).gone
    ensures var after := Apply(After(s, between), Commit(d, t));
            after.created != s.created <==> Freed(between, c, s.stored.value.connection)
    ensures var after := Apply(After(s, between), Commit(d, t));
            Freed(between, c, s.stored.value.connection) ==> InAttempt(after, d, Ready)
  {
    var u := After(s, between);
    RunInv(s, between);
    HeldUntilFreed(s, between, c);
    assert CallInv(u, d);
  }

  // ----- both ways to a second attempt are there -----

  /** A call that finds the key free reaches the provider. */
  function Sending(c: Call, k: Connection, fingerprint: nat, t: Time): seq<Action> {
    [Begin(c, k, fingerprint), Commit(c, t), StartAttempt(c), CallProvider(c)]
  }

  lemma FreeKeySends(s: State, c: Call, k: Connection, fingerprint: nat)
    requires s.stored.None? && c !in s.calls && k !in s.gone
    ensures var run := Sending(c, k, fingerprint, s.now);
            && IsRun(s, run)
            && var t := After(s, run);
               && t.attempts == s.attempts + [c] && t.now == s.now && t.gone == s.gone
               && t.calls.Keys == s.calls.Keys + {c} && Holds(t, c)
               && t.stored.value.connection == k && t.stored.value.expiresAt == s.now + BINDING_LIFE
  {
    hide Apply, Enabled;
    BeginsAndCommits(s, c, k, fingerprint);
    var s1 := Apply(s, Begin(c, k, fingerprint));
    var s2 := Apply(s1, Commit(c, s.now));
    StartsAndCalls(s2, c);
    var s3 := Apply(s2, StartAttempt(c));
    RunByStates(Sending(c, k, fingerprint, s.now), [s, s1, s2, s3, Apply(s3, CallProvider(c))]);
  }

  lemma BeginsAndCommits(s: State, c: Call, k: Connection, fingerprint: nat)
    requires s.stored.None? && c !in s.calls && k !in s.gone
    ensures Enabled(s, Begin(c, k, fingerprint))
    ensures var s1 := Apply(s, Begin(c, k, fingerprint));
            && Enabled(s1, Commit(c, s.now))
            && var s2 := Apply(s1, Commit(c, s.now));
               && s2.attempts == s.attempts && s2.now == s.now && s2.gone == s.gone
               && s2.calls.Keys == s.calls.Keys + {c} && InAttempt(s2, c, Ready) && Holds(s2, c)
               && s2.stored.value.connection == k && s2.stored.value.expiresAt == s.now + BINDING_LIFE
  {
  }

  lemma StartsAndCalls(s: State, c: Call)
    requires InAttempt(s, c, Ready) && Holds(s, c)
    ensures Enabled(s, StartAttempt(c))
    ensures var s1 := Apply(s, StartAttempt(c));
            && Enabled(s1, CallProvider(c))
            && var s2 := Apply(s1, CallProvider(c));
               && s2.attempts == s.attempts + [c] && s2.now == s.now && s2.gone == s.gone
               && s2.calls.Keys == s.calls.Keys && Holds(s2, c) && s2.stored == s.stored
  {
    assert InAttempt(Apply(s, StartAttempt(c)), c, Started);
  }

  lemma {:induction false} RunByStates(actions: seq<Action>, states: seq<State>)
    requires |states| == |actions| + 1
    requires forall i :: 0 <= i < |actions| ==>
               Enabled(states[i], actions[i]) && Apply(states[i], actions[i]) == states[i + 1]
    ensures IsRun(states[0], actions) && After(states[0], actions) == states[|actions|]
    decreases |actions|
  {
    hide Apply, Enabled;
    if actions != [] {
      var tail, rest := actions[1..], states[1..];
      assert forall i :: 0 <= i < |tail| ==> tail[i] == actions[i + 1] && rest[i] == states[i + 1];
      RunByStates(tail, rest);
    }
  }

  /** From any start, two attempts under one key within one instant: the first
      one's connection is deleted, the second goes out from another. */
  lemma DeletionAllowsSecondAttempt(s: State, j: Connection, k: Connection, f: nat, g: nat)
    requires Initial(s) && j != k && j !in s.gone && k !in s.gone
    ensures var run := Sending(0, j, f, s.now) + ([ConnectionDeleted(j)] + Sending(1, k, g, s.now));
            && IsRun(s, run) && After(s, run).attempts == [0, 1] && After(s, run).now == s.now
  {
    hide IsRun, After;
    FreeKeySends(s, 0, j, f);
    var s1 := After(s, Sending(0, j, f, s.now));
    var s2 := Apply(s1, ConnectionDeleted(j));
    RunByStates([ConnectionDeleted(j)], [s1, s2]);
    FreeKeySends(s2, 1, k, g);
    RunConcat(s1, [ConnectionDeleted(j)], Sending(1, k, g, s.now));
    RunConcat(s, Sending(0, j, f, s.now), [ConnectionDeleted(j)] + Sending(1, k, g, s.now));
  }

  /** And two on one connection, the second after the purge of the first. */
  lemma PurgeAllowsSecondAttempt(s: State, k: Connection, f: nat, g: nat)
    requires Initial(s) && k !in s.gone
    ensures var later := s.now + BINDING_LIFE;
            var run := Sending(0, k, f, s.now) + ([Tick(later), OperationPurged(0)] + Sending(1, k, g, later));
            IsRun(s, run) && After(s, run).attempts == [0, 1]
  {
    hide IsRun, After;
    var later := s.now + BINDING_LIFE;
    FreeKeySends(s, 0, k, f);
    var s1 := After(s, Sending(0, k, f, s.now));
    var s2 := Apply(s1, Tick(later));
    var s3 := Apply(s2, OperationPurged(0));
    RunByStates([Tick(later), OperationPurged(0)], [s1, s2, s3]);
    FreeKeySends(s3, 1, k, g);
    RunConcat(s1, [Tick(later), OperationPurged(0)], Sending(1, k, g, later));
    RunConcat(s, Sending(0, k, f, s.now), [Tick(later), OperationPurged(0)] + Sending(1, k, g, later));
  }

  /** A call that replays or is refused never reaches the provider. */
  lemma ReplayNeverAttempts(s: State, actions: seq<Action>, c: Call)
    requires Initial(s) && IsRun(s, actions) && c in After(s, actions).calls
    requires var reply := After(s, actions).calls[c].reply;
             reply.Some? && (reply.value.Receipt? ==> reply.value.replay) && reply.value != ServiceUnavailable
    ensures c !in After(s, actions).attempts
  {
    assert Inv(s);
    RunInv(s, actions);
    assert CallInv(After(s, actions), c);
  }
}
