/** Journal before acknowledgement: requests that prepare, append to the journal
    and finalize, recovery passes that complete what was left prepared, and
    replays from the journal, in every interleaving. A request or a pass that
    crashes takes no further step. */
module ExclusionProtocol {
  import opened Options
  import opened ExclusionRules

  type Recipient = nat
  type Request = nat
  type Pass = nat

  datatype Answer =
    | Acknowledged(id: Id, excluded: bool)
    | AcknowledgedAgain(id: Id, excluded: bool)
    | NothingToDo(excluded: bool)
    | RejectedConflict
    | NotFound
    | JournalFailure

  datatype RequestPc =
    | Appending(item: Item)
    | Finalizing(item: Item)
    | Answered(answer: Answer)

  datatype Item = Item(r: Recipient, transition: Transition)

  const BINDING_LIFE := 90 * 86_400

  /** An acknowledged transition recorded under the key that asked for it. */
  datatype Binding = Binding(transition: Transition, expiresAt: Time)

  /** A pass works through the transitions it has listed. */
  datatype PassPc = PassPc(todo: seq<Item>, appended: bool)

  /** `issued` remembers for every transition id what it stands for, `asked` for
      every request its recipient and idempotency key. */
  datatype State = State(
    now: Time, rules: seq<Rule>, journal: map<Id, Item>, issued: map<Id, Item>, next: Id,
    bindings: map<(Recipient, IdempotencyKey), Binding>,
    requests: map<Request, RequestPc>, asked: map<Request, (Recipient, IdempotencyKey)>, passes: map<Pass, PassPc>)

  datatype Action =
    | Tick(later: Time)
    | RequestPrepares(q: Request, r: Recipient, key: IdempotencyKey, excluded: bool, expected: bool)
    | RequestAppends(q: Request)
    | RequestFinalizes(q: Request, observedAt: Time)
    | PassLists(p: Pass, todo: seq<Item>)
    | PassAppends(p: Pass)
    | PassFinalizes(p: Pass, observedAt: Time)
    | JournalReplayed(id: Id)
    | BindingPurged(r: Recipient, key: IdempotencyKey)
    | AccessChanges(r: Recipient, visible: bool, active: bool)

  predicate IsPending(s: State, item: Item) {
    && item.r < |s.rules| && s.rules[item.r].visible
    && s.rules[item.r].pending.Some? && s.rules[item.r].pending.value.transition == item.transition
  }

  predicate Enabled(s: State, a: Action) {
    match a
    case Tick(later) => s.now <= later
    case RequestPrepares(q, r, _, _, _) => q !in s.requests && r < |s.rules|
    case RequestAppends(q) => q in s.requests && s.requests[q].Appending?
    case RequestFinalizes(q, t) => q in s.requests && s.requests[q].Finalizing? && t <= s.now
    case PassLists(p, todo) => p !in s.passes && forall i :: 0 <= i < |todo| ==> IsPending(s, todo[i])
    case PassAppends(p) => p in s.passes && s.passes[p].todo != [] && !s.passes[p].appended
    case PassFinalizes(p, t) => p in s.passes && s.passes[p].todo != [] && s.passes[p].appended && t <= s.now
    case JournalReplayed(id) => id in s.journal && s.journal[id].r < |s.rules|
    case BindingPurged(r, key) => (r, key) in s.bindings && s.bindings[(r, key)].expiresAt <= s.now
    case AccessChanges(r, _, _) => r < |s.rules|
  }

  /** `journal.append` writes an entry once; it fails when one with the same
      identity and another content exists. */
  predicate Appends(s: State, item: Item) {
    item.transition.id in s.journal ==> s.journal[item.transition.id] == item
  }

  function Appended(s: State, item: Item): State {
    s.(journal := s.journal[item.transition.id := item])
  }

  function Finalized(s: State, item: Item, t: Time): State {
    if item.r < |s.rules| && Finalizes(s.rules[item.r], item.transition.id) then
      var rule := s.rules[item.r];
      var key := (item.r, rule.pending.value.key);
      s.(rules := s.rules[item.r := Finalize(rule, item.transition.id).0],
         bindings := if key in s.bindings then s.bindings
                     else s.bindings[key := Binding(rule.pending.value.transition, t + BINDING_LIFE)])
    else s
  }

  function FinalizeAnswer(s: State, item: Item): Answer {
    if item.r < |s.rules| && Finalize(s.rules[item.r], item.transition.id).1.Some?
    then Acknowledged(item.transition.id, Finalize(s.rules[item.r], item.transition.id).1.value)
    else NotFound
  }

  function PreparedPc(r: Recipient, prepared: Prepared): RequestPc {
    match prepared
    case NotAccessible => Answered(NotFound)
    case Replayed(t) => Answered(AcknowledgedAgain(t.id, t.excluded))
    case Fresh(t) => Appending(Item(r, t))
    case Conflict => Answered(RejectedConflict)
    case Unchanged(e) => Answered(NothingToDo(e))
  }

  function Bound(s: State, r: Recipient, key: IdempotencyKey): Option<Transition> {
    if (r, key) in s.bindings then Some(s.bindings[(r, key)].transition) else None
  }

  function ApplyPrepare(s: State, a: Action): State
    requires a.RequestPrepares? && Enabled(s, a)
  {
    var (rule, prepared) := Prepare(s.rules[a.r], Bound(s, a.r, a.key), s.next, s.now, a.key, a.excluded, a.expected);
    var issues := s.rules[a.r].pending.None? && rule.pending.Some?;
    s.(rules := s.rules[a.r := rule],
       issued := if issues then s.issued[s.next := Item(a.r, rule.pending.value.transition)] else s.issued,
       next := if issues then s.next + 1 else s.next,
       requests := s.requests[a.q := PreparedPc(a.r, prepared)],
       asked := s.asked[a.q := (a.r, a.key)])
  }

  function Apply(s: State, a: Action): State
    requires Enabled(s, a)
  {
    match a
    case Tick(later) => s.(now := later)
    case RequestPrepares(_, _, _, _, _) => ApplyPrepare(s, a)
    case RequestAppends(q) =>
      var item := s.requests[q].item;
      if Appends(s, item) then Appended(s, item).(requests := s.requests[q := Finalizing(item)])
      else s.(requests := s.requests[q := Answered(JournalFailure)])
    case RequestFinalizes(q, t) =>
      var item := s.requests[q].item;
      Finalized(s, item, t).(requests := s.requests[q := Answered(FinalizeAnswer(s, item))])
    case PassLists(p, todo) => s.(passes := s.passes[p := PassPc(todo, false)])
    case PassAppends(p) =>
      var item := s.passes[p].todo[0];
      if Appends(s, item) then Appended(s, item).(passes := s.passes[p := PassPc(s.passes[p].todo, true)])
      else s.(passes := s.passes[p := PassPc([], false)])
    case PassFinalizes(p, t) =>
      Finalized(s, s.passes[p].todo[0], t).(passes := s.passes[p := PassPc(s.passes[p].todo[1..], false)])
    case JournalReplayed(id) =>
      var item := s.journal[id];
      s.(rules := s.rules[item.r := Replay(s.rules[item.r], item.transition)])
    case BindingPurged(r, key) => s.(bindings := s.bindings - {(r, key)})
    case AccessChanges(r, visible, active) => s.(rules := s.rules[r := s.rules[r].(visible := visible, active := active)])
  }

  predicate IsRun(s: State, actions: seq<Action>)
    decreases |actions|
  {
    actions == [] || (Enabled(s, actions[0]) && IsRun(Apply(s, actions[0]), actions[1..]))
  }

  function After(s: State, actions: seq<Action>): State
    requires IsRun(s, actions)
    decreases |actions|
  {
    if actions == [] then s else After(Apply(s, actions[0]), actions[1..])
  }

  lemma {:induction false} RunConcat(s: State, first: seq<Action>, second: seq<Action>)
    requires IsRun(s, first) && IsRun(After(s, first), second)
    ensures IsRun(s, first + second) && After(s, first + second) == After(After(s, first), second)
    decreases |first|
  {
    if first == [] {
      assert first + second == second;
    } else {
      assert (first + second)[0] == first[0] && (first + second)[1..] == first[1..] + second;
      RunConcat(Apply(s, first[0]), first[1..], second);
    }
  }

  lemma OneAction(s: State, a: Action)
    requires Enabled(s, a)
    ensures IsRun(s, [a]) && After(s, [a]) == Apply(s, a)
  {
    hide Apply, Enabled;
    assert [a][1..] == [] && After(Apply(s, a), []) == Apply(s, a);
  }

  lemma RunOfTwo(s: State, a: Action, b: Action)
    requires Enabled(s, a) && Enabled(Apply(s, a), b)
    ensures IsRun(s, [a, b]) && After(s, [a, b]) == Apply(Apply(s, a), b)
  {
    hide Apply, Enabled;
    assert [a, b][1..] == [b];
    OneAction(Apply(s, a), b);
  }

  lemma RunOfThree(s: State, a: Action, b: Action, c: Action)
    requires Enabled(s, a) && Enabled(Apply(s, a), b) && Enabled(Apply(Apply(s, a), b), c)
    ensures IsRun(s, [a, b, c]) && After(s, [a, b, c]) == Apply(Apply(Apply(s, a), b), c)
  {
    hide Apply, Enabled;
    assert [a, b, c][1..] == [b, c];
    RunOfTwo(Apply(s, a), b, c);
  }

  predicate Initial(s: State) {
    && (forall r :: 0 <= r < |s.rules| ==>
          s.rules[r].pending.None? && s.rules[r].last.None? && s.rules[r].effectiveAt.None?
          && s.rules[r].cutoff.None? && !s.rules[r].excluded)
    && s.journal == map[] && s.issued == map[] && s.bindings == map[] && s.requests == map[] && s.asked == map[] && s.passes == map[]
  }

  /** The steps of one request. */
  predicate By(a: Action, q: Request) {
    (a.RequestPrepares? || a.RequestAppends? || a.RequestFinalizes?) && a.q == q
  }

  lemma FinalizedLeavesRequests(s: State, item: Item, at: Time)
    ensures var t := Finalized(s, item, at);
            t.requests == s.requests && t.asked == s.asked && t.now == s.now
  {
  }

  lemma OtherLeavesAlone(s: State, a: Action, q: Request)
    requires Enabled(s, a) && !By(a, q)
    ensures var t := Apply(s, a);
            && s.now <= t.now && (q in t.requests <==> q in s.requests) && (q in t.asked <==> q in s.asked)
            && (q in s.requests ==> t.requests[q] == s.requests[q]) && (q in s.asked ==> t.asked[q] == s.asked[q])
  {
    hide Finalized;
    if a.RequestFinalizes? { FinalizedLeavesRequests(s, s.requests[a.q].item, a.observedAt); }
    if a.PassFinalizes? { FinalizedLeavesRequests(s, s.passes[a.p].todo[0], a.observedAt); }
  }

  // ----- the invariant -----

  predicate Issued(s: State, item: Item) {
    item.transition.id in s.issued && s.issued[item.transition.id] == item
  }

  predicate Journaled(s: State, item: Item) {
    Issued(s, item) && item.transition.id in s.journal && s.journal[item.transition.id] == item
  }

  /** The rule is in force from that time on, or from a later one. */
  predicate AtLeast(rule: Rule, t: Time) {
    rule.effectiveAt.Some? && t <= rule.effectiveAt.value
  }

  /** The transition is in the journal, and nothing older than it rules now. */
  predicate InForce(s: State, item: Item) {
    Journaled(s, item) && item.r < |s.rules| && AtLeast(s.rules[item.r], item.transition.at)
  }

  ghost predicate CutoffJournaled(s: State, r: Recipient, cutoff: Option<Time>) {
    cutoff.Some? ==> exists id :: id in s.journal && s.journal[id].r == r && s.journal[id].transition.cutoff == cutoff
  }

  /** A rule says what its last transition said, and that one is in the journal;
      what is pending would change it. */
  ghost predicate RuleInv(s: State, r: Recipient, rule: Rule) {
    && (rule.pending.Some? ==>
          && Issued(s, Item(r, rule.pending.value.transition))
          && rule.pending.value.transition.excluded != rule.excluded
          && NotNewer(rule, rule.pending.value.transition.at))
    && CutoffJournaled(s, r, rule.cutoff)
    && (match rule.last
        case None => !rule.excluded && rule.effectiveAt.None?
        case Some(id) =>
          id in s.journal && Journaled(s, s.journal[id]) && s.journal[id].r == r && s.journal[id].transition.id == id
          && rule.excluded == s.journal[id].transition.excluded
          && rule.effectiveAt == Some(s.journal[id].transition.at))
  }

  predicate AnswerInv(s: State, answer: Answer) {
    answer.Acknowledged? || answer.AcknowledgedAgain? ==>
      && answer.id in s.journal && InForce(s, s.journal[answer.id])
      && s.journal[answer.id].transition.id == answer.id
      && s.journal[answer.id].transition.excluded == answer.excluded
  }

  predicate RequestInv(s: State, pc: RequestPc) {
    match pc
    case Appending(item) => Issued(s, item)
    case Finalizing(item) => Journaled(s, item)
    case Answered(answer) => !answer.JournalFailure? && AnswerInv(s, answer)
  }

  predicate PassInv(s: State, pc: PassPc) {
    && (forall i :: 0 <= i < |pc.todo| ==> Issued(s, pc.todo[i]))
    && (pc.todo != [] && pc.appended ==> Journaled(s, pc.todo[0]))
  }

  predicate LogInv(s: State) {
    && (forall id :: id in s.issued ==>
          id < s.next && s.issued[id].transition.id == id && s.issued[id].transition.at <= s.now)
    && (forall id :: id in s.journal ==> id in s.issued && s.journal[id] == s.issued[id])
  }

  ghost predicate Inv(s: State) {
    && LogInv(s)
    && (forall r :: 0 <= r < |s.rules| ==> RuleInv(s, r, s.rules[r]))
    && (forall q :: q in s.requests ==> RequestInv(s, s.requests[q]))
    && (forall p :: p in s.passes ==> PassInv(s, s.passes[p]))
    && (forall k :: k in s.bindings ==> InForce(s, Item(k.0, s.bindings[k].transition)))
  }

  /** What is issued or journaled stays, and no rule goes back in time. */
  predicate Extends(s: State, t: State) {
    && (forall id :: id in s.issued ==> id in t.issued && t.issued[id] == s.issued[id])
    && (forall id :: id in s.journal ==> id in t.journal && t.journal[id] == s.journal[id])
    && |t.rules| == |s.rules|
    && (forall r :: 0 <= r < |s.rules| && s.rules[r].effectiveAt.Some? ==>
          AtLeast(t.rules[r], s.rules[r].effectiveAt.value))
  }

  lemma FinalizedExtends(s: State, item: Item, t: Time)
    requires Inv(s)
    ensures Extends(s, Finalized(s, item, t))
  {
    hide PassInv, RequestInv, InForce, CutoffJournaled, LogInv;
    if item.r < |s.rules| {
      assert RuleInv(s, item.r, s.rules[item.r]);
    }
  }

  lemma AppendedExtends(s: State, item: Item)
    requires Appends(s, item)
    ensures Extends(s, Appended(s, item))
  {
  }

  /** The steps that only move a request or a pass keep these parts. */
  predicate SameParts(s: State, t: State) {
    t.issued == s.issued && t.journal == s.journal && t.rules == s.rules && t.next == s.next && t.now == s.now
  }

  lemma AppendStep(s: State, a: Action)
    requires Enabled(s, a) && (a.RequestAppends? || a.PassAppends?)
    ensures var item := if a.RequestAppends? then s.requests[a.q].item else s.passes[a.p].todo[0];
            SameParts(if Appends(s, item) then Appended(s, item) else s, Apply(s, a)) && Apply(s, a).bindings == s.bindings
  {
    hide Appends;
  }

  lemma SamePartsExtend(s: State, t: State, u: State)
    requires Extends(s, t) && SameParts(t, u)
    ensures Extends(s, u)
  {
  }

  lemma PrepareExtends(s: State, a: Action)
    requires Inv(s) && a.RequestPrepares? && Enabled(s, a)
    ensures Extends(s, ApplyPrepare(s, a))
  {
    hide PassInv, RequestInv, RuleInv, InForce;
  }

  lemma StepExtends(s: State, a: Action)
    requires Inv(s) && Enabled(s, a)
    ensures Extends(s, Apply(s, a))
  {
    hide PassInv, RequestInv, RuleInv, InForce, LogInv, Finalized, Extends, Appends, Apply;
    ExtendsRefl(s);
    match a
    case RequestPrepares(_, _, _, _, _) => PrepareExtends(s, a); PrepareStep(s, a);
    case RequestAppends(q) => AppendStepExtends(s, a, s.requests[q].item);
    case PassAppends(p) => AppendStepExtends(s, a, s.passes[p].todo[0]);
    case RequestFinalizes(q, t) => FinalizedExtends(s, s.requests[q].item, t); FinalizeStep(s, a);
    case PassFinalizes(p, t) => FinalizedExtends(s, s.passes[p].todo[0], t); FinalizeStep(s, a);
    case JournalReplayed(_) => ReplayExtends(s, a);
    case AccessChanges(_, _, _) => AccessExtends(s, a);
    case _ => QuietStep(s, a); SamePartsOfLater(s, Apply(s, a));
  }

  lemma PrepareStep(s: State, a: Action)
    requires a.RequestPrepares? && Enabled(s, a)
    ensures Apply(s, a) == ApplyPrepare(s, a)
  {
  }

  lemma AppendStepExtends(s: State, a: Action, item: Item)
    requires Enabled(s, a) && (a.RequestAppends? || a.PassAppends?)
    requires item == if a.RequestAppends? then s.requests[a.q].item else s.passes[a.p].todo[0]
    ensures Extends(s, Apply(s, a))
  {
    hide Extends, Appends, Apply, Appended;
    AppendStep(s, a);
    ExtendsRefl(s);
    if Appends(s, item) { AppendedExtends(s, item); }
    SamePartsExtend(s, if Appends(s, item) then Appended(s, item) else s, Apply(s, a));
  }

  lemma FinalizeStep(s: State, a: Action)
    requires Enabled(s, a) && (a.RequestFinalizes? || a.PassFinalizes?)
    ensures var item := if a.RequestFinalizes? then s.requests[a.q].item else s.passes[a.p].todo[0];
            SameParts(Finalized(s, item, a.observedAt), Apply(s, a))
            && (Extends(s, Finalized(s, item, a.observedAt)) ==> Extends(s, Apply(s, a)))
            && Apply(s, a).bindings == Finalized(s, item, a.observedAt).bindings
  {
    hide Finalized, Extends;
    var item := if a.RequestFinalizes? then s.requests[a.q].item else s.passes[a.p].todo[0];
    if Extends(s, Finalized(s, item, a.observedAt)) {
      SamePartsExtend(s, Finalized(s, item, a.observedAt), Apply(s, a));
    }
  }

  lemma ReplayExtends(s: State, a: Action)
    requires a.JournalReplayed? && Enabled(s, a)
    ensures Extends(s, Apply(s, a))
  {
  }

  lemma AccessExtends(s: State, a: Action)
    requires a.AccessChanges? && Enabled(s, a)
    ensures Extends(s, Apply(s, a))
  {
  }

  /** The clock, a listing and a purge leave rules and journal alone. */
  lemma QuietStep(s: State, a: Action)
    requires Enabled(s, a) && (a.Tick? || a.PassLists? || a.BindingPurged?)
    ensures SameParts(s.(now := Apply(s, a).now), Apply(s, a)) && s.now <= Apply(s, a).now
  {
  }

  lemma SamePartsOfLater(s: State, t: State)
    requires SameParts(s.(now := t.now), t)
    ensures Extends(s, t)
  {
  }

  lemma FinalizedLeavesLog(s: State, item: Item, t: Time)
    ensures SameLog(s, Finalized(s, item, t))
  {
  }

  predicate SameLog(s: State, t: State) {
    t.issued == s.issued && t.journal == s.journal && t.next == s.next && s.now <= t.now
  }

  lemma SameLogKept(s: State, t: State)
    requires LogInv(s) && SameLog(s, t)
    ensures LogInv(t)
  {
  }

  lemma StepLeavesLog(s: State, a: Action)
    requires Enabled(s, a) && !a.RequestPrepares? && !a.RequestAppends? && !a.PassAppends?
    ensures SameLog(s, Apply(s, a))
  {
    hide Finalized;
    match a
    case RequestFinalizes(q, t) => FinalizedLeavesLog(s, s.requests[q].item, t);
    case PassFinalizes(p, t) => FinalizedLeavesLog(s, s.passes[p].todo[0], t);
    case _ =>
  }

  lemma PrepareLog(s: State, a: Action)
    requires a.RequestPrepares? && Enabled(s, a) && LogInv(s)
    ensures LogInv(ApplyPrepare(s, a))
  {
  }

  lemma AppendLog(s: State, a: Action, item: Item)
    requires Enabled(s, a) && (a.RequestAppends? || a.PassAppends?) && LogInv(s) && Issued(s, item)
    requires item == if a.RequestAppends? then s.requests[a.q].item else s.passes[a.p].todo[0]
    ensures LogInv(Apply(s, a))
  {
    hide Apply;
    AppendStep(s, a);
    AppendSucceeds(s, item);
  }

  lemma StepLog(s: State, a: Action)
    requires Inv(s) && Enabled(s, a)
    ensures LogInv(Apply(s, a))
  {
    hide CutoffJournaled, AnswerInv, InForce, RuleInv, LogInv, Apply;
    match a
    case RequestPrepares(_, _, _, _, _) => PrepareStep(s, a); PrepareLog(s, a);
    case RequestAppends(q) => assert RequestInv(s, s.requests[q]); AppendLog(s, a, s.requests[q].item);
    case PassAppends(p) => assert PassInv(s, s.passes[p]); AppendLog(s, a, s.passes[p].todo[0]);
    case _ => StepLeavesLog(s, a); SameLogKept(s, Apply(s, a));
  }

  lemma CutoffKept(s: State, t: State, r: Recipient, cutoff: Option<Time>)
    requires Extends(s, t) && CutoffJournaled(s, r, cutoff)
    ensures CutoffJournaled(t, r, cutoff)
  {
    if cutoff.Some? {
      var id :| id in s.journal && s.journal[id].r == r && s.journal[id].transition.cutoff == cutoff;
      assert id in t.journal;
    }
  }

  lemma RuleInvKept(s: State, t: State, r: Recipient, rule: Rule)
    requires Extends(s, t) && RuleInv(s, r, rule)
    ensures RuleInv(t, r, rule)
  {
    hide CutoffJournaled;
    CutoffKept(s, t, r, rule.cutoff);
  }

  /** Adopting a journaled transition no older than the rule keeps the rule true
      to the journal. */
  lemma AdoptKeeps(s: State, item: Item, rule: Rule)
    requires RuleInv(s, item.r, rule) && Journaled(s, item)
    ensures RuleInv(s, item.r, Adopt(rule, item.transition))
    ensures RuleInv(s, item.r, rule.(cutoff := Greatest(rule.cutoff, item.transition.cutoff), pending := None))
  {
    assert CutoffJournaled(s, item.r, item.transition.cutoff);
  }

  /** The rule of one recipient after a step. */
  lemma StepRule(s: State, a: Action, r: Recipient)
    requires Inv(s) && Enabled(s, a) && r < |s.rules| && Extends(s, Apply(s, a)) && LogInv(Apply(s, a))
    ensures RuleInv(Apply(s, a), r, Apply(s, a).rules[r])
  {
    hide AnswerInv, InForce, CutoffJournaled, LogInv, RuleInv, Apply;
    RuleInvKept(s, Apply(s, a), r, s.rules[r]);
    match a
    case RequestPrepares(_, p, _, _, _) => PrepareStep(s, a); if p == r { PrepareKeepsRule(s, a); }
    case RequestFinalizes(q, _) =>
      assert RequestInv(s, s.requests[q]);
      FinalizeStepKeepsRule(s, a, s.requests[q].item, r);
    case PassFinalizes(p, _) =>
      assert PassInv(s, s.passes[p]);
      FinalizeStepKeepsRule(s, a, s.passes[p].todo[0], r);
    case JournalReplayed(id) => ReplayKeepsRule(s, a, r);
    case AccessChanges(_, _, _) => AccessKeepsRule(s, a, r);
    case RequestAppends(_) => AppendStep(s, a);
    case PassAppends(_) => AppendStep(s, a);
    case _ => QuietStep(s, a);
  }

  lemma FinalizeStepKeepsRule(s: State, a: Action, item: Item, r: Recipient)
    requires Enabled(s, a) && (a.RequestFinalizes? || a.PassFinalizes?) && r < |s.rules| && Extends(s, Apply(s, a))
    requires item == if a.RequestFinalizes? then s.requests[a.q].item else s.passes[a.p].todo[0]
    requires Journaled(s, item) && RuleInv(s, r, s.rules[r])
    ensures RuleInv(Apply(s, a), r, Apply(s, a).rules[r])
  {
    hide RuleInv, Apply, Extends, Journaled;
    FinalizeStep(s, a);
    RuleInvKept(s, Apply(s, a), r, s.rules[r]);
    if item.r == r {
      FinalizeKeepsRule(s, item);
      RuleInvKept(s, Apply(s, a), r, Finalize(s.rules[r], item.transition.id).0);
    }
  }

  lemma ReplayKeepsRule(s: State, a: Action, r: Recipient)
    requires a.JournalReplayed? && Enabled(s, a) && r < |s.rules| && Extends(s, Apply(s, a))
    requires LogInv(s) && RuleInv(s, r, s.rules[r])
    ensures RuleInv(Apply(s, a), r, Apply(s, a).rules[r])
  {
    hide RuleInv, Extends, LogInv;
    var item := s.journal[a.id];
    RuleInvKept(s, Apply(s, a), r, s.rules[r]);
    if item.r == r {
      ReplayJournaled(s, a.id);
      AdoptKeeps(s, item, s.rules[r]);
      RuleInvKept(s, Apply(s, a), r, Replay(s.rules[r], item.transition));
    }
  }

  lemma AccessKeepsRule(s: State, a: Action, r: Recipient)
    requires a.AccessChanges? && Enabled(s, a) && r < |s.rules| && RuleInv(Apply(s, a), r, s.rules[r])
    ensures RuleInv(Apply(s, a), r, Apply(s, a).rules[r])
  {
    hide CutoffJournaled, Journaled, Issued;
  }

  lemma ReplayJournaled(s: State, id: Id)
    requires LogInv(s) && id in s.journal
    ensures Journaled(s, s.journal[id]) && s.journal[id].transition.id == id
  {
  }

  lemma PrepareKeepsRule(s: State, a: Action)
    requires Inv(s) && a.RequestPrepares? && Enabled(s, a) && Extends(s, Apply(s, a))
    ensures RuleInv(Apply(s, a), a.r, Apply(s, a).rules[a.r])
  {
    hide AnswerInv, CutoffJournaled, InForce;
    RuleInvKept(s, Apply(s, a), a.r, s.rules[a.r]);
  }

  lemma FinalizeKeepsRule(s: State, item: Item)
    requires item.r < |s.rules| && RuleInv(s, item.r, s.rules[item.r]) && Journaled(s, item)
    ensures RuleInv(s, item.r, Finalize(s.rules[item.r], item.transition.id).0)
  {
    var rule := s.rules[item.r];
    if Finalizes(rule, item.transition.id) {
      assert rule.pending.value.transition == item.transition;
      AdoptKeeps(s, item, rule);
    }
  }

  /** A finalized transition is in force, and a binding is made only for one. */
  lemma FinalizedInForce(s: State, t: State, item: Item, at: Time)
    requires Journaled(s, item) && (item.r < |s.rules| ==> RuleInv(s, item.r, s.rules[item.r]))
    requires Extends(s, t) && t.rules == Finalized(s, item, at).rules
    ensures FinalizeAnswer(s, item).Acknowledged? ==> InForce(t, item)
    ensures AnswerInv(t, FinalizeAnswer(s, item))
    ensures item.r < |s.rules| && Finalizes(s.rules[item.r], item.transition.id) ==>
              s.rules[item.r].pending.value.transition == item.transition
  {
    hide CutoffJournaled;
  }

  lemma InForceKept(s: State, t: State, item: Item)
    requires InForce(s, item) && Extends(s, t)
    ensures InForce(t, item)
  {
  }

  lemma AnswerKept(s: State, t: State, answer: Answer)
    requires AnswerInv(s, answer) && Extends(s, t)
    ensures AnswerInv(t, answer)
  {
    if answer.Acknowledged? || answer.AcknowledgedAgain? {
      InForceKept(s, t, s.journal[answer.id]);
    }
  }

  lemma RequestKept(s: State, t: State, pc: RequestPc)
    requires RequestInv(s, pc) && Extends(s, t)
    ensures RequestInv(t, pc)
  {
    hide AnswerInv;
    if pc.Answered? { AnswerKept(s, t, pc.answer); }
  }

  lemma PassKept(s: State, t: State, pc: PassPc)
    requires PassInv(s, pc) && Extends(s, t)
    ensures PassInv(t, pc)
  {
  }

  lemma StepRequest(s: State, a: Action, q: Request)
    requires Inv(s) && Enabled(s, a) && q in Apply(s, a).requests && Extends(s, Apply(s, a)) && LogInv(Apply(s, a))
    ensures RequestInv(Apply(s, a), Apply(s, a).requests[q])
  {
    hide PassInv, AnswerInv, InForce, LogInv, RequestInv, RuleInv, Apply, Extends;
    if By(a, q) {
      match a
      case RequestPrepares(_, _, _, _, _) => PrepareStep(s, a); PrepareAnswers(s, a);
      case RequestAppends(_) => RequestAppendsKeeps(s, a);
      case RequestFinalizes(_, _) => RequestFinalizesKeeps(s, a);
    } else {
      OtherLeavesAlone(s, a, q);
      RequestKept(s, Apply(s, a), s.requests[q]);
    }
  }

  lemma RequestAppendsKeeps(s: State, a: Action)
    requires a.RequestAppends? && Enabled(s, a) && LogInv(s) && RequestInv(s, s.requests[a.q])
    ensures RequestInv(Apply(s, a), Apply(s, a).requests[a.q])
  {
    AppendSucceeds(s, s.requests[a.q].item);
  }

  lemma RequestFinalizesKeeps(s: State, a: Action)
    requires a.RequestFinalizes? && Inv(s) && Enabled(s, a) && Extends(s, Apply(s, a))
    ensures RequestInv(Apply(s, a), Apply(s, a).requests[a.q])
  {
    hide PassInv, AnswerInv, InForce, LogInv, RuleInv, Finalized, Extends;
    var item := s.requests[a.q].item;
    assert RequestInv(s, s.requests[a.q]);
    FinalizedInForce(s, Apply(s, a), item, a.observedAt);
  }

  lemma PrepareAnswers(s: State, a: Action)
    requires Inv(s) && a.RequestPrepares? && Enabled(s, a) && Extends(s, ApplyPrepare(s, a))
    ensures RequestInv(ApplyPrepare(s, a), ApplyPrepare(s, a).requests[a.q])
  {
    hide PassInv, CutoffJournaled;
    var t := ApplyPrepare(s, a);
    assert RuleInv(s, a.r, s.rules[a.r]);
    if (a.r, a.key) in s.bindings {
      InForceKept(s, t, Item(a.r, s.bindings[(a.r, a.key)].transition));
    }
  }

  /** An append never finds another content under its transition's name. */
  lemma AppendSucceeds(s: State, item: Item)
    requires LogInv(s) && Issued(s, item)
    ensures Appends(s, item) && Journaled(Appended(s, item), item)
  {
  }

  lemma StepPass(s: State, a: Action, p: Pass)
    requires Inv(s) && Enabled(s, a) && p in Apply(s, a).passes && Extends(s, Apply(s, a))
    ensures PassInv(Apply(s, a), Apply(s, a).passes[p])
  {
    hide RequestInv, AnswerInv, InForce, RuleInv, LogInv, PassInv, Apply, Extends;
    var t := Apply(s, a);
    if a.PassLists? && a.p == p {
      forall i | 0 <= i < |a.todo| ensures Issued(t, a.todo[i]) { ListedIsIssued(s, t, a.todo[i]); }
      ListedKeeps(s, a);
    } else if (a.PassAppends? || a.PassFinalizes?) && a.p == p {
      PassMoves(s, a);
    } else {
      OtherPass(s, a, p);
      PassKept(s, t, s.passes[p]);
    }
  }

  lemma ListedIsIssued(s: State, t: State, item: Item)
    requires Inv(s) && Extends(s, t) && IsPending(s, item)
    ensures Issued(t, item)
  {
    assert RuleInv(s, item.r, s.rules[item.r]);
  }

  lemma ListedKeeps(s: State, a: Action)
    requires a.PassLists? && Enabled(s, a) && forall i :: 0 <= i < |a.todo| ==> Issued(Apply(s, a), a.todo[i])
    ensures PassInv(Apply(s, a), Apply(s, a).passes[a.p])
  {
  }

  lemma PassMoves(s: State, a: Action)
    requires Enabled(s, a) && (a.PassAppends? || a.PassFinalizes?) && LogInv(s) && PassInv(s, s.passes[a.p])
    ensures PassInv(Apply(s, a), Apply(s, a).passes[a.p])
  {
    if a.PassAppends? { AppendSucceeds(s, s.passes[a.p].todo[0]); }
  }

  lemma OtherPass(s: State, a: Action, p: Pass)
    requires Enabled(s, a) && p in Apply(s, a).passes
    requires !((a.PassLists? || a.PassAppends? || a.PassFinalizes?) && a.p == p)
    ensures p in s.passes && Apply(s, a).passes[p] == s.passes[p]
  {
  }

  lemma StepBinding(s: State, a: Action, k: (Recipient, IdempotencyKey))
    requires Inv(s) && Enabled(s, a) && k in Apply(s, a).bindings && Extends(s, Apply(s, a))
    ensures InForce(Apply(s, a), Item(k.0, Apply(s, a).bindings[k].transition))
  {
    hide CutoffJournaled, AnswerInv, InForce, LogInv, RuleInv, Apply, Extends, Finalized, Journaled;
    var t := Apply(s, a);
    if a.RequestFinalizes? || a.PassFinalizes? {
      var item := if a.RequestFinalizes? then s.requests[a.q].item else s.passes[a.p].todo[0];
      assert Journaled(s, item) by {
        if a.RequestFinalizes? { assert RequestInv(s, s.requests[a.q]); } else { assert PassInv(s, s.passes[a.p]); }
      }
      FinalizeStep(s, a);
      if k in s.bindings { InForceKept(s, t, Item(k.0, s.bindings[k].transition)); }
      NewBinding(s, t, item, a.observedAt, k);
    } else {
      BindingsLeft(s, a);
      InForceKept(s, t, Item(k.0, s.bindings[k].transition));
    }
  }

  lemma BindingsLeft(s: State, a: Action)
    requires Enabled(s, a) && !a.RequestFinalizes? && !a.PassFinalizes?
    ensures forall k :: k in Apply(s, a).bindings ==> k in s.bindings && Apply(s, a).bindings[k] == s.bindings[k]
  {
  }

  /** A binding that finalizing made is of a transition now in force. */
  lemma NewBinding(s: State, t: State, item: Item, at: Time, k: (Recipient, IdempotencyKey))
    requires Inv(s) && Journaled(s, item) && Extends(s, t) && t.rules == Finalized(s, item, at).rules
    requires k in Finalized(s, item, at).bindings
    requires k in s.bindings ==> InForce(t, Item(k.0, s.bindings[k].transition))
    ensures InForce(t, Item(k.0, Finalized(s, item, at).bindings[k].transition))
  {
    hide AnswerInv, RequestInv, PassInv, LogInv, CutoffJournaled;
    if item.r < |s.rules| { assert RuleInv(s, item.r, s.rules[item.r]); }
    FinalizedInForce(s, t, item, at);
  }

  lemma StepInv(s: State, a: Action)
    requires Inv(s) && Enabled(s, a)
    ensures Inv(Apply(s, a))
  {
    hide Apply, RuleInv, RequestInv, PassInv, InForce, LogInv;
    StepExtends(s, a);
    StepLog(s, a);
    var t := Apply(s, a);
    forall r | 0 <= r < |t.rules| ensures RuleInv(t, r, t.rules[r]) { StepRule(s, a, r); }
    forall q | q in t.requests ensures RequestInv(t, t.requests[q]) { StepRequest(s, a, q); }
    forall p | p in t.passes ensures PassInv(t, t.passes[p]) { StepPass(s, a, p); }
    forall k | k in t.bindings ensures InForce(t, Item(k.0, t.bindings[k].transition)) { StepBinding(s, a, k); }
  }

  // ----- every run -----

  lemma {:induction false} RunInv(s: State, actions: seq<Action>)
    requires Inv(s) && IsRun(s, actions)
    ensures Inv(After(s, actions)) && Extends(s, After(s, actions))
    decreases |actions|
  {
    hide Inv, Apply;
    if actions == [] {
      ExtendsRefl(s);
    } else {
      StepInv(s, actions[0]);
      StepExtends(s, actions[0]);
      var next := Apply(s, actions[0]);
      RunInv(next, actions[1..]);
      ExtendsTransitive(s, next, After(s, actions));
    }
  }

  lemma ExtendsRefl(s: State)
    ensures Extends(s, s)
  {
  }

  lemma ExtendsTransitive(s: State, t: State, u: State)
    requires Extends(s, t) && Extends(t, u)
    ensures Extends(s, u)
  {
  }

  lemma InitialInv(s: State)
    requires Initial(s)
    ensures Inv(s)
  {
  }

  lemma AnswerIsJournaled(s: State, actions: seq<Action>, q: Request)
    requires Initial(s) && IsRun(s, actions)
    requires q in After(s, actions).requests && After(s, actions).requests[q].Answered?
    ensures var answer := After(s, actions).requests[q].answer;
            !answer.JournalFailure? && AnswerInv(After(s, actions), answer)
  {
    InitialInv(s);
    RunInv(s, actions);
    assert RequestInv(After(s, actions), After(s, actions).requests[q]);
  }

  /** Whenever a change has been acknowledged, the journal holds exactly what was
      acknowledged, and no older change rules the recipient; a rule always says
      what the journal says of the last change it took; and no append is refused. */
  lemma JournalBeforeAcknowledgement(s: State, actions: seq<Action>)
    requires Initial(s) && IsRun(s, actions)
    ensures var t := After(s, actions);
            && (forall q :: q in t.requests && t.requests[q].Answered? ==>
                  !t.requests[q].answer.JournalFailure? && AnswerInv(t, t.requests[q].answer))
            && (forall r :: 0 <= r < |t.rules| && t.rules[r].last.Some? ==>
                  && t.rules[r].last.value in t.journal
                  && var item := t.journal[t.rules[r].last.value];
                     item.r == r && t.rules[r].excluded == item.transition.excluded
                     && t.rules[r].effectiveAt == Some(item.transition.at))
  {
    InitialInv(s);
    RunInv(s, actions);
    var t := After(s, actions);
    forall q | q in t.requests && t.requests[q].Answered?
      ensures !t.requests[q].answer.JournalFailure? && AnswerInv(t, t.requests[q].answer)
    {
      AnswerIsJournaled(s, actions, q);
    }
    forall r | 0 <= r < |t.rules| && t.rules[r].last.Some?
      ensures t.rules[r].last.value in t.journal
      ensures var item := t.journal[t.rules[r].last.value];
              item.r == r && t.rules[r].excluded == item.transition.excluded
              && t.rules[r].effectiveAt == Some(item.transition.at)
    {
      assert RuleInv(t, r, t.rules[r]);
    }
  }

  // ----- restoring an earlier snapshot -----

  /** What `readTransitions` returns for one recipient. */
  ghost predicate ReadsJournal(s: State, r: Recipient, ts: seq<Transition>) {
    && OldestFirst(ts)
    && (forall i :: 0 <= i < |ts| ==> ts[i].id in s.journal && s.journal[ts[i].id] == Item(r, ts[i]))
    && (forall id :: id in s.journal && s.journal[id].r == r ==> s.journal[id].transition in ts)
  }

  lemma NewestIsLast(s: State, r: Recipient, ts: seq<Transition>, id: Id)
    requires ReadsJournal(s, r, ts) && id in s.journal && s.journal[id].r == r
    ensures ts != [] && s.journal[id].transition.at <= ts[|ts| - 1].at
    ensures Greatest(s.journal[id].transition.cutoff, GreatestCutoff(ts)) == GreatestCutoff(ts)
  {
    var i :| 0 <= i < |ts| && ts[i] == s.journal[id].transition;
    assert i < |ts| - 1 ==> ts[i].at <= ts[|ts| - 1].at;
    CutoffIsCovered(ts, i);
  }

  /** A rule true to an earlier journal is not newer than the later one. */
  lemma SnapshotNotNewer(s: State, t: State, r: Recipient, rule: Rule, ts: seq<Transition>)
    requires RuleInv(s, r, rule) && Extends(s, t) && ReadsJournal(t, r, ts) && ts != []
    ensures NotNewer(rule, ts[|ts| - 1].at)
    ensures Greatest(rule.cutoff, GreatestCutoff(ts)) == GreatestCutoff(ts)
  {
    if rule.last.Some? { NewestIsLast(t, r, ts, rule.last.value); }
    if rule.cutoff.Some? {
      var id :| id in s.journal && s.journal[id].r == r && s.journal[id].transition.cutoff == rule.cutoff;
      assert id in t.journal;
      NewestIsLast(t, r, ts, id);
    }
  }

  /** Any earlier snapshot of a rule, replayed from the journal of a later state,
      says the newest journaled change, never one older than what had been
      acknowledged; it keeps every purge cutoff; and replaying over the rule as it
      stood gives the same. So an earlier snapshot cannot restore access. */
  lemma RestoreKeepsAcknowledged(s: State, actions: seq<Action>, r: Recipient, ts: seq<Transition>)
    requires Inv(s) && IsRun(s, actions) && r < |s.rules|
    requires ReadsJournal(After(s, actions), r, ts) && ts != []
    ensures var t, restored := After(s, actions), ReplayAll(s.rules[r], ts);
            && |t.rules| == |s.rules|
            && restored.excluded == ts[|ts| - 1].excluded && restored.last == Some(ts[|ts| - 1].id)
            && restored.cutoff == GreatestCutoff(ts) && restored.pending.None?
            && (forall id :: id in t.journal && t.journal[id].r == r ==> AtLeast(restored, t.journal[id].transition.at))
            && ReplayAll(t.rules[r], ts)
               == restored.(visible := t.rules[r].visible, active := t.rules[r].active)
            && ReplayAll(restored, ts) == restored
  {
    hide AnswerInv, RequestInv, PassInv, InForce, LogInv;
    var t := After(s, actions);
    RunInv(s, actions);
    ExtendsRefl(t);
    SnapshotNotNewer(s, t, r, s.rules[r], ts);
    SnapshotNotNewer(t, t, r, t.rules[r], ts);
    ReplayEndsWithNewest(s.rules[r], ts);
    ReplayForgetsTheSnapshot(s.rules[r], t.rules[r], ts);
    forall id | id in t.journal && t.journal[id].r == r
      ensures AtLeast(ReplayAll(s.rules[r], ts), t.journal[id].transition.at)
    {
      NewestIsLast(t, r, ts, id);
    }
  }
}
