/** Retries of a recipient exclusion: what keeps an idempotency key tied to one
    transition, and exactly what unties it. */
module ExclusionIdempotency {
  import opened Options
  import opened ExclusionRules
  import opened ExclusionProtocol

  type Key = (Recipient, IdempotencyKey)

  /** The transition waits under the key, or is recorded under it. */
  predicate HoldsUnder(s: State, k: Key, t: Transition) {
    || (k in s.bindings && s.bindings[k].transition == t)
    || (k.0 < |s.rules| && s.rules[k.0].pending == Some(Pending(t, k.1)))
  }

  /** The steps that untie a key: a journal replay for the recipient while the
      transition waits under the key, or the purge of the key's binding. */
  predicate Unties(s: State, a: Action, k: Key) {
    || (a.JournalReplayed? && a.id in s.journal && s.journal[a.id].r == k.0 && k.0 < |s.rules|
        && s.rules[k.0].pending.Some? && s.rules[k.0].pending.value.key == k.1)
    || (a.BindingPurged? && (a.r, a.key) == k)
  }

  /** Some step of the run does. */
  predicate Untied(s: State, actions: seq<Action>, k: Key)
    requires IsRun(s, actions)
    decreases |actions|
  {
    actions != [] && (Unties(s, actions[0], k) || Untied(Apply(s, actions[0]), actions[1..], k))
  }

  /** Nothing waits under a key that is already bound. */
  predicate PendingUnbound(s: State) {
    forall r :: 0 <= r < |s.rules| && s.rules[r].pending.Some? ==> (r, s.rules[r].pending.value.key) !in s.bindings
  }

  ghost predicate KeysInv(s: State) {
    Inv(s) && PendingUnbound(s)
  }

  // ----- the transition held under a key -----

  lemma FinalizedHolds(s: State, item: Item, at: Time, k: Key, t: Transition)
    requires PendingUnbound(s)
    ensures PendingUnbound(Finalized(s, item, at))
    ensures HoldsUnder(Finalized(s, item, at), k, t) <==> HoldsUnder(s, k, t)
  {
  }

  lemma PrepareHolds(s: State, a: Action, k: Key, t: Transition)
    requires a.RequestPrepares? && Enabled(s, a) && PendingUnbound(s) && t.id < s.next
    ensures PendingUnbound(ApplyPrepare(s, a))
    ensures HoldsUnder(ApplyPrepare(s, a), k, t) <==> HoldsUnder(s, k, t)
  {
  }

  /** A transition comes to be held under a key only when it is issued, and ceases
      only by an untying step. */
  lemma StepHolds(s: State, a: Action, k: Key, t: Transition)
    requires PendingUnbound(s) && Enabled(s, a) && t.id < s.next
    ensures PendingUnbound(Apply(s, a)) && s.next <= Apply(s, a).next
    ensures HoldsUnder(Apply(s, a), k, t) <==> HoldsUnder(s, k, t) && !Unties(s, a, k)
  {
    hide Finalized, ApplyPrepare, Apply, HoldsUnder, PendingUnbound, Unties;
    match a
    case RequestPrepares(_, _, _, _, _) => PrepareStep(s, a); PrepareHolds(s, a, k, t); PrepareIssues(s, a); NothingUntied(s, a, k);
    case RequestFinalizes(q, at) => FinalizeHolds(s, a, s.requests[q].item, k, t);
    case PassFinalizes(p, at) => FinalizeHolds(s, a, s.passes[p].todo[0], k, t);
    case BindingPurged(r, key) => PurgeHolds(s, a, k, t);
    case JournalReplayed(_) => ReplayHolds(s, a, k, t);
    case AccessChanges(_, _, _) => AccessHolds(s, a, k, t);
    case _ => QuietHolds(s, a, k, t);
  }

  lemma NothingUntied(s: State, a: Action, k: Key)
    requires !a.JournalReplayed? && !a.BindingPurged?
    ensures !Unties(s, a, k)
  {
  }

  lemma FinalizeHolds(s: State, a: Action, item: Item, k: Key, t: Transition)
    requires PendingUnbound(s) && Enabled(s, a) && (a.RequestFinalizes? || a.PassFinalizes?)
    requires item == if a.RequestFinalizes? then s.requests[a.q].item else s.passes[a.p].todo[0]
    ensures PendingUnbound(Apply(s, a)) && s.next <= Apply(s, a).next
    ensures HoldsUnder(Apply(s, a), k, t) <==> HoldsUnder(s, k, t) && !Unties(s, a, k)
  {
    hide Finalized, Apply;
    FinalizeStep(s, a);
    FinalizedHolds(s, item, a.observedAt, k, t);
    FinalizedKeepsNext(s, item, a.observedAt);
  }

  lemma ReplayHolds(s: State, a: Action, k: Key, t: Transition)
    requires PendingUnbound(s) && Enabled(s, a) && a.JournalReplayed?
    ensures PendingUnbound(Apply(s, a)) && s.next <= Apply(s, a).next
    ensures HoldsUnder(Apply(s, a), k, t) <==> HoldsUnder(s, k, t) && !Unties(s, a, k)
  {
  }

  lemma AccessHolds(s: State, a: Action, k: Key, t: Transition)
    requires PendingUnbound(s) && Enabled(s, a) && a.AccessChanges?
    ensures PendingUnbound(Apply(s, a)) && s.next <= Apply(s, a).next
    ensures HoldsUnder(Apply(s, a), k, t) <==> HoldsUnder(s, k, t) && !Unties(s, a, k)
  {
  }

  lemma QuietHolds(s: State, a: Action, k: Key, t: Transition)
    requires PendingUnbound(s) && Enabled(s, a)
    requires a.Tick? || a.RequestAppends? || a.PassLists? || a.PassAppends?
    ensures PendingUnbound(Apply(s, a)) && s.next <= Apply(s, a).next
    ensures HoldsUnder(Apply(s, a), k, t) <==> HoldsUnder(s, k, t) && !Unties(s, a, k)
  {
    QuietLeaves(s, a);
    hide Apply;
  }

  lemma QuietLeaves(s: State, a: Action)
    requires Enabled(s, a) && (a.Tick? || a.RequestAppends? || a.PassLists? || a.PassAppends?)
    ensures Apply(s, a).rules == s.rules && Apply(s, a).bindings == s.bindings && Apply(s, a).next == s.next
  {
    if a.RequestAppends? || a.PassAppends? {
      hide Apply, Appends;
      AppendStep(s, a);
    }
  }

  lemma PrepareIssues(s: State, a: Action)
    requires a.RequestPrepares? && Enabled(s, a)
    ensures s.next <= ApplyPrepare(s, a).next
  {
  }

  lemma FinalizedKeepsNext(s: State, item: Item, at: Time)
    ensures Finalized(s, item, at).next == s.next
  {
  }

  lemma PurgeHolds(s: State, a: Action, k: Key, t: Transition)
    requires a.BindingPurged? && Enabled(s, a) && PendingUnbound(s)
    ensures PendingUnbound(Apply(s, a)) && s.next <= Apply(s, a).next
    ensures HoldsUnder(Apply(s, a), k, t) <==> HoldsUnder(s, k, t) && !Unties(s, a, k)
  {
  }

  /** Over any run: still held exactly when no step untied the key. */
  lemma {:induction false} HeldUnlessUntied(s: State, actions: seq<Action>, k: Key, t: Transition)
    requires KeysInv(s) && IsRun(s, actions) && t.id < s.next
    ensures KeysInv(After(s, actions))
    ensures HoldsUnder(After(s, actions), k, t) <==> HoldsUnder(s, k, t) && !Untied(s, actions, k)
    decreases |actions|
  {
    hide Inv, Apply, Enabled, PendingUnbound, HoldsUnder, Unties;
    if actions != [] {
      StepInv(s, actions[0]);
      StepHolds(s, actions[0], k, t);
      HeldUnlessUntied(Apply(s, actions[0]), actions[1..], k, t);
    }
  }

  /** The request works on the transition, or is told that it was acknowledged. */
  predicate IsAbout(pc: RequestPc, r: Recipient, t: Transition) {
    pc == Appending(Item(r, t)) || pc == Answered(AcknowledgedAgain(t.id, t.excluded))
  }

  lemma HeldIsIssued(s: State, k: Key, t: Transition)
    requires Inv(s) && HoldsUnder(s, k, t)
    ensures t.id < s.next && Issued(s, Item(k.0, t))
  {
    if k.0 < |s.rules| { assert RuleInv(s, k.0, s.rules[k.0]); }
  }

  lemma PreparesAbout(s: State, a: Action, t: Transition)
    requires KeysInv(s) && a.RequestPrepares? && Enabled(s, a) && s.rules[a.r].active && s.rules[a.r].visible
    requires t.id < s.next && Issued(s, Item(a.r, t))
    ensures IsAbout(ApplyPrepare(s, a).requests[a.q], a.r, t) <==> HoldsUnder(s, (a.r, a.key), t)
  {
    hide RequestInv, PassInv;
    assert RuleInv(s, a.r, s.rules[a.r]);
    if (a.r, a.key) in s.bindings {
      assert InForce(s, Item(a.r, s.bindings[(a.r, a.key)].transition));
    }
  }

  lemma IssuedLater(s: State, u: State, item: Item)
    requires Issued(s, item) && Extends(s, u) && LogInv(u)
    ensures Issued(u, item) && item.transition.id < u.next
  {
  }

  /** The exact condition: once a transition is held under a key, a later request
      under it, when the recipient is accessible, is about that transition if and
      only if no journal replay untied it before it was finalized and its binding
      has not been purged. */
  lemma RetryIsReplayIff(s: State, between: seq<Action>, k: Key, t: Transition, a: Action)
    requires KeysInv(s) && HoldsUnder(s, k, t) && IsRun(s, between)
    requires a.RequestPrepares? && Enabled(After(s, between), a) && k == (a.r, a.key)
    requires After(s, between).rules[a.r].active && After(s, between).rules[a.r].visible
    ensures IsAbout(Apply(After(s, between), a).requests[a.q], a.r, t) <==> !Untied(s, between, k)
  {
    hide RequestInv, PassInv, RuleInv, InForce, LogInv;
    HeldIsIssued(s, k, t);
    HeldUnlessUntied(s, between, k, t);
    RunInv(s, between);
    IssuedLater(s, After(s, between), Item(k.0, t));
    PreparesAbout(After(s, between), a, t);
  }

  // ----- acknowledgements under one key -----

  /** What a request of this key knows of the transition it works on or was
      answered with. */
  predicate KeyInv(s: State, q: Request, k: Key) {
    q in s.requests ==>
      q in s.asked &&
      (s.asked[q] == k ==>
         match s.requests[q]
         case Appending(item) => item.r == k.0 && HoldsUnder(s, k, item.transition)
         case Finalizing(item) => item.r == k.0 && HoldsUnder(s, k, item.transition)
         case Answered(Acknowledged(id, _)) => k in s.bindings && s.bindings[k].transition.id == id
         case Answered(AcknowledgedAgain(id, _)) => k in s.bindings && s.bindings[k].transition.id == id
         case _ => true)
  }

  ghost predicate RequestsInv(s: State, k: Key) {
    KeysInv(s) && forall q :: q in s.requests ==> KeyInv(s, q, k)
  }

  lemma FinalizedKeepsBinding(s: State, item: Item, at: Time, k: Key)
    requires k in s.bindings
    ensures k in Finalized(s, item, at).bindings && Finalized(s, item, at).bindings[k] == s.bindings[k]
  {
  }

  lemma BoundStays(s: State, a: Action, k: Key)
    requires Enabled(s, a) && !Unties(s, a, k) && k in s.bindings
    ensures k in Apply(s, a).bindings && Apply(s, a).bindings[k] == s.bindings[k]
  {
    hide Finalized;
    match a
    case RequestFinalizes(q, at) => FinalizedKeepsBinding(s, s.requests[q].item, at, k);
    case PassFinalizes(p, at) => FinalizedKeepsBinding(s, s.passes[p].todo[0], at, k);
    case _ =>
  }

  /** A request is acknowledged only with what is bound under its key. */
  lemma FinalizedUnderKey(s: State, q: Request, at: Time, k: Key)
    requires RequestsInv(s, k) && q in s.requests && s.requests[q].Finalizing? && q in s.asked && s.asked[q] == k
    ensures var item, t := s.requests[q].item, Finalized(s, s.requests[q].item, at);
            FinalizeAnswer(s, item).Acknowledged? ==> k in t.bindings && t.bindings[k].transition == item.transition
  {
    hide RequestInv, PassInv, InForce, CutoffJournaled, LogInv;
    var item := s.requests[q].item;
    assert KeyInv(s, q, k);
    if item.r < |s.rules| { assert RuleInv(s, item.r, s.rules[item.r]); }
  }

  lemma OldRequestKept(s: State, a: Action, q: Request, k: Key)
    requires RequestsInv(s, k) && Enabled(s, a) && !Unties(s, a, k)
    requires q in s.requests && q in Apply(s, a).requests && Apply(s, a).requests[q] == s.requests[q]
    requires q in Apply(s, a).asked && (q in s.asked ==> Apply(s, a).asked[q] == s.asked[q])
    ensures KeyInv(Apply(s, a), q, k)
  {
    hide Inv, Apply, Enabled, Unties, PendingUnbound, HoldsUnder;
    assert KeyInv(s, q, k);
    if s.asked[q] == k {
      match s.requests[q]
      case Appending(item) => HeldStays(s, a, k, item.transition);
      case Finalizing(item) => HeldStays(s, a, k, item.transition);
      case Answered(_) => if k in s.bindings { BoundStays(s, a, k); }
    }
  }

  lemma HeldStays(s: State, a: Action, k: Key, t: Transition)
    requires KeysInv(s) && Enabled(s, a) && !Unties(s, a, k) && HoldsUnder(s, k, t)
    ensures HoldsUnder(Apply(s, a), k, t)
  {
    hide Apply, Enabled, Unties, HoldsUnder;
    HeldIsIssued(s, k, t);
    StepHolds(s, a, k, t);
  }

  lemma PreparedUnderKey(s: State, a: Action, k: Key)
    requires a.RequestPrepares? && Enabled(s, a)
    ensures KeyInv(ApplyPrepare(s, a), a.q, k)
  {
  }

  lemma AppendedUnderKey(s: State, q: Request, k: Key)
    requires RequestsInv(s, k) && Enabled(s, RequestAppends(q))
    ensures KeyInv(Apply(s, RequestAppends(q)), q, k)
  {
    hide Inv, HoldsUnder, PendingUnbound;
    assert KeyInv(s, q, k);
    if s.asked[q] == k { HeldStays(s, RequestAppends(q), k, s.requests[q].item.transition); }
  }

  lemma AnsweredUnderKey(s: State, q: Request, at: Time, k: Key)
    requires RequestsInv(s, k) && Enabled(s, RequestFinalizes(q, at))
    ensures KeyInv(Apply(s, RequestFinalizes(q, at)), q, k)
  {
    hide Inv, HoldsUnder, PendingUnbound, Finalized;
    assert KeyInv(s, q, k);
    FinalizedLeavesRequests(s, s.requests[q].item, at);
    if s.asked[q] == k { FinalizedUnderKey(s, q, at, k); }
  }

  lemma StepKey(s: State, a: Action, q: Request, k: Key)
    requires RequestsInv(s, k) && Enabled(s, a) && !Unties(s, a, k) && q in Apply(s, a).requests
    ensures KeyInv(Apply(s, a), q, k)
  {
    hide Inv, PendingUnbound, Apply, Enabled, Unties, KeyInv, HoldsUnder;
    if By(a, q) {
      match a
      case RequestPrepares(_, _, _, _, _) => PreparesUnderKey(s, a, k);
      case RequestAppends(_) => AppendedUnderKey(s, q, k);
      case RequestFinalizes(_, at) => AnsweredUnderKey(s, q, at, k);
    } else {
      OtherLeavesAlone(s, a, q);
      AskedWhenRequested(s, q, k);
      OldRequestKept(s, a, q, k);
    }
  }

  lemma PreparesUnderKey(s: State, a: Action, k: Key)
    requires a.RequestPrepares? && Enabled(s, a)
    ensures KeyInv(Apply(s, a), a.q, k)
  {
    PreparedUnderKey(s, a, k);
  }

  lemma AskedWhenRequested(s: State, q: Request, k: Key)
    requires RequestsInv(s, k) && q in s.requests
    ensures q in s.asked
  {
    assert KeyInv(s, q, k);
  }

  lemma {:induction false} RunKey(s: State, actions: seq<Action>, k: Key)
    requires RequestsInv(s, k) && IsRun(s, actions) && !Untied(s, actions, k)
    ensures RequestsInv(After(s, actions), k)
    decreases |actions|
  {
    hide Inv, Apply, Enabled, PendingUnbound, KeyInv, Unties;
    if actions != [] {
      var a, t := actions[0], Apply(s, actions[0]);
      StepInv(s, a);
      StepKeepsUnbound(s, a);
      forall q | q in t.requests ensures KeyInv(t, q, k) { StepKey(s, a, q, k); }
      RunKey(t, actions[1..], k);
    }
  }

  lemma StepKeepsUnbound(s: State, a: Action)
    requires PendingUnbound(s) && Enabled(s, a)
    ensures PendingUnbound(Apply(s, a))
  {
    hide Finalized, ApplyPrepare;
    match a
    case RequestPrepares(_, _, _, _, _) => PrepareKeepsUnbound(s, a);
    case RequestFinalizes(q, at) => FinalizedKeepsUnbound(s, s.requests[q].item, at);
    case PassFinalizes(p, at) => FinalizedKeepsUnbound(s, s.passes[p].todo[0], at);
    case _ =>
  }

  lemma PrepareKeepsUnbound(s: State, a: Action)
    requires a.RequestPrepares? && Enabled(s, a) && PendingUnbound(s)
    ensures PendingUnbound(ApplyPrepare(s, a))
  {
  }

  lemma FinalizedKeepsUnbound(s: State, item: Item, at: Time)
    requires PendingUnbound(s)
    ensures PendingUnbound(Finalized(s, item, at))
  {
  }

  /** However often a change is requested under one key, by whatever requests and
      passes it is carried through: unless the key was untied in between, every
      acknowledgement is of one transition. */
  lemma SameKeySameTransition(s: State, actions: seq<Action>, p: Request, q: Request)
    requires Initial(s) && IsRun(s, actions)
    requires var t := After(s, actions);
             && p in t.requests && t.requests[p].Answered? && q in t.requests && t.requests[q].Answered?
             && (t.requests[p].answer.Acknowledged? || t.requests[p].answer.AcknowledgedAgain?)
             && (t.requests[q].answer.Acknowledged? || t.requests[q].answer.AcknowledgedAgain?)
             && p in t.asked && q in t.asked && t.asked[p] == t.asked[q]
    ensures !Untied(s, actions, After(s, actions).asked[p]) ==>
              After(s, actions).requests[p].answer.id == After(s, actions).requests[q].answer.id
  {
    hide RequestInv, PassInv, RuleInv, InForce, LogInv;
    InitialInv(s);
    var t := After(s, actions);
    var k := t.asked[p];
    if !Untied(s, actions, k) {
      RunKey(s, actions, k);
      assert KeyInv(t, p, k) && KeyInv(t, q, k);
    }
  }

  // ----- both ways to a second transition are there -----

  const NO_CHANGE := Rule(false, None, None, None, None, true, true)
  const START := State(5, [NO_CHANGE], map[], map[], 0, map[], map[], map[], map[])

  function Change(q: Request, r: Recipient, key: IdempotencyKey, excluded: bool, t: Time): seq<Action> {
    [RequestPrepares(q, r, key, excluded, !excluded), RequestAppends(q), RequestFinalizes(q, t)]
  }

  /** A change that nothing disturbs: prepared, appended, finalized and bound. */
  lemma UndisturbedChange(s: State, q: Request, r: Recipient, key: IdempotencyKey, excluded: bool)
    requires r < |s.rules| && s.rules[r].active && s.rules[r].visible && s.rules[r].pending.None?
    requires s.rules[r].excluded != excluded && (r, key) !in s.bindings && q !in s.requests && s.next !in s.journal
    ensures var run := Change(q, r, key, excluded, s.now);
            && IsRun(s, run)
            && var t := After(s, run);
               && t.now == s.now && t.requests == s.requests[q := Answered(Acknowledged(s.next, excluded))]
               && t.asked == s.asked[q := (r, key)] && t.next == s.next + 1
               && t.journal.Keys == s.journal.Keys + {s.next} && t.bindings.Keys == s.bindings.Keys + {(r, key)}
               && t.bindings[(r, key)].transition.id == s.next
               && t.bindings[(r, key)].expiresAt == s.now + BINDING_LIFE
               && |t.rules| == |s.rules| && t.rules[r].active && t.rules[r].visible && t.rules[r].pending.None?
               && t.rules[r].excluded == excluded
  {
    var a, b, c := RequestPrepares(q, r, key, excluded, !excluded), RequestAppends(q), RequestFinalizes(q, s.now);
    FreshPrepare(s, q, r, key, excluded);
    var s1 := Apply(s, a);
    FreshAppend(s1, q);
    var s2 := Apply(s1, b);
    FreshFinalize(s2, q);
    hide Apply, Enabled, IsRun, After;
    RunOfThree(s, a, b, c);
  }

  lemma FreshPrepare(s: State, q: Request, r: Recipient, key: IdempotencyKey, excluded: bool)
    requires r < |s.rules| && s.rules[r].active && s.rules[r].visible && s.rules[r].pending.None?
    requires s.rules[r].excluded != excluded && (r, key) !in s.bindings && q !in s.requests
    ensures var a := RequestPrepares(q, r, key, excluded, !excluded);
            && Enabled(s, a)
            && var t := Apply(s, a);
               && t.now == s.now && t.next == s.next + 1 && t.journal == s.journal && t.bindings == s.bindings
               && t.asked == s.asked[q := (r, key)] && |t.rules| == |s.rules|
               && q in t.requests && t.requests[q].Appending? && t.requests[q].item.r == r
               && t.requests == s.requests[q := t.requests[q]]
               && t.requests[q].item.transition.id == s.next && t.requests[q].item.transition.excluded == excluded
               && t.rules[r] == s.rules[r].(pending := Some(Pending(t.requests[q].item.transition, key)))
  {
  }

  lemma FreshAppend(s: State, q: Request)
    requires q in s.requests && s.requests[q].Appending? && s.requests[q].item.transition.id !in s.journal
    ensures Enabled(s, RequestAppends(q))
    ensures var item := s.requests[q].item;
            Apply(s, RequestAppends(q)) ==
            s.(journal := s.journal[item.transition.id := item], requests := s.requests[q := Finalizing(item)])
  {
  }

  lemma FreshFinalize(s: State, q: Request)
    requires q in s.requests && s.requests[q].Finalizing? && s.requests[q].item.r < |s.rules|
    requires var rule := s.rules[s.requests[q].item.r];
             && rule.active && rule.visible && rule.pending.Some?
             && rule.pending.value.transition == s.requests[q].item.transition
             && (s.requests[q].item.r, rule.pending.value.key) !in s.bindings
    ensures Enabled(s, RequestFinalizes(q, s.now))
    ensures var item := s.requests[q].item;
            var rule := s.rules[item.r];
            Apply(s, RequestFinalizes(q, s.now)) ==
            s.(rules := s.rules[item.r := Adopt(rule, item.transition)],
               bindings := s.bindings[(item.r, rule.pending.value.key) := Binding(item.transition, s.now + BINDING_LIFE)],
               requests := s.requests[q := Answered(Acknowledged(item.transition.id, item.transition.excluded))])
  {
  }

  /** Exclude under key 7, with a replay between append and finalize. */
  const REPLAYED := [RequestPrepares(0, 0, 7, true, false), RequestAppends(0), JournalReplayed(0), RequestFinalizes(0, 5)]

  lemma AfterReplayed()
    ensures IsRun(START, REPLAYED)
    ensures var t := After(START, REPLAYED);
            && t.now == 5 && t.requests == map[0 := Answered(Acknowledged(0, true))] && t.asked == map[0 := (0, 7)]
            && t.next == 1 && t.journal.Keys == {0} && t.bindings == map[] && |t.rules| == 1
            && t.rules[0].active && t.rules[0].visible && t.rules[0].pending.None? && t.rules[0].excluded
  {
    var s1 := Apply(START, REPLAYED[0]);
    assert s1.requests[0].Appending?;
    var s2 := Apply(s1, REPLAYED[1]);
    assert s2.requests[0].Finalizing?;
    RunOfThree(s1, REPLAYED[1], REPLAYED[2], REPLAYED[3]);
    assert REPLAYED[1..] == [REPLAYED[1], REPLAYED[2], REPLAYED[3]];
  }

  /** A journal replay between append and finalize acknowledges the change without
      binding its key, so the same key can later make a second change. */
  lemma ReplayForgetsKey()
    ensures var run := REPLAYED + (Change(1, 0, 8, false, 5) + Change(2, 0, 7, true, 5));
            && Initial(START) && IsRun(START, run)
            && var t := After(START, run);
               && 0 in t.requests && 2 in t.requests && 0 in t.asked && 2 in t.asked && t.asked[0] == t.asked[2]
               && t.requests[0] == Answered(Acknowledged(0, true)) && t.requests[2] == Answered(Acknowledged(2, true))
  {
    hide IsRun, After, Apply, Enabled;
    AfterReplayed();
    var s1 := After(START, REPLAYED);
    UndisturbedChange(s1, 1, 0, 8, false);
    UndisturbedChange(After(s1, Change(1, 0, 8, false, 5)), 2, 0, 7, true);
    RunConcat(s1, Change(1, 0, 8, false, 5), Change(2, 0, 7, true, 5));
    RunConcat(START, REPLAYED, Change(1, 0, 8, false, 5) + Change(2, 0, 7, true, 5));
  }

  /** The binding of a key, gone 90 days after it was made. */
  function Purging(t: Time): seq<Action> {
    [Tick(t), BindingPurged(0, 7)]
  }

  lemma AfterPurging(s: State, t: Time)
    requires (0, 7) in s.bindings && s.bindings[(0, 7)].expiresAt <= t && s.now <= t
    ensures IsRun(s, Purging(t))
    ensures After(s, Purging(t)) == s.(now := t, bindings := s.bindings - {(0, 7)})
  {
    RunOfTwo(s, Tick(t), BindingPurged(0, 7));
  }

  /** Nor does a purged binding keep its key: without any replay, the retry of a
      change 90 days later is a second change. */
  lemma PurgeForgetsKey()
    ensures var later := 5 + BINDING_LIFE;
            var run := (Change(0, 0, 7, true, 5) + Purging(later))
                       + (Change(1, 0, 8, false, later) + Change(2, 0, 7, true, later));
            && Initial(START) && IsRun(START, run)
            && var t := After(START, run);
               && 0 in t.requests && 2 in t.requests && 0 in t.asked && 2 in t.asked && t.asked[0] == t.asked[2]
               && t.requests[0] == Answered(Acknowledged(0, true)) && t.requests[2] == Answered(Acknowledged(2, true))
  {
    hide IsRun, After, Apply, Enabled, Change, Purging;
    var later := 5 + BINDING_LIFE;
    var a, b, c := Change(0, 0, 7, true, 5) + Purging(later), Change(1, 0, 8, false, later), Change(2, 0, 7, true, later);
    AfterPurged(later);
    var s2 := After(START, a);
    UndisturbedChange(s2, 1, 0, 8, false);
    UndisturbedChange(After(s2, b), 2, 0, 7, true);
    RunConcat(s2, b, c);
    RunConcat(START, a, b + c);
  }

  lemma AfterPurged(later: Time)
    requires later == 5 + BINDING_LIFE
    ensures IsRun(START, Change(0, 0, 7, true, 5) + Purging(later))
    ensures var t := After(START, Change(0, 0, 7, true, 5) + Purging(later));
            && t.now == later && t.requests == map[0 := Answered(Acknowledged(0, true))] && t.asked == map[0 := (0, 7)]
            && t.next == 1 && t.journal.Keys == {0} && t.bindings == map[] && |t.rules| == 1
            && t.rules[0].active && t.rules[0].visible && t.rules[0].pending.None? && t.rules[0].excluded
  {
    hide IsRun, After, Apply, Enabled, Change, Purging;
    UndisturbedChange(START, 0, 0, 7, true);
    var s1 := After(START, Change(0, 0, 7, true, 5));
    AfterPurging(s1, later);
    RunConcat(START, Change(0, 0, 7, true, 5), Purging(later));
  }
}
