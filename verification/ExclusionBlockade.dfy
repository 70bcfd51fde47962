/** A reachable state in which the recovery pass is stuck: the first hundred waiting
    transitions belong to inactive accounts, and one of an active account waits
    behind them. */
module ExclusionBlockade {
  import opened Options
  import opened ExclusionRules
  import opened ExclusionProtocol
  import opened ExclusionRecovery
  import opened Sorting

  const NO_CHANGE := Rule(false, None, None, None, None, true, true)

  function Waiting(r: nat): Transition {
    Transition(r, true, 5, Some(5))
  }

  /** Recipients below n wait, those below m of an inactive account. */
  function Rules(n: nat, m: nat): (rules: seq<Rule>)
    ensures |rules| == LIMIT + 1
  {
    seq(LIMIT + 1, r requires 0 <= r < LIMIT + 1 =>
      if r < n then NO_CHANGE.(pending := Some(Pending(Waiting(r), 7)), active := r >= m) else NO_CHANGE)
  }

  const START := State(5, Rules(0, 0), map[], map[], 0, map[], map[], map[], map[])

  ghost predicate HasBlocked(s: State, n: nat) {
    && s.now == 5 && s.next == n && s.bindings == map[] && s.rules == Rules(n, n)
    && forall q :: q in s.requests ==> q < n
  }

  /** Prepare for every recipient, then deactivate its account. */
  function Blocking(n: nat): seq<Action> {
    if n == 0 then []
    else Blocking(n - 1) + [RequestPrepares(n - 1, n - 1, 7, true, false), AccessChanges(n - 1, true, false)]
  }

  lemma BlockOne(s: State, n: nat)
    requires HasBlocked(s, n) && n <= LIMIT
    ensures var run := [RequestPrepares(n, n, 7, true, false), AccessChanges(n, true, false)];
            IsRun(s, run) && HasBlocked(After(s, run), n + 1)
  {
    var a, b := RequestPrepares(n, n, 7, true, false), AccessChanges(n, true, false);
    var s1 := Apply(s, a);
    var s2 := Apply(s1, b);
    RunOfTwo(s, a, b);
    assert s2.rules == Rules(n + 1, n + 1);
  }

  lemma {:induction false} BlockingRuns(n: nat)
    requires n <= LIMIT
    ensures IsRun(START, Blocking(n)) && HasBlocked(After(START, Blocking(n)), n)
  {
    hide Apply, Enabled;
    if n > 0 {
      BlockingRuns(n - 1);
      BlockOne(After(START, Blocking(n - 1)), n - 1);
      RunConcat(START, Blocking(n - 1), [RequestPrepares(n - 1, n - 1, 7, true, false), AccessChanges(n - 1, true, false)]);
    }
  }

  const LAST := RequestPrepares(LIMIT, LIMIT, 7, true, false)

  lemma LastWaits(s: State)
    requires HasBlocked(s, LIMIT)
    ensures IsRun(s, [LAST]) && After(s, [LAST]).rules == Rules(LIMIT + 1, LIMIT)
  {
    var s1 := Apply(s, LAST);
    OneAction(s, LAST);
    assert s1.rules == Rules(LIMIT + 1, LIMIT);
  }

  function InOrder(): (items: seq<Item>)
    ensures |items| == LIMIT + 1 && forall r :: 0 <= r < LIMIT + 1 ==> items[r] == Item(r, Waiting(r))
  {
    seq(LIMIT + 1, r requires 0 <= r < LIMIT + 1 => Item(r, Waiting(r)))
  }

  lemma OneWaits(r: nat, t: Time)
    requires r < LIMIT + 1 && 5 <= t
    ensures var rule := Rules(LIMIT + 1, LIMIT)[r];
            Eligible(rule, t) && rule.pending.value.transition == Waiting(r) && (rule.active <==> r == LIMIT)
  {
  }

  lemma IdsAreUnique()
    ensures UniqueIds(Rules(LIMIT + 1, LIMIT))
  {
    hide Rules;
    var rules := Rules(LIMIT + 1, LIMIT);
    forall r | 0 <= r < |rules| ensures rules[r].pending.Some? && rules[r].pending.value.transition.id == r {
      OneWaits(r, 5);
    }
  }

  lemma BlockedQueue(t: Time)
    requires 5 <= t
    ensures UniqueIds(Rules(LIMIT + 1, LIMIT)) && Queue(Rules(LIMIT + 1, LIMIT), t) == InOrder()
  {
    hide Rules, Queue, InOrder, UniqueIds;
    var rules, queue := Rules(LIMIT + 1, LIMIT), Queue(Rules(LIMIT + 1, LIMIT), t);
    IdsAreUnique();
    QueueIsSorted(rules, t);
    assert Ascending(Compare, InOrder());
    hide OrderOn, Ascending, Compare, Eligible;
    forall x ensures x in InOrder() <==> x in queue {
      if x.r < LIMIT + 1 { OneWaits(x.r, t); assert InOrder()[x.r] == Item(x.r, Waiting(x.r)); }
    }
    AscendingIsUnique(Compare, queue, InOrder());
  }

  lemma ListedAreInactive(x: Item, t: Time)
    requires 5 <= t && x in Listing(Rules(LIMIT + 1, LIMIT), t)
    ensures x.r < LIMIT && !Rules(LIMIT + 1, LIMIT)[x.r].active
  {
    hide Rules, Queue, InOrder;
    BlockedQueue(t);
    var i :| 0 <= i < LIMIT && InOrder()[..LIMIT][i] == x;
    OneWaits(i, t);
  }

  /** Whatever number of passes follows, nothing changes, although the last
      transition is eligible and its account active. */
  lemma PassesAreStuck(k: nat, t: Time)
    requires 5 <= t
    ensures var run := Blocking(LIMIT) + [LAST];
            && Initial(START) && IsRun(START, run)
            && var rules := After(START, run).rules;
               && Passes(rules, t, k) == rules
               && |rules| == LIMIT + 1 && Eligible(rules[LIMIT], t) && rules[LIMIT].active
  {
    hide IsRun, After, Apply, Enabled;
    BlockingRuns(LIMIT);
    LastWaits(After(START, Blocking(LIMIT)));
    RunConcat(START, Blocking(LIMIT), [LAST]);
    StuckPasses(k, t);
  }

  lemma {:induction false} StuckPasses(k: nat, t: Time)
    requires 5 <= t
    ensures Passes(Rules(LIMIT + 1, LIMIT), t, k) == Rules(LIMIT + 1, LIMIT)
  {
    hide PassRules, Queue, Listing;
    BlockedQueue(t);
    forall x | x in Listing(Rules(LIMIT + 1, LIMIT), t) ensures x.r < LIMIT && !Rules(LIMIT + 1, LIMIT)[x.r].active {
      ListedAreInactive(x, t);
    }
    PassAdvancesIff(Rules(LIMIT + 1, LIMIT), t);
    if k > 0 { StuckPasses(k - 1, t); }
  }
}
