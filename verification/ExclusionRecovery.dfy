/** The recovery pass over prepared but unfinished transitions: which ones one
    pass completes, what it leaves, and what a crash or a repetition changes. */
module ExclusionRecovery {
  import opened Options
  import opened ExclusionRules
  import opened ExclusionProtocol
  import opened Sorting

  const LIMIT: nat := 100

  /** The condition of `list_pending_whatsapp_recipient_exclusions`: it asks for a
      connection that is not being deleted, but not for an active account. */
  predicate Eligible(rule: Rule, observedAt: Time) {
    rule.visible && rule.pending.Some? && rule.pending.value.transition.at <= observedAt
  }

  function EligibleAmong(rules: seq<Rule>, observedAt: Time, n: nat): (items: seq<Item>)
    requires n <= |rules|
    ensures forall x :: x in items <==>
              x.r < n && Eligible(rules[x.r], observedAt) && rules[x.r].pending.value.transition == x.transition
    ensures Distinct(items)
  {
    if n == 0 then []
    else
      var before := EligibleAmong(rules, observedAt, n - 1);
      if Eligible(rules[n - 1], observedAt) then before + [Item(n - 1, rules[n - 1].pending.value.transition)] else before
  }

  function Compare(a: Item, b: Item): int {
    if a.transition.at != b.transition.at then a.transition.at - b.transition.at
    else a.transition.id - b.transition.id
  }

  /** All that is eligible, in the order of the listing. */
  function Queue(rules: seq<Rule>, observedAt: Time): seq<Item> {
    Sort(Compare, EligibleAmong(rules, observedAt, |rules|))
  }

  function Listing(rules: seq<Rule>, observedAt: Time): seq<Item> {
    var queue := Queue(rules, observedAt);
    if |queue| <= LIMIT then queue else queue[..LIMIT]
  }

  /** No two recipients wait under one transition id. */
  ghost predicate UniqueIds(rules: seq<Rule>) {
    forall r, q ::
      0 <= r < |rules| && 0 <= q < |rules| && rules[r].pending.Some? && rules[q].pending.Some?
      && rules[r].pending.value.transition.id == rules[q].pending.value.transition.id
      ==> r == q
  }

  lemma InvUniqueIds(s: State)
    requires Inv(s)
    ensures UniqueIds(s.rules)
  {
    hide LogInv, RequestInv, PassInv, InForce, CutoffJournaled;
    forall r, q | 0 <= r < |s.rules| && 0 <= q < |s.rules| && s.rules[r].pending.Some? && s.rules[q].pending.Some?
        && s.rules[r].pending.value.transition.id == s.rules[q].pending.value.transition.id
      ensures r == q
    {
      assert RuleInv(s, r, s.rules[r]) && RuleInv(s, q, s.rules[q]);
    }
  }

  lemma QueueIsSorted(rules: seq<Rule>, observedAt: Time)
    requires UniqueIds(rules)
    ensures var queue := Queue(rules, observedAt);
            && OrderOn(Compare, queue) && Ascending(Compare, queue)
            && (forall x :: x in queue <==>
                  x.r < |rules| && Eligible(rules[x.r], observedAt) && rules[x.r].pending.value.transition == x.transition)
  {
    var all := EligibleAmong(rules, observedAt, |rules|);
    assert OrderOn(Compare, all);
    SortSorts(Compare, all);
    SortKeeps(Compare, all);
    OrderOnPart(Compare, all, Queue(rules, observedAt));
  }

  /** A pass lists the first hundred of the transitions prepared by the observed time on
      connections that are not being deleted, oldest first and by id at the same time. */
  lemma ListingIs(rules: seq<Rule>, observedAt: Time)
    requires UniqueIds(rules)
    ensures var queue := Queue(rules, observedAt);
            && Listing(rules, observedAt) == (if |queue| <= 100 then queue else queue[..100])
            && (forall x :: x in queue <==>
                  && x.r < |rules| && rules[x.r].visible && rules[x.r].pending.Some?
                  && rules[x.r].pending.value.transition == x.transition && x.transition.at <= observedAt)
            && (forall i, j :: 0 <= i < j < |queue| ==>
                  var a, b := queue[i].transition, queue[j].transition; a.at < b.at || (a.at == b.at && a.id < b.id))
  {
    hide Queue;
    QueueIsSorted(rules, observedAt);
  }

  // ----- what a pass does -----

  function FinalizeEach(rules: seq<Rule>, items: seq<Item>): (done: seq<Rule>)
    ensures |done| == |rules|
    decreases |items|
  {
    if items == [] then rules
    else
      var item := items[0];
      FinalizeEach(if item.r < |rules| then rules[item.r := Finalize(rules[item.r], item.transition.id).0] else rules, items[1..])
  }

  function AppendEach(journal: map<Id, Item>, items: seq<Item>): map<Id, Item>
    decreases |items|
  {
    if items == [] then journal else AppendEach(journal[items[0].transition.id := items[0]], items[1..])
  }

  ghost predicate OnePerRecipient(items: seq<Item>) {
    forall i, j :: 0 <= i < j < |items| ==> items[i].r != items[j].r
  }

  lemma {:induction false} FinalizeEachAt(rules: seq<Rule>, items: seq<Item>, r: Recipient)
    requires OnePerRecipient(items) && r < |rules|
    ensures forall i :: 0 <= i < |items| && items[i].r == r ==>
              FinalizeEach(rules, items)[r] == Finalize(rules[r], items[i].transition.id).0
    ensures (forall i :: 0 <= i < |items| ==> items[i].r != r) ==> FinalizeEach(rules, items)[r] == rules[r]
    decreases |items|
  {
    if items != [] {
      var item := items[0];
      var next := if item.r < |rules| then rules[item.r := Finalize(rules[item.r], item.transition.id).0] else rules;
      assert forall i :: 0 <= i < |items| - 1 ==> items[1..][i] == items[i + 1];
      FinalizeEachAt(next, items[1..], r);
      assert FinalizeEach(rules, items) == FinalizeEach(next, items[1..]);
      forall i | 0 <= i < |items| && items[i].r == r
        ensures FinalizeEach(rules, items)[r] == Finalize(rules[r], items[i].transition.id).0
      {
        if i > 0 { assert items[1..][i - 1] == items[i]; }
      }
    }
  }

  lemma {:induction false} AppendEachHolds(journal: map<Id, Item>, items: seq<Item>)
    requires forall i :: 0 <= i < |items| && items[i].transition.id in journal ==> journal[items[i].transition.id] == items[i]
    requires forall i, j :: 0 <= i < j < |items| ==> items[i].transition.id != items[j].transition.id
    ensures forall id :: id in AppendEach(journal, items) <==>
              id in journal || exists i :: 0 <= i < |items| && items[i].transition.id == id
    ensures forall id :: id in journal ==> AppendEach(journal, items)[id] == journal[id]
    ensures forall i :: 0 <= i < |items| ==> AppendEach(journal, items)[items[i].transition.id] == items[i]
    decreases |items|
  {
    if items != [] {
      var next := journal[items[0].transition.id := items[0]];
      assert forall i :: 0 <= i < |items| - 1 ==> items[1..][i] == items[i + 1];
      AppendEachHolds(next, items[1..]);
      forall i | 0 <= i < |items|
        ensures items[i].transition.id in AppendEach(journal, items)
        ensures AppendEach(journal, items)[items[i].transition.id] == items[i]
      {
        if i > 0 { assert items[1..][i - 1] == items[i]; }
      }
      forall id ensures id in AppendEach(journal, items) <==>
              id in journal || exists i :: 0 <= i < |items| && items[i].transition.id == id
      {
        if i :| 0 <= i < |items| && items[i].transition.id == id {
          if i > 0 { assert items[1..][i - 1].transition.id == id; }
        }
      }
    }
  }

  function PassRules(rules: seq<Rule>, observedAt: Time): seq<Rule> {
    FinalizeEach(rules, Listing(rules, observedAt))
  }

  /** One recipient after a pass that listed it. */
  function Recovered(rule: Rule, observedAt: Time): Rule {
    if Eligible(rule, observedAt) && rule.active then Adopt(rule, rule.pending.value.transition) else rule
  }

  predicate IsListed(rules: seq<Rule>, observedAt: Time, r: Recipient)
    requires r < |rules|
  {
    Eligible(rules[r], observedAt) && Item(r, rules[r].pending.value.transition) in Listing(rules, observedAt)
  }

  lemma QueueOnePerRecipient(rules: seq<Rule>, observedAt: Time)
    requires UniqueIds(rules)
    ensures OnePerRecipient(Queue(rules, observedAt))
  {
    hide Queue, OrderOn;
    QueueIsSorted(rules, observedAt);
    var queue := Queue(rules, observedAt);
    forall i, j | 0 <= i < j < |queue| ensures queue[i].r != queue[j].r {
      assert queue[i] in queue && queue[j] in queue;
      assert Compare(queue[i], queue[j]) < 0;
    }
  }

  /** The rules when the first k of the queue are finalized. */
  function Taken(rules: seq<Rule>, observedAt: Time, k: nat): (done: seq<Rule>)
    requires k <= |Queue(rules, observedAt)|
    ensures |done| == |rules|
  {
    FinalizeEach(rules, Queue(rules, observedAt)[..k])
  }

  lemma TakenAt(rules: seq<Rule>, observedAt: Time, k: nat, r: Recipient)
    requires UniqueIds(rules) && r < |rules| && k <= |Queue(rules, observedAt)|
    ensures Taken(rules, observedAt, k)[r] ==
            if Eligible(rules[r], observedAt) && Item(r, rules[r].pending.value.transition) in Queue(rules, observedAt)[..k]
            then Recovered(rules[r], observedAt) else rules[r]
  {
    hide Queue, FinalizeEach, OrderOn, Ascending;
    var queue := Queue(rules, observedAt);
    QueueIsSorted(rules, observedAt);
    QueueOnePerRecipient(rules, observedAt);
    FinalizeEachAt(rules, queue[..k], r);
    if Eligible(rules[r], observedAt) && Item(r, rules[r].pending.value.transition) in queue[..k] {
      var i :| 0 <= i < k && queue[..k][i] == Item(r, rules[r].pending.value.transition);
    } else {
      forall i | 0 <= i < k ensures queue[..k][i].r != r {
        assert queue[..k][i] in queue;
      }
    }
  }

  lemma PassTakes(rules: seq<Rule>, observedAt: Time)
    ensures var queue := Queue(rules, observedAt);
            var k := if |queue| <= LIMIT then |queue| else LIMIT;
            Listing(rules, observedAt) == queue[..k] && PassRules(rules, observedAt) == Taken(rules, observedAt, k)
  {
    hide Queue, FinalizeEach;
    var queue := Queue(rules, observedAt);
    assert queue[..|queue|] == queue;
  }

  lemma PassAt(rules: seq<Rule>, observedAt: Time, r: Recipient)
    requires UniqueIds(rules) && r < |rules|
    ensures PassRules(rules, observedAt)[r] ==
            if IsListed(rules, observedAt, r) then Recovered(rules[r], observedAt) else rules[r]
  {
    hide Queue, Listing, PassRules, Taken;
    var queue := Queue(rules, observedAt);
    PassTakes(rules, observedAt);
    TakenAt(rules, observedAt, if |queue| <= LIMIT then |queue| else LIMIT, r);
  }

  lemma ShortQueueIsListed(rules: seq<Rule>, observedAt: Time, r: Recipient)
    requires UniqueIds(rules) && r < |rules| && |Queue(rules, observedAt)| <= LIMIT
    ensures IsListed(rules, observedAt, r) <==> Eligible(rules[r], observedAt)
  {
    QueueIsSorted(rules, observedAt);
  }

  lemma BeyondTheLimit(rules: seq<Rule>, observedAt: Time, k: nat)
    requires UniqueIds(rules) && LIMIT <= k < |Queue(rules, observedAt)|
    ensures var r := Queue(rules, observedAt)[k].r;
            r < |rules| && Eligible(rules[r], observedAt) && !IsListed(rules, observedAt, r)
  {
    QueueIsSorted(rules, observedAt);
    var queue := Queue(rules, observedAt);
    assert queue[k] in queue;
    forall i | 0 <= i < LIMIT ensures queue[i] != queue[k] {
      assert Compare(queue[i], queue[k]) < 0;
    }
  }

  ghost predicate NonePending(rules: seq<Rule>) {
    forall r :: 0 <= r < |rules| ==> rules[r].pending.None?
  }

  /** A pass leaves nothing pending exactly when at most a hundred transitions
      waited, all of them prepared by the observed time, on connections that are
      not being deleted and, what the listing does not ask, active accounts. */
  lemma PassCompletesIff(rules: seq<Rule>, observedAt: Time)
    requires UniqueIds(rules)
    ensures NonePending(PassRules(rules, observedAt)) <==>
            && |Queue(rules, observedAt)| <= LIMIT
            && forall r :: 0 <= r < |rules| && rules[r].pending.Some? ==>
                 Eligible(rules[r], observedAt) && rules[r].active
  {
    hide FinalizeEach, Queue;
    var queue, after := Queue(rules, observedAt), PassRules(rules, observedAt);
    QueueIsSorted(rules, observedAt);
    if NonePending(after) {
      forall r | 0 <= r < |rules| && rules[r].pending.Some?
        ensures IsListed(rules, observedAt, r) && rules[r].active
      {
        PassAt(rules, observedAt, r);
        assert after[r].pending.None?;
      }
      if |queue| > LIMIT {
        BeyondTheLimit(rules, observedAt, LIMIT);
        assert false;
      }
    } else if |queue| <= LIMIT {
      var r :| 0 <= r < |rules| && after[r].pending.Some?;
      PassAt(rules, observedAt, r);
      ShortQueueIsListed(rules, observedAt, r);
    }
  }

  /** A pass changes some rule exactly when it listed one of an active account:
      a hundred waiting transitions of inactive accounts, prepared first, keep
      every later one from ever being listed. */
  lemma PassAdvancesIff(rules: seq<Rule>, observedAt: Time)
    requires UniqueIds(rules)
    ensures PassRules(rules, observedAt) == rules <==>
            forall x :: x in Listing(rules, observedAt) ==> x.r < |rules| && !rules[x.r].active
  {
    hide FinalizeEach, Queue;
    var items, after := Listing(rules, observedAt), PassRules(rules, observedAt);
    QueueIsSorted(rules, observedAt);
    if after == rules {
      forall x | x in items ensures x.r < |rules| && !rules[x.r].active {
        assert x in Queue(rules, observedAt);
        assert IsListed(rules, observedAt, x.r);
        PassAt(rules, observedAt, x.r);
      }
    }
    if forall x :: x in items ==> x.r < |rules| && !rules[x.r].active {
      forall r | 0 <= r < |rules| ensures after[r] == rules[r] { PassAt(rules, observedAt, r); }
    }
  }

  // ----- crashes and repetition -----

  lemma TakenKeepsUnique(rules: seq<Rule>, observedAt: Time, k: nat)
    requires UniqueIds(rules) && k <= |Queue(rules, observedAt)|
    ensures UniqueIds(Taken(rules, observedAt, k))
    ensures forall r :: 0 <= r < |rules| ==> Taken(rules, observedAt, k)[r] in {rules[r], Recovered(rules[r], observedAt)}
  {
    hide Taken, Queue;
    var after := Taken(rules, observedAt, k);
    forall r | 0 <= r < |rules| ensures after[r] in {rules[r], Recovered(rules[r], observedAt)} {
      TakenAt(rules, observedAt, k, r);
    }
  }

  /** However far a pass came before it crashed, the next pass ends with the same
      rules as one that was never interrupted, provided no more than a hundred
      transitions wait; in particular a second pass changes nothing. */
  lemma PassAfterCrash(rules: seq<Rule>, observedAt: Time, k: nat)
    requires UniqueIds(rules) && |Queue(rules, observedAt)| <= LIMIT && k <= |Listing(rules, observedAt)|
    ensures var crashed := FinalizeEach(rules, Listing(rules, observedAt)[..k]);
            PassRules(crashed, observedAt) == PassRules(rules, observedAt)
  {
    hide FinalizeEach, Queue;
    var crashed := Taken(rules, observedAt, k);
    TakenKeepsUnique(rules, observedAt, k);
    QueueShrinks(rules, crashed, observedAt);
    forall r | 0 <= r < |rules| ensures PassRules(crashed, observedAt)[r] == PassRules(rules, observedAt)[r] {
      PassAt(rules, observedAt, r);
      PassAt(crashed, observedAt, r);
      ShortQueueIsListed(rules, observedAt, r);
      ShortQueueIsListed(crashed, observedAt, r);
    }
  }

  /** Finalizing rules can only shorten the queue. */
  lemma QueueShrinks(rules: seq<Rule>, after: seq<Rule>, observedAt: Time)
    requires UniqueIds(rules) && UniqueIds(after) && |after| == |rules|
    requires forall r :: 0 <= r < |rules| ==> after[r] in {rules[r], Recovered(rules[r], observedAt)}
    ensures |Queue(after, observedAt)| <= |Queue(rules, observedAt)|
  {
    SortKeeps(Compare, EligibleAmong(rules, observedAt, |rules|));
    SortKeeps(Compare, EligibleAmong(after, observedAt, |rules|));
    SameLength(rules, observedAt);
    SameLength(after, observedAt);
    FewerEligible(rules, after, observedAt, |rules|);
  }

  lemma SameLength(rules: seq<Rule>, observedAt: Time)
    ensures |Queue(rules, observedAt)| == |EligibleAmong(rules, observedAt, |rules|)|
  {
    var all := EligibleAmong(rules, observedAt, |rules|);
    SortKeeps(Compare, all);
    assert |multiset(Sort(Compare, all))| == |multiset(all)|;
  }

  lemma {:induction false} FewerEligible(rules: seq<Rule>, after: seq<Rule>, observedAt: Time, n: nat)
    requires n <= |rules| == |after|
    requires forall r :: 0 <= r < |rules| ==> after[r] in {rules[r], Recovered(rules[r], observedAt)}
    ensures |EligibleAmong(after, observedAt, n)| <= |EligibleAmong(rules, observedAt, n)|
  {
    if n > 0 {
      FewerEligible(rules, after, observedAt, n - 1);
      assert after[n - 1] in {rules[n - 1], Recovered(rules[n - 1], observedAt)};
    }
  }

  // ----- draining a backlog -----

  ghost predicate AllActive(rules: seq<Rule>) {
    forall r :: 0 <= r < |rules| && rules[r].pending.Some? ==> rules[r].active
  }

  /** What still waits when the first k are finalized: the others. */
  lemma TakenLeaves(rules: seq<Rule>, observedAt: Time, k: nat, x: Item)
    requires UniqueIds(rules) && AllActive(rules) && k <= |Queue(rules, observedAt)|
    requires UniqueIds(Taken(rules, observedAt, k))
    ensures x in Queue(Taken(rules, observedAt, k), observedAt) <==>
            x in Queue(rules, observedAt) && x !in Queue(rules, observedAt)[..k]
  {
    hide Taken, Queue, OrderOn, Ascending;
    QueueIsSorted(rules, observedAt);
    QueueIsSorted(Taken(rules, observedAt, k), observedAt);
    if x.r < |rules| { TakenAt(rules, observedAt, k, x.r); }
  }

  lemma TakenKeepsActive(rules: seq<Rule>, observedAt: Time, k: nat)
    requires UniqueIds(rules) && AllActive(rules) && k <= |Queue(rules, observedAt)|
    ensures UniqueIds(Taken(rules, observedAt, k)) && AllActive(Taken(rules, observedAt, k))
  {
    hide Taken, Queue;
    TakenKeepsUnique(rules, observedAt, k);
  }

  lemma TailOfAscending(queue: seq<Item>, k: nat)
    requires OrderOn(Compare, queue) && Ascending(Compare, queue) && k <= |queue|
    ensures OrderOn(Compare, queue[k..]) && Ascending(Compare, queue[k..])
    ensures forall x :: x in queue[k..] <==> x in queue && x !in queue[..k]
  {
    hide OrderOn, Compare;
    assert forall i :: 0 <= i < |queue| - k ==> queue[k..][i] == queue[k + i];
    OrderOnPart(Compare, queue, queue[k..]);
    forall x ensures x in queue[k..] <==> x in queue && x !in queue[..k] {
      if x in queue[k..] {
        var j :| k <= j < |queue| && queue[j] == x;
        forall i | 0 <= i < k ensures queue[i] != x { assert Compare(queue[i], queue[j]) < 0; }
      }
    }
  }

  /** When the waiting transitions are of active accounts, finalizing the first k
      takes exactly these off the queue. */
  lemma TakenDequeues(rules: seq<Rule>, observedAt: Time, k: nat)
    requires UniqueIds(rules) && AllActive(rules) && k <= |Queue(rules, observedAt)|
    ensures var after := Taken(rules, observedAt, k);
            UniqueIds(after) && AllActive(after) && Queue(after, observedAt) == Queue(rules, observedAt)[k..]
  {
    hide Taken, Queue, OrderOn, Ascending, Compare, UniqueIds, AllActive;
    var queue, after := Queue(rules, observedAt), Taken(rules, observedAt, k);
    TakenKeepsActive(rules, observedAt, k);
    QueueIsSorted(rules, observedAt);
    QueueIsSorted(after, observedAt);
    TailOfAscending(queue, k);
    forall x ensures x in queue[k..] <==> x in Queue(after, observedAt) {
      TakenLeaves(rules, observedAt, k, x);
    }
    AscendingIsUnique(Compare, queue[k..], Queue(after, observedAt));
  }

  /** So a pass takes the first hundred. */
  lemma PassDequeues(rules: seq<Rule>, observedAt: Time)
    requires UniqueIds(rules) && AllActive(rules)
    ensures var queue, after := Queue(rules, observedAt), PassRules(rules, observedAt);
            && UniqueIds(after) && AllActive(after)
            && Queue(after, observedAt) == if |queue| <= LIMIT then [] else queue[LIMIT..]
  {
    hide Taken, Queue, PassRules, UniqueIds, AllActive;
    var queue := Queue(rules, observedAt);
    PassTakes(rules, observedAt);
    TakenDequeues(rules, observedAt, if |queue| <= LIMIT then |queue| else LIMIT);
  }

  lemma {:induction false} FinalizeEachConcat(rules: seq<Rule>, a: seq<Item>, b: seq<Item>)
    ensures FinalizeEach(rules, a + b) == FinalizeEach(FinalizeEach(rules, a), b)
    decreases |a|
  {
    if a == [] {
      assert a + b == b;
    } else {
      var item := a[0];
      assert (a + b)[1..] == a[1..] + b;
      FinalizeEachConcat(if item.r < |rules| then rules[item.r := Finalize(rules[item.r], item.transition.id).0] else rules, a[1..], b);
    }
  }

  /** However many wait: when a pass crashed after k transitions, the next one
      carries on behind them, and together they finalized the first k + 100. */
  lemma CrashedPassContinues(rules: seq<Rule>, observedAt: Time, k: nat)
    requires UniqueIds(rules) && AllActive(rules) && k <= |Listing(rules, observedAt)|
    ensures var queue := Queue(rules, observedAt);
            PassRules(FinalizeEach(rules, Listing(rules, observedAt)[..k]), observedAt)
            == FinalizeEach(rules, if |queue| <= k + LIMIT then queue else queue[..k + LIMIT])
  {
    hide Queue, FinalizeEach, UniqueIds, AllActive;
    var queue, crashed := Queue(rules, observedAt), Taken(rules, observedAt, k);
    assert Listing(rules, observedAt)[..k] == queue[..k];
    TakenDequeues(rules, observedAt, k);
    var next := Listing(crashed, observedAt);
    FinalizeEachConcat(rules, queue[..k], next);
    assert queue[..k] + next == if |queue| <= k + LIMIT then queue else queue[..k + LIMIT];
  }

  function Passes(rules: seq<Rule>, observedAt: Time, k: nat): seq<Rule>
    decreases k
  {
    if k == 0 then rules else Passes(PassRules(rules, observedAt), observedAt, k - 1)
  }

  /** A backlog of n transitions is gone after exactly ceil(n / 100) passes. */
  lemma {:induction false} BacklogDrains(rules: seq<Rule>, observedAt: Time, k: nat)
    requires UniqueIds(rules) && AllActive(rules)
    ensures Queue(Passes(rules, observedAt, k), observedAt) == [] <==> |Queue(rules, observedAt)| <= k * LIMIT
    decreases k
  {
    hide Queue, PassRules;
    PassDequeues(rules, observedAt);
    if k > 0 {
      BacklogDrains(PassRules(rules, observedAt), observedAt, k - 1);
    }
  }
}
