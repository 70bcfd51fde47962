/** Following the cursors of `read_messages` or `search_messages` over an
    unchanged store, down to the query that loads a page. */
module MessageWalk {
  import opened Order
  import opened Options
  import opened Utf16
  import opened MessagePages

  /** Newest first, no key twice. */
  ghost predicate Ordered(store: seq<Message>) {
    forall i, j :: 0 <= i < j < |store| ==> Newer(store[i].key, store[j].key)
  }

  /** Later messages first, and of one moment the greater ids. */
  lemma NewestFirst(store: seq<Message>)
    ensures Ordered(store) <==> forall i, j :: 0 <= i < j < |store| ==>
              var a, b := store[i].key, store[j].key;
              b.sentAt <= a.sentAt && (a.sentAt == b.sentAt ==> Lex(b.id, a.id) < 0)
  {
    forall i, j | 0 <= i < j < |store|
      ensures var a, b := store[i].key, store[j].key;
              Newer(a, b) <==> b.sentAt <= a.sentAt && (a.sentAt == b.sentAt ==> Lex(b.id, a.id) < 0)
    {
      LexAntisymmetric(store[j].key.id, store[i].key.id);
    }
  }

  predicate IsBeyond(m: Message, boundary: Option<Key>) {
    boundary.None? || Newer(boundary.value, m.key)
  }

  /** The rows strictly beyond a boundary, as the query filters them. */
  function Beyond(store: seq<Message>, boundary: Option<Key>): seq<Message> {
    if store == [] then []
    else (if IsBeyond(store[0], boundary) then [store[0]] else []) + Beyond(store[1..], boundary)
  }

  lemma {:induction false} BeyondNone(store: seq<Message>)
    ensures Beyond(store, None) == store
  {
    if store != [] {
      BeyondNone(store[1..]);
    }
  }

  lemma NewerIrreflexive(a: Key, b: Key)
    requires Newer(a, b)
    ensures !Newer(b, a) && !Newer(a, a)
  {
    LexAntisymmetric(a.id, b.id);
    LexAntisymmetric(a.id, a.id);
  }

  /** Beyond the key of a row lies exactly the rest of the ordered store. */
  lemma {:induction false} BeyondRow(store: seq<Message>, i: nat)
    requires Ordered(store) && i < |store|
    ensures Beyond(store, Some(store[i].key)) == store[i + 1..]
  {
    var key := store[i].key;
    assert Ordered(store[1..]) by {
      assert forall j :: 0 <= j < |store| - 1 ==> store[1..][j] == store[j + 1];
    }
    if i == 0 {
      NewerThanAll(store[1..], key);
      LexAntisymmetric(key.id, key.id);
    } else {
      BeyondRow(store[1..], i - 1);
      NewerIrreflexive(store[0].key, key);
    }
  }

  lemma {:induction false} NewerThanAll(store: seq<Message>, key: Key)
    requires forall i :: 0 <= i < |store| ==> Newer(key, store[i].key)
    ensures Beyond(store, Some(key)) == store
  {
    if store != [] {
      NewerThanAll(store[1..], key);
    }
  }

  // ----- loading a page -----

  function CiphertextBytes(messages: seq<Message>): nat {
    if messages == [] then 0 else CiphertextBytes(messages[..|messages| - 1]) + messages[|messages| - 1].ciphertextBytes
  }

  /** One message is always returned, more only within the budget. */
  predicate WithinBudget(messages: seq<Message>, budget: Option<nat>) {
    budget.None? || |messages| <= 1 || CiphertextBytes(messages) <= budget.value
  }

  /** How many of the rows are returned: the longest beginning that is within the
      limit and the ciphertext budget. */
  method TakeMessageRows(rows: seq<Message>, limit: nat, budget: Option<nat>)
    returns (messages: seq<Message>, hasOlder: bool, sizeLimited: bool)
    requires limit >= 1
    ensures messages <= rows && |messages| <= limit
    ensures rows != [] ==> messages != []
    ensures WithinBudget(messages, budget)
    ensures |messages| == |rows| || |messages| == limit || !WithinBudget(rows[..|messages| + 1], budget)
    ensures hasOlder <==> |messages| < |rows|
    ensures sizeLimited <==>
              budget.Some? && ((|messages| < limit && |messages| < |rows|) || CiphertextBytes(messages) > budget.value)
  {
    var candidateRows := if |rows| <= limit then rows else rows[..limit];
    messages := [];
    var encryptedBytes := 0;
    var index := 0;
    while index < |candidateRows|
      invariant 0 <= index <= |candidateRows| && messages == rows[..index]
      invariant encryptedBytes == CiphertextBytes(messages) && WithinBudget(messages, budget)
    {
      var candidate := candidateRows[index];
      assert rows[..index + 1] == messages + [candidate] && rows[..index + 1][..index] == messages;
      if budget.Some? && |messages| > 0 && encryptedBytes + candidate.ciphertextBytes > budget.value {
        break;
      }
      messages := messages + [candidate];
      encryptedBytes := encryptedBytes + candidate.ciphertextBytes;
      index := index + 1;
    }
    hasOlder := |rows| > |candidateRows| || |messages| < |candidateRows|;
    sizeLimited := budget.Some? && (|messages| < |candidateRows| || encryptedBytes > budget.value);
  }

  /** A page loaded at a boundary: a newest-first run of what lies beyond, not
      empty while anything does, and a flag that says whether more remains. */
  predicate IsLoaded(store: seq<Message>, boundary: Option<Key>, page: Page) {
    var rest := Beyond(store, boundary);
    && page.messages <= rest
    && (rest != [] ==> page.messages != [])
    && (page.hasMore <==> |page.messages| < |rest|)
  }

  /** The repository's page load: one row more than the limit is asked for. */
  method LoadPage(store: seq<Message>, boundary: Option<Key>, limit: nat, budget: Option<nat>, blank: Page)
    returns (page: Page)
    requires limit >= 1
    ensures IsLoaded(store, boundary, page) && |page.messages| <= limit
    ensures WithinBudget(page.messages, budget)
    ensures page.sizeLimited <==>
              budget.Some? && ((|page.messages| < limit && page.hasMore) || CiphertextBytes(page.messages) > budget.value)
    ensures page == blank.(messages := page.messages, hasMore := page.hasMore, sizeLimited := page.sizeLimited)
  {
    var rest := Beyond(store, boundary);
    var rows := if |rest| <= limit + 1 then rest else rest[..limit + 1];
    var messages, hasOlder, sizeLimited := TakeMessageRows(rows, limit, budget);
    page := blank.(messages := messages, hasMore := hasOlder, sizeLimited := sizeLimited);
  }

  // ----- the cursor of a fitted page -----

  function Delivered(o: Output): seq<Message> {
    seq(|o.shown|, i requires 0 <= i < |o.shown| => o.shown[i].message)
  }

  /** A fitted page delivers a non-empty run of the loaded messages, has a cursor
      exactly when it says that more remains, and that cursor points at the
      oldest message it delivers. */
  lemma FittedPage(page: Page, codec: Codec, o: Output)
    requires IsFit(page, codec, Some(o)) && page.messages != []
    ensures Delivered(o) <= page.messages && Delivered(o) != []
    ensures o.hasMore <==> page.hasMore || |Delivered(o)| < |page.messages|
    ensures o.cursor.Some? <==> o.hasMore
    ensures o.cursor.Some? ==> codec.encode(page.messages[|Delivered(o)| - 1].key) == o.cursor
  {
    hide JsonBytes, Candidate, KeptAs, TooBig;
    var n: nat :| Keeps(page, codec, n) && KeptAs(page, codec, n, o);
    CandidatePage(page, codec, n);
    KeptDelivers(page, codec, n, o);
  }

  lemma CandidatePage(page: Page, codec: Codec, n: nat)
    requires 1 <= n <= |page.messages| && Candidate(page, codec, n).Some?
    ensures var o := Candidate(page, codec, n).value;
            && Delivered(o) == page.messages[..n] && (o.hasMore <==> page.hasMore || n < |page.messages|)
            && (o.cursor.Some? <==> o.hasMore)
            && (o.cursor.Some? ==> codec.encode(page.messages[n - 1].key) == o.cursor)
  {
  }

  lemma KeptDelivers(page: Page, codec: Codec, n: nat, o: Output)
    requires page.messages != [] && Keeps(page, codec, n) && KeptAs(page, codec, n, o)
    ensures var whole := Candidate(page, codec, n).value;
            o.hasMore == whole.hasMore && o.cursor == whole.cursor && Delivered(o) == Delivered(whole)
  {
    hide JsonBytes, TooBig;
    var whole := Candidate(page, codec, n).value;
    CandidatePage(page, codec, n);
    if o != whole {
      assert Delivered(o) == [page.messages[0]] == page.messages[..1];
    }
  }

  // ----- walks -----

  datatype Step = Step(page: Page, output: Output)

  /** Pages fetched one after another, each at the cursor of the one before. */
  ghost predicate IsWalk(store: seq<Message>, codec: Codec, boundary: Option<Key>, steps: seq<Step>)
    decreases |steps|
  {
    && steps != []
    && IsLoaded(store, boundary, steps[0].page)
    && IsFit(steps[0].page, codec, Some(steps[0].output))
    && (|steps| > 1 ==>
          && steps[0].output.cursor.Some?
          && codec.decode(steps[0].output.cursor.value).Some?
          && IsWalk(store, codec, codec.decode(steps[0].output.cursor.value), steps[1..]))
  }

  function AllDelivered(steps: seq<Step>): seq<Message> {
    if steps == [] then [] else Delivered(steps[0].output) + AllDelivered(steps[1..])
  }

  /** The last page fetched has no cursor. */
  predicate IsComplete(steps: seq<Step>) {
    steps != [] && steps[|steps| - 1].output.cursor.None?
  }

  /** The boundary of a walk is either none or the key of a stored message. */
  ghost predicate IsBoundary(store: seq<Message>, boundary: Option<Key>) {
    boundary.None? || exists i :: 0 <= i < |store| && store[i].key == boundary.value
  }

  /** The next boundary leaves exactly what the page did not deliver. */
  lemma NextBoundary(store: seq<Message>, codec: Codec, boundary: Option<Key>, step: Step)
    requires Ordered(store) && Faithful(codec) && IsBoundary(store, boundary)
    requires IsLoaded(store, boundary, step.page) && IsFit(step.page, codec, Some(step.output))
    ensures step.output.cursor.None? ==> Delivered(step.output) == Beyond(store, boundary)
    ensures step.output.cursor.Some? ==>
              var next := codec.decode(step.output.cursor.value);
              && next.Some? && IsBoundary(store, next) && Delivered(step.output) != []
              && Delivered(step.output) < Beyond(store, boundary)
              && Beyond(store, next) == Beyond(store, boundary)[|Delivered(step.output)|..]
  {
    hide IsFit, Beyond;
    var rest := Beyond(store, boundary);
    var at := SuffixOf(store, boundary);
    if step.page.messages == [] {
      EmptyPage(step.page, codec, step.output);
    } else {
      FittedPage(step.page, codec, step.output);
      var delivered := Delivered(step.output);
      if step.output.cursor.Some? {
        var i := at + |delivered| - 1;
        assert store[i] == rest[|delivered| - 1] == step.page.messages[|delivered| - 1];
        BeyondRow(store, i);
      }
    }
  }

  lemma EmptyPage(page: Page, codec: Codec, o: Output)
    requires IsFit(page, codec, Some(o)) && page.messages == []
    ensures Delivered(o) == [] && o.cursor.None?
  {
  }

  lemma SuffixOf(store: seq<Message>, boundary: Option<Key>) returns (at: nat)
    requires Ordered(store) && IsBoundary(store, boundary)
    ensures at <= |store| && Beyond(store, boundary) == store[at..]
  {
    if boundary.None? {
      BeyondNone(store);
      at := 0;
    } else {
      var i :| 0 <= i < |store| && store[i].key == boundary.value;
      BeyondRow(store, i);
      at := i + 1;
    }
  }

  /** Every walk delivers a prefix of what lies beyond its boundary, in order and
      without gaps; a complete walk delivers all of it, and no walk has more
      pages than there are messages (one page if there are none). */
  lemma {:induction false} WalkDelivers(store: seq<Message>, codec: Codec, boundary: Option<Key>, steps: seq<Step>)
    requires Ordered(store) && Faithful(codec) && IsBoundary(store, boundary)
    requires IsWalk(store, codec, boundary, steps)
    ensures AllDelivered(steps) <= Beyond(store, boundary)
    ensures AllDelivered(steps) == Beyond(store, boundary) <==> IsComplete(steps)
    ensures |steps| <= if Beyond(store, boundary) == [] then 1 else |Beyond(store, boundary)|
    decreases |steps|
  {
    hide IsFit, Beyond;
    NextBoundary(store, codec, boundary, steps[0]);
    var rest := Beyond(store, boundary);
    var delivered := Delivered(steps[0].output);
    if |steps| > 1 {
      var next := codec.decode(steps[0].output.cursor.value);
      WalkDelivers(store, codec, next, steps[1..]);
      assert rest == delivered + Beyond(store, next);
      assert IsComplete(steps) <==> IsComplete(steps[1..]);
    } else {
      assert AllDelivered(steps) == delivered;
    }
  }

  /** From the first page on: each stored message exactly once, newest first. */
  lemma CompleteWalkDeliversStore(store: seq<Message>, codec: Codec, steps: seq<Step>)
    requires Ordered(store) && Faithful(codec) && IsWalk(store, codec, None, steps) && IsComplete(steps)
    ensures AllDelivered(steps) == store
    ensures forall i, j :: 0 <= i < j < |store| ==> AllDelivered(steps)[i].key != AllDelivered(steps)[j].key
    ensures forall i, j :: 0 <= i < j < |store| ==>
              var a, b := AllDelivered(steps)[i].key, AllDelivered(steps)[j].key;
              b.sentAt <= a.sentAt && (a.sentAt == b.sentAt ==> Lex(b.id, a.id) < 0)
    ensures |steps| <= if store == [] then 1 else |store|
  {
    hide Newer, IsWalk, IsFit;
    BeyondNone(store);
    WalkDelivers(store, codec, None, steps);
    forall i, j | 0 <= i < j < |store|
      ensures store[i].key != store[j].key
    {
      NewerIrreflexive(store[i].key, store[j].key);
    }
    NewestFirst(store);
  }

  ghost predicate Serves(store: seq<Message>, codec: Codec, load: Option<Key> -> Page, boundary: Option<Key>) {
    IsLoaded(store, boundary, load(boundary)) && exists o :: IsFit(load(boundary), codec, Some(o))
  }

  /** If no page ends in "service unavailable", following the cursors comes to an
      end: a complete walk exists. */
  lemma {:induction false} WalkCompletes(store: seq<Message>, codec: Codec, load: Option<Key> -> Page, boundary: Option<Key>)
    returns (steps: seq<Step>)
    requires Ordered(store) && Faithful(codec) && IsBoundary(store, boundary)
    requires forall b :: IsBoundary(store, b) ==> Serves(store, codec, load, b)
    ensures IsWalk(store, codec, boundary, steps) && IsComplete(steps)
    decreases |Beyond(store, boundary)|
  {
    hide IsFit, Beyond;
    assert Serves(store, codec, load, boundary);
    var o :| IsFit(load(boundary), codec, Some(o));
    var first := Step(load(boundary), o);
    NextBoundary(store, codec, boundary, first);
    if o.cursor.None? {
      steps := [first];
    } else {
      var later := WalkCompletes(store, codec, load, codec.decode(o.cursor.value));
      steps := [first] + later;
      assert steps[1..] == later;
    }
  }
}
