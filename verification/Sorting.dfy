/** Sorting by a comparison function, and why the outcome does not depend on the
    algorithm: an ascending arrangement of given elements is unique. */
module Sorting {
  /** `compare` is a total order on the elements of `s`. */
  ghost predicate OrderOn<T(!new)>(compare: (T, T) -> int, s: seq<T>) {
    && (forall a, b :: a in s && b in s ==>
          compare(a, b) == -compare(b, a) && (compare(a, b) == 0 <==> a == b))
    && (forall a, b, c :: a in s && b in s && c in s && compare(a, b) < 0 && compare(b, c) < 0 ==> compare(a, c) < 0)
  }

  ghost predicate Distinct<T>(s: seq<T>) {
    forall i, j :: 0 <= i < j < |s| ==> s[i] != s[j]
  }

  ghost predicate Ascending<T>(compare: (T, T) -> int, s: seq<T>) {
    forall i, j :: 0 <= i < j < |s| ==> compare(s[i], s[j]) < 0
  }

  function Insert<T>(compare: (T, T) -> int, x: T, sorted: seq<T>): seq<T> {
    if sorted == [] then [x]
    else if compare(x, sorted[0]) <= 0 then [x] + sorted
    else [sorted[0]] + Insert(compare, x, sorted[1..])
  }

  function Sort<T>(compare: (T, T) -> int, s: seq<T>): seq<T> {
    if s == [] then [] else Insert(compare, s[0], Sort(compare, s[1..]))
  }

  lemma {:induction false} InsertKeeps<T>(compare: (T, T) -> int, x: T, sorted: seq<T>)
    ensures multiset(Insert(compare, x, sorted)) == multiset{x} + multiset(sorted)
  {
    if sorted != [] {
      assert sorted == [sorted[0]] + sorted[1..];
      if compare(x, sorted[0]) > 0 {
        InsertKeeps(compare, x, sorted[1..]);
      }
    }
  }

  lemma Reflects<T(!new)>(compare: (T, T) -> int, s: seq<T>, a: T, b: T)
    requires OrderOn(compare, s) && a in s && b in s
    ensures compare(a, b) == -compare(b, a) && (compare(a, b) == 0 <==> a == b)
  {
  }

  lemma Chains<T(!new)>(compare: (T, T) -> int, s: seq<T>, a: T, b: T, c: T)
    requires OrderOn(compare, s) && a in s && b in s && c in s
    requires compare(a, b) < 0 && compare(b, c) < 0
    ensures compare(a, c) < 0
  {
  }

  lemma OrderOnPart<T(!new)>(compare: (T, T) -> int, s: seq<T>, part: seq<T>)
    requires OrderOn(compare, s) && forall x :: x in part ==> x in s
    ensures OrderOn(compare, part)
  {
  }

  lemma AscendingCons<T(!new)>(compare: (T, T) -> int, x: T, s: seq<T>)
    requires Ascending(compare, s) && forall i :: 0 <= i < |s| ==> compare(x, s[i]) < 0
    ensures Ascending(compare, [x] + s)
  {
    var t := [x] + s;
    assert forall i :: 1 <= i < |t| ==> t[i] == s[i - 1];
  }

  lemma AscendingTail<T(!new)>(compare: (T, T) -> int, s: seq<T>)
    requires Ascending(compare, s) && s != []
    ensures Ascending(compare, s[1..]) && forall x :: x in s[1..] ==> compare(s[0], x) < 0
  {
    assert forall i :: 0 <= i < |s| - 1 ==> s[1..][i] == s[i + 1];
  }

  lemma {:induction false} InsertAscending<T(!new)>(compare: (T, T) -> int, all: seq<T>, x: T, sorted: seq<T>)
    requires OrderOn(compare, all) && x in all && (forall y :: y in sorted ==> y in all)
    requires Ascending(compare, sorted) && x !in sorted
    ensures Ascending(compare, Insert(compare, x, sorted))
  {
    hide OrderOn;
    if sorted != [] {
      var first, tail := sorted[0], sorted[1..];
      assert sorted == [first] + tail;
      AscendingTail(compare, sorted);
      Reflects(compare, all, x, first);
      if compare(x, first) <= 0 {
        forall j | 0 <= j < |sorted|
          ensures compare(x, sorted[j]) < 0
        {
          if j > 0 {
            Chains(compare, all, x, first, sorted[j]);
          }
        }
        AscendingCons(compare, x, sorted);
      } else {
        var rest := Insert(compare, x, tail);
        InsertAscending(compare, all, x, tail);
        InsertKeeps(compare, x, tail);
        Reflects(compare, all, first, x);
        forall j | 0 <= j < |rest|
          ensures compare(first, rest[j]) < 0
        {
          assert rest[j] in multiset(rest);
          assert rest[j] == x || rest[j] in tail;
        }
        AscendingCons(compare, first, rest);
      }
    }
  }

  lemma {:induction false} SortKeeps<T>(compare: (T, T) -> int, s: seq<T>)
    ensures multiset(Sort(compare, s)) == multiset(s)
    ensures forall x :: x in Sort(compare, s) <==> x in s
  {
    if s != [] {
      assert s == [s[0]] + s[1..];
      SortKeeps(compare, s[1..]);
      InsertKeeps(compare, s[0], Sort(compare, s[1..]));
    }
    assert forall x :: x in multiset(s) <==> x in s;
    assert forall x :: x in multiset(Sort(compare, s)) <==> x in Sort(compare, s);
  }

  lemma {:induction false} SortSorts<T(!new)>(compare: (T, T) -> int, s: seq<T>)
    requires OrderOn(compare, s) && Distinct(s)
    ensures Ascending(compare, Sort(compare, s))
  {
    hide OrderOn;
    if s != [] {
      var first, rest := s[0], s[1..];
      assert s == [first] + rest;
      OrderOnPart(compare, s, rest);
      SortSorts(compare, rest);
      SortKeeps(compare, rest);
      assert first !in rest;
      InsertAscending(compare, s, first, Sort(compare, rest));
    }
  }

  lemma SameLeast<T(!new)>(compare: (T, T) -> int, a: seq<T>, b: seq<T>)
    requires OrderOn(compare, a) && Ascending(compare, a) && Ascending(compare, b)
    requires (forall x :: x in a <==> x in b) && a != [] && b != []
    ensures a[0] == b[0]
  {
    hide OrderOn;
    assert a[0] in b && b[0] in a;
    var i :| 0 <= i < |b| && b[i] == a[0];
    var j :| 0 <= j < |a| && a[j] == b[0];
    Reflects(compare, a, a[0], b[0]);
  }

  lemma FirstIsMember<T>(s: seq<T>)
    ensures s == [] || s[0] in s
  {
  }

  /** Two ascending arrangements of the same elements are equal: the sorted,
      deduplicated list is a canonical form of the set. */
  lemma {:induction false} AscendingIsUnique<T(!new)>(compare: (T, T) -> int, a: seq<T>, b: seq<T>)
    requires OrderOn(compare, a) && Ascending(compare, a) && Ascending(compare, b)
    requires forall x :: x in a <==> x in b
    ensures a == b
  {
    hide OrderOn;
    if a != [] && b != [] {
      SameLeast(compare, a, b);
      var first, s, t := a[0], a[1..], b[1..];
      assert a == [first] + s && b == [first] + t;
      AscendingTail(compare, a);
      AscendingTail(compare, b);
      Reflects(compare, a, first, first);
      OrderOnPart(compare, a, s);
      assert forall x :: x in s <==> x in a && x != first;
      assert forall x :: x in t <==> x in b && x != first;
      AscendingIsUnique(compare, s, t);
    } else {
      FirstIsMember(a);
      FirstIsMember(b);
    }
  }

  // ----- without repetitions -----

  /** `Array.from(new Set(s))`: the first occurrence of each element. */
  function Dedup<T(==)>(s: seq<T>): seq<T> {
    if s == [] then []
    else
      var front := Dedup(s[..|s| - 1]);
      if s[|s| - 1] in front then front else front + [s[|s| - 1]]
  }

  lemma {:induction false} DedupKeeps<T>(s: seq<T>)
    ensures Distinct(Dedup(s)) && forall x :: x in Dedup(s) <==> x in s
  {
    if s != [] {
      DedupKeeps(s[..|s| - 1]);
      assert s == s[..|s| - 1] + [s[|s| - 1]];
    }
  }

  /** Lists with the same elements are sorted and deduplicated to the same list. */
  lemma CanonicalForm<T(!new)>(compare: (T, T) -> int, a: seq<T>, b: seq<T>)
    requires OrderOn(compare, a) && forall x :: x in a <==> x in b
    ensures Sort(compare, Dedup(a)) == Sort(compare, Dedup(b))
  {
    hide OrderOn, Sort, Dedup;
    DedupKeeps(a);
    DedupKeeps(b);
    OrderOnPart(compare, a, Dedup(a));
    OrderOnPart(compare, a, Dedup(b));
    SortSorts(compare, Dedup(a));
    SortSorts(compare, Dedup(b));
    SortKeeps(compare, Dedup(a));
    SortKeeps(compare, Dedup(b));
    OrderOnPart(compare, a, Sort(compare, Dedup(a)));
    AscendingIsUnique(compare, Sort(compare, Dedup(a)), Sort(compare, Dedup(b)));
  }
}
