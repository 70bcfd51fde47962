/** `list_groups`: filter, sort, skip up to the cursor and slice, all in memory. */
module GroupPages {
  import opened Order
  import opened Utf16
  import opened Options
  import opened Sorting

  /** A decrypted group; one without a name has the empty normalized name. */
  datatype Group = Group(publicId: Str, normalizedName: Str)

  datatype Boundary = Boundary(name: Str, publicId: Str)

  /** `compareText` on the names, then on the public ids. */
  function Compare(a: Group, b: Group): int {
    var byName := Lex(a.normalizedName, b.normalizedName);
    if byName != 0 then byName else Lex(a.publicId, b.publicId)
  }

  ghost predicate DistinctIds(groups: seq<Group>) {
    forall i, j :: 0 <= i < j < |groups| ==> groups[i].publicId != groups[j].publicId
  }

  // ----- the order -----

  lemma CompareAntisymmetric(a: Group, b: Group)
    ensures Compare(a, b) == -Compare(b, a)
    ensures Compare(a, b) == 0 <==> a == b
  {
    LexAntisymmetric(a.normalizedName, b.normalizedName);
    LexAntisymmetric(a.publicId, b.publicId);
    LexZeroIffEqual(a.normalizedName, b.normalizedName);
    LexZeroIffEqual(a.publicId, b.publicId);
  }

  lemma CompareTransitive(a: Group, b: Group, c: Group)
    requires Compare(a, b) < 0 && Compare(b, c) < 0
    ensures Compare(a, c) < 0
  {
    LexZeroIffEqual(a.normalizedName, b.normalizedName);
    LexZeroIffEqual(b.normalizedName, c.normalizedName);
    if Lex(a.normalizedName, b.normalizedName) < 0 {
      LexTransitive(a.normalizedName, b.normalizedName, c.normalizedName);
    } else if Lex(b.normalizedName, c.normalizedName) == 0 {
      LexTransitive(a.publicId, b.publicId, c.publicId);
    }
  }

  lemma CompareIsOrder(groups: seq<Group>)
    ensures OrderOn(Compare, groups)
  {
    forall a, b | a in groups && b in groups
      ensures Compare(a, b) == -Compare(b, a) && (Compare(a, b) == 0 <==> a == b)
    {
      CompareAntisymmetric(a, b);
    }
    forall a, b, c | a in groups && b in groups && c in groups && Compare(a, b) < 0 && Compare(b, c) < 0
      ensures Compare(a, c) < 0
    {
      CompareTransitive(a, b, c);
    }
  }

  function SortGroups(groups: seq<Group>): seq<Group> {
    Sort(Compare, groups)
  }

  lemma SortedGroups(groups: seq<Group>)
    requires DistinctIds(groups)
    ensures Ascending(Compare, SortGroups(groups)) && multiset(SortGroups(groups)) == multiset(groups)
  {
    CompareIsOrder(groups);
    SortSorts(Compare, groups);
    SortKeeps(Compare, groups);
  }

  /** Whatever algorithm sorts the groups, this is the list it returns. */
  lemma AnySortAgrees(groups: seq<Group>, sorted: seq<Group>)
    requires DistinctIds(groups) && Ascending(Compare, sorted) && multiset(sorted) == multiset(groups)
    ensures sorted == SortGroups(groups)
  {
    SortedGroups(groups);
    CompareIsOrder(sorted);
    assert forall g :: g in sorted <==> g in multiset(sorted);
    assert forall g :: g in SortGroups(groups) <==> g in multiset(SortGroups(groups));
    AscendingIsUnique(Compare, sorted, SortGroups(groups));
  }

  // ----- one page -----

  function Matching(groups: seq<Group>, search: Option<Str>): seq<Group> {
    if groups == [] then []
    else (if search.None? || search.value <= groups[0].normalizedName then [groups[0]] else [])
         + Matching(groups[1..], search)
  }

  predicate IsBeyond(g: Group, boundary: Option<Boundary>) {
    || boundary.None?
    || Lex(g.normalizedName, boundary.value.name) > 0
    || (g.normalizedName == boundary.value.name && Lex(g.publicId, boundary.value.publicId) > 0)
  }

  function Beyond(groups: seq<Group>, boundary: Option<Boundary>): seq<Group> {
    if groups == [] then []
    else (if IsBeyond(groups[0], boundary) then [groups[0]] else []) + Beyond(groups[1..], boundary)
  }

  datatype GroupPage = GroupPage(groups: seq<Group>, hasMore: bool, next: Option<Boundary>)

  function BoundaryOf(g: Group): Boundary {
    Boundary(g.normalizedName, g.publicId)
  }

  function FirstPage(ordered: seq<Group>, limit: nat): GroupPage
    requires limit >= 1
  {
    var selected := if |ordered| <= limit then ordered else ordered[..limit];
    var hasMore := |ordered| > limit;
    GroupPage(selected, hasMore, if hasMore then Some(BoundaryOf(selected[|selected| - 1])) else None)
  }

  function ListPage(groups: seq<Group>, search: Option<Str>, boundary: Option<Boundary>, limit: nat): GroupPage
    requires limit >= 1
  {
    FirstPage(Beyond(SortGroups(Matching(groups, search)), boundary), limit)
  }

  lemma {:induction false} MatchingIsSubsequence(groups: seq<Group>, search: Option<Str>)
    ensures forall g :: g in Matching(groups, search) <==>
                          g in groups && (search.Some? ==> search.value <= g.normalizedName)
    ensures DistinctIds(groups) ==> DistinctIds(Matching(groups, search))
  {
    if groups != [] {
      var rest := Matching(groups[1..], search);
      MatchingIsSubsequence(groups[1..], search);
      assert groups == [groups[0]] + groups[1..];
      if DistinctIds(groups) {
        forall i | 0 <= i < |rest|
          ensures groups[0].publicId != rest[i].publicId
        {
          assert rest[i] in groups[1..];
        }
      }
    }
  }

  lemma {:induction false} BeyondNone(groups: seq<Group>)
    ensures Beyond(groups, None) == groups
  {
    if groups != [] {
      BeyondNone(groups[1..]);
    }
  }

  lemma BeyondIsAbove(g: Group, h: Group)
    ensures IsBeyond(g, Some(BoundaryOf(h))) <==> Compare(h, g) < 0
  {
    LexAntisymmetric(g.normalizedName, h.normalizedName);
    LexAntisymmetric(g.publicId, h.publicId);
    LexZeroIffEqual(g.normalizedName, h.normalizedName);
  }

  lemma {:induction false} AllBeyond(groups: seq<Group>, h: Group)
    requires forall i :: 0 <= i < |groups| ==> Compare(h, groups[i]) < 0
    ensures Beyond(groups, Some(BoundaryOf(h))) == groups
  {
    if groups != [] {
      BeyondIsAbove(groups[0], h);
      AllBeyond(groups[1..], h);
    }
  }

  /** Beyond the boundary of one element lies exactly the rest of the sorted list. */
  lemma {:induction false} BeyondElement(groups: seq<Group>, i: nat)
    requires Ascending(Compare, groups) && i < |groups|
    ensures Beyond(groups, Some(BoundaryOf(groups[i]))) == groups[i + 1..]
  {
    hide Compare, IsBeyond;
    BeyondIsAbove(groups[0], groups[i]);
    CompareAntisymmetric(groups[0], groups[i]);
    if i == 0 {
      AllBeyond(groups[1..], groups[0]);
    } else {
      BeyondElement(groups[1..], i - 1);
    }
  }

  // ----- all pages -----

  /** Pages that follow one another from no cursor on, as far as they were fetched. */
  ghost predicate IsWalkPrefix(groups: seq<Group>, search: Option<Str>, limit: nat, pages: seq<GroupPage>)
    requires limit >= 1
  {
    && pages != []
    && pages[0] == ListPage(groups, search, None, limit)
    && (forall i, j :: 0 <= i && j == i + 1 < |pages| ==> Follows(groups, search, limit, pages[i], pages[j]))
  }

  /** The same until `has_more` is false. */
  ghost predicate IsWalk(groups: seq<Group>, search: Option<Str>, limit: nat, pages: seq<GroupPage>)
    requires limit >= 1
  {
    IsWalkPrefix(groups, search, limit, pages) && !pages[|pages| - 1].hasMore
  }

  predicate Follows(groups: seq<Group>, search: Option<Str>, limit: nat, page: GroupPage, later: GroupPage)
    requires limit >= 1
  {
    page.hasMore && later == ListPage(groups, search, page.next, limit)
  }

  function Concatenated(pages: seq<GroupPage>): seq<Group> {
    if pages == [] then [] else Concatenated(pages[..|pages| - 1]) + pages[|pages| - 1].groups
  }

  function Least(a: nat, b: nat): nat {
    if a <= b then a else b
  }

  lemma FirstPageOfSuffix(sorted: seq<Group>, limit: nat, start: nat)
    requires limit >= 1 && start <= |sorted|
    ensures var end := Least(start + limit, |sorted|);
            FirstPage(sorted[start..], limit) ==
            GroupPage(sorted[start..end], start + limit < |sorted|,
                      if start + limit < |sorted| then Some(BoundaryOf(sorted[end - 1])) else None)
  {
    var end := Least(start + limit, |sorted|);
    if start + limit < |sorted| {
      assert sorted[start..][..limit] == sorted[start..end];
      assert sorted[start..end][limit - 1] == sorted[end - 1];
    } else {
      assert sorted[start..] == sorted[start..end];
    }
  }

  function BoundaryBefore(sorted: seq<Group>, start: nat): Option<Boundary>
    requires start <= |sorted|
  {
    if start == 0 then None else Some(BoundaryOf(sorted[start - 1]))
  }

  /** The page behind the boundary at position `start` of the sorted list. */
  lemma PageAt(groups: seq<Group>, search: Option<Str>, limit: nat, start: nat)
    requires limit >= 1 && DistinctIds(groups)
    requires start <= |SortGroups(Matching(groups, search))|
    ensures var sorted := SortGroups(Matching(groups, search));
            ListPage(groups, search, BoundaryBefore(sorted, start), limit) == FirstPage(sorted[start..], limit)
  {
    hide SortGroups, Matching, Beyond, Compare, FirstPage;
    var sorted := SortGroups(Matching(groups, search));
    MatchingIsSubsequence(groups, search);
    SortedGroups(Matching(groups, search));
    if start == 0 {
      BeyondNone(sorted);
      assert sorted[0..] == sorted;
    } else {
      BeyondElement(sorted, start - 1);
    }
  }

  /** The page that starts at a position of the sorted list. */
  predicate IsPageAt(sorted: seq<Group>, limit: nat, start: nat, page: GroupPage) {
    && start <= |sorted|
    && page.groups == sorted[start..Least(start + limit, |sorted|)]
    && (page.hasMore <==> start + limit < |sorted|)
    && (page.hasMore ==> limit >= 1 && page.next == Some(BoundaryOf(sorted[start + limit - 1])))
  }

  lemma PageFrom(groups: seq<Group>, search: Option<Str>, limit: nat, start: nat, page: GroupPage)
    requires limit >= 1 && DistinctIds(groups) && start <= |SortGroups(Matching(groups, search))|
    requires page == ListPage(groups, search, BoundaryBefore(SortGroups(Matching(groups, search)), start), limit)
    ensures IsPageAt(SortGroups(Matching(groups, search)), limit, start, page)
  {
    hide ListPage, SortGroups, Matching, FirstPage;
    PageAt(groups, search, limit, start);
    FirstPageOfSuffix(SortGroups(Matching(groups, search)), limit, start);
  }

  lemma PageAfter(groups: seq<Group>, search: Option<Str>, limit: nat, start: nat, page: GroupPage, later: GroupPage)
    requires limit >= 1 && DistinctIds(groups) && Follows(groups, search, limit, page, later)
    requires IsPageAt(SortGroups(Matching(groups, search)), limit, start, page)
    ensures IsPageAt(SortGroups(Matching(groups, search)), limit, start + limit, later)
  {
    hide ListPage, SortGroups, Matching;
    PageFrom(groups, search, limit, start + limit, later);
  }

  /** The page number `n` starts where its predecessors end. */
  lemma {:induction false} PageNumber(groups: seq<Group>, search: Option<Str>, limit: nat, pages: seq<GroupPage>, n: nat)
    requires limit >= 1 && DistinctIds(groups) && IsWalkPrefix(groups, search, limit, pages) && n < |pages|
    ensures IsPageAt(SortGroups(Matching(groups, search)), limit, n * limit, pages[n])
  {
    hide ListPage, SortGroups, Matching, IsPageAt;
    if n == 0 {
      PageFrom(groups, search, limit, 0, pages[0]);
    } else {
      PageNumber(groups, search, limit, pages, n - 1);
      assert Follows(groups, search, limit, pages[n - 1], pages[n]);
      PageAfter(groups, search, limit, (n - 1) * limit, pages[n - 1], pages[n]);
      assert n * limit == (n - 1) * limit + limit;
    }
  }

  lemma {:induction false} WalkPrefix(groups: seq<Group>, search: Option<Str>, limit: nat, pages: seq<GroupPage>, n: nat)
    requires limit >= 1 && DistinctIds(groups) && IsWalkPrefix(groups, search, limit, pages) && 1 <= n <= |pages|
    ensures var sorted := SortGroups(Matching(groups, search));
            Concatenated(pages[..n]) == sorted[..Least((n - 1) * limit + limit, |sorted|)]
  {
    hide ListPage, SortGroups, Matching;
    var sorted, start := SortGroups(Matching(groups, search)), (n - 1) * limit;
    PageNumber(groups, search, limit, pages, n - 1);
    assert pages[..n][..n - 1] == pages[..n - 1];
    if n == 1 {
      assert Concatenated(pages[..0]) == [];
    } else {
      WalkPrefix(groups, search, limit, pages, n - 1);
      assert (n - 2) * limit + limit == start;
      assert Concatenated(pages[..n - 1]) == sorted[..start];
    }
    assert sorted[..start] + sorted[start..Least(start + limit, |sorted|)] == sorted[..Least(start + limit, |sorted|)];
  }

  lemma EarlierPagesAreFull(groups: seq<Group>, search: Option<Str>, limit: nat, pages: seq<GroupPage>)
    requires limit >= 1 && DistinctIds(groups) && IsWalkPrefix(groups, search, limit, pages) && |pages| > 1
    ensures (|pages| - 1) * limit < |SortGroups(Matching(groups, search))|
  {
    hide ListPage, SortGroups, Matching;
    var last := |pages| - 1;
    PageNumber(groups, search, limit, pages, last - 1);
    assert Follows(groups, search, limit, pages[last - 1], pages[last]);
    assert last * limit == (last - 1) * limit + limit;
  }

  /** Following the cursors comes to an end: however many pages were fetched, they
      are the beginning of a finished walk. */
  lemma {:induction false} WalkExtends(groups: seq<Group>, search: Option<Str>, limit: nat, pages: seq<GroupPage>)
    returns (walk: seq<GroupPage>)
    requires limit >= 1 && DistinctIds(groups) && IsWalkPrefix(groups, search, limit, pages)
    ensures IsWalk(groups, search, limit, walk) && pages <= walk
    decreases |SortGroups(Matching(groups, search))| - |pages|
  {
    hide ListPage, SortGroups, Matching;
    var last := |pages| - 1;
    if pages[last].hasMore {
      var longer := pages + [ListPage(groups, search, pages[last].next, limit)];
      assert forall i, j :: 0 <= i && j == i + 1 < |pages| ==> longer[i] == pages[i] && longer[j] == pages[j];
      PageNumber(groups, search, limit, pages, last);
      AtLeastOneEach(last, limit);
      walk := WalkExtends(groups, search, limit, longer);
    } else {
      walk := pages;
    }
  }

  lemma AtLeastOneEach(n: nat, limit: nat)
    requires limit >= 1
    ensures n <= n * limit
  {
  }

  /** So there is a finished walk. */
  lemma WalkExists(groups: seq<Group>, search: Option<Str>, limit: nat) returns (walk: seq<GroupPage>)
    requires limit >= 1 && DistinctIds(groups)
    ensures IsWalk(groups, search, limit, walk)
  {
    walk := WalkExtends(groups, search, limit, [ListPage(groups, search, None, limit)]);
  }

  /** Paging equals the sorted, filtered list: every matching group exactly once,
      in max(1, ceil(n / limit)) pages. */
  lemma WalkEqualsSortedList(groups: seq<Group>, search: Option<Str>, limit: nat, pages: seq<GroupPage>)
    requires limit >= 1 && DistinctIds(groups) && IsWalk(groups, search, limit, pages)
    ensures Concatenated(pages) == SortGroups(Matching(groups, search))
    ensures multiset(Concatenated(pages)) == multiset(Matching(groups, search))
    ensures Ascending(Compare, Concatenated(pages))
    ensures var n := |Matching(groups, search)|;
            (|pages| - 1) * limit < n <= (|pages| - 1) * limit + limit || (n == 0 && |pages| == 1)
  {
    hide ListPage, SortGroups, Matching, Concatenated, Compare;
    var matching := Matching(groups, search);
    var sorted, last := SortGroups(matching), |pages| - 1;
    assert pages[..|pages|] == pages;
    PageNumber(groups, search, limit, pages, last);
    WalkPrefix(groups, search, limit, pages, |pages|);
    MatchingIsSubsequence(groups, search);
    SortedGroups(matching);
    assert |multiset(sorted)| == |sorted| && |multiset(matching)| == |matching|;
    if |pages| > 1 {
      EarlierPagesAreFull(groups, search, limit, pages);
    }
  }
}
