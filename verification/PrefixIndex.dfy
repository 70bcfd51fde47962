/** Blind prefix search over group and contact names: the stored indexes of a
    name's prefixes against the one index of a search. */
module PrefixIndex {
  import opened Utf16
  import opened Utf8
  import opened BlindIndex
  import opened Options
  import GroupPages

  const SHORTEST := 3
  const LONGEST := 64

  // ----- what both indexes share -----

  /** The signed message is a fixed head and the value, encoded together. */
  function Index(hmac: Hmac, tag: Str, head: Str, value: Str): Str {
    Signed(hmac, tag, TextEncode(head + value))
  }

  /** The indexes of all prefixes of 3 to 64 characters. */
  function PrefixIndexes(hmac: Hmac, tag: Str, head: Str, name: Str): seq<Str> {
    var all := CodePoints(name);
    var characters := if |all| <= LONGEST then all else all[..LONGEST];
    var count := if |characters| < SHORTEST then 0 else |characters| - 2;
    seq(count, i requires 0 <= i < count => Index(hmac, tag, head, Encode(characters[..i + SHORTEST])))
  }

  predicate IsSearchable(search: Str) {
    SHORTEST <= |CodePoints(search)| <= LONGEST
  }

  /** An index shows nothing of the value but its keyed hash. */
  lemma IndexIsBlind(hmac: Hmac, tag: Str, h1: Str, v1: Str, h2: Str, v2: Str)
    requires hmac(TextEncode(h1 + v1)) == hmac(TextEncode(h2 + v2))
    ensures Index(hmac, tag, h1, v1) == Index(hmac, tag, h2, v2)
  {
  }

  lemma IndexInjective(hmac: Hmac, tag: Str, head: Str, a: Str, b: Str)
    requires IsInjective(hmac) && WellFormed(head)
    ensures Index(hmac, tag, head, a) == Index(hmac, tag, head, b) <==>
            Scrub(CodePoints(a)) == Scrub(CodePoints(b))
  {
    hide Signed, TextEncode, CodePoints, WellFormed;
    TextEncodeAppend(head, a);
    TextEncodeAppend(head, b);
    TextEncodeEquality(a, b);
    if Index(hmac, tag, head, a) == Index(hmac, tag, head, b) {
      SignedInjective(hmac, tag, TextEncode(head + a), TextEncode(head + b));
      assert TextEncode(head + a)[|TextEncode(head)|..] == TextEncode(a);
      assert TextEncode(head + b)[|TextEncode(head)|..] == TextEncode(b);
    }
  }

  lemma PrefixAt(hmac: Hmac, tag: Str, head: Str, name: Str, search: Str, k: nat)
    requires IsInjective(hmac) && WellFormed(head) && SHORTEST <= k <= LONGEST && k <= |CodePoints(name)|
    ensures k - SHORTEST < |PrefixIndexes(hmac, tag, head, name)|
    ensures PrefixIndexes(hmac, tag, head, name)[k - SHORTEST] == Index(hmac, tag, head, search) <==>
            Scrub(CodePoints(search)) == Scrub(CodePoints(name))[..k]
  {
    hide CodePoints, Index;
    var all := CodePoints(name);
    var characters := if |all| <= LONGEST then all else all[..LONGEST];
    assert characters[..k] == all[..k];
    JoinedPrefix(name, k);
    IndexInjective(hmac, tag, head, Encode(all[..k]), search);
    assert Scrub(all[..k]) == Scrub(all)[..k];
  }

  /** The index of a search is stored exactly when the search is a prefix, code
      point by code point, with unpaired surrogates read as U+FFFD; cutting the
      name at 64 characters never changes the answer. */
  lemma PrefixIndexAgrees(hmac: Hmac, tag: Str, head: Str, name: Str, search: Str)
    requires IsInjective(hmac) && WellFormed(head) && IsSearchable(search)
    ensures Index(hmac, tag, head, search) in PrefixIndexes(hmac, tag, head, name) <==>
            Scrub(CodePoints(search)) <= Scrub(CodePoints(name))
    ensures WellFormed(search) && WellFormed(name) ==>
              (Index(hmac, tag, head, search) in PrefixIndexes(hmac, tag, head, name) <==> search <= name)
  {
    hide CodePoints, Index, PrefixIndexes;
    var indexes := PrefixIndexes(hmac, tag, head, name);
    var s, n := Scrub(CodePoints(search)), Scrub(CodePoints(name));
    PrefixIndexCount(hmac, tag, head, name);
    if Index(hmac, tag, head, search) in indexes {
      var i :| 0 <= i < |indexes| && indexes[i] == Index(hmac, tag, head, search);
      PrefixAt(hmac, tag, head, name, search, i + SHORTEST);
    }
    if s <= n {
      PrefixAt(hmac, tag, head, name, search, |s|);
    }
    if WellFormed(search) && WellFormed(name) {
      ScrubOfWellFormed(search);
      ScrubOfWellFormed(name);
      PrefixIffCodePointPrefix(search, name);
    }
  }

  lemma PrefixIndexCount(hmac: Hmac, tag: Str, head: Str, name: Str)
    ensures |PrefixIndexes(hmac, tag, head, name)| + 2 <= LONGEST || PrefixIndexes(hmac, tag, head, name) == []
    ensures PrefixIndexes(hmac, tag, head, name) != [] ==>
              |PrefixIndexes(hmac, tag, head, name)| + 2 <= |CodePoints(name)|
  {
    hide Index, CodePoints;
  }

  /** On ill-formed names the index is coarser than the plain prefix search. */
  lemma IllFormedNamesMatch(hmac: Hmac, tag: Str, head: Str)
    requires IsInjective(hmac) && WellFormed(head)
    ensures var search: Str := [97, 98, 0xD800];
            var name: Str := [97, 98, 0xFFFD];
            Index(hmac, tag, head, search) in PrefixIndexes(hmac, tag, head, name) && !(search <= name)
  {
    var search: Str, name: Str := [97, 98, 0xD800], [97, 98, 0xFFFD];
    assert search[1..] == [98, 0xD800] && search[1..][1..] == [0xD800] && search[1..][1..][1..] == [];
    assert name[1..] == [98, 0xFFFD] && name[1..][1..] == [0xFFFD] && name[1..][1..][1..] == [];
    assert CodePoints(search) == [97, 98, 0xD800] && CodePoints(name) == [97, 98, 0xFFFD];
    assert Scrub(CodePoints(search)) == Scrub(CodePoints(name));
    PrefixIndexAgrees(hmac, tag, head, name, search);
  }

  // ----- groups -----

  // "gi1_", "group-directory-index-v1" and NUL, NUL "display-name-prefix" NUL
  const GROUP_TAG: Str := [103, 105, 49, 95]
  const GROUP_DOMAIN: Str :=
    [103, 114, 111, 117, 112, 45, 100, 105, 114, 101, 99, 116, 111, 114, 121, 45, 105, 110, 100, 101, 120, 45, 118, 49, 0]
  const DISPLAY_NAME_PREFIX: Str :=
    [100, 105, 115, 112, 108, 97, 121, 45, 110, 97, 109, 101, 45, 112, 114, 101, 102, 105, 120]

  function GroupHead(connection: Str): Str {
    GROUP_DOMAIN + connection + [0] + DISPLAY_NAME_PREFIX + [0]
  }

  /** `groupSearchIndex`; `fold` is NFKC and lower case. */
  function GroupSearchIndex(hmac: Hmac, isConnectionId: Str -> bool, fold: Str -> Str, connection: Str, search: Str)
    : Option<Str>
  {
    var normalized := fold(search);
    if !IsSearchable(normalized) || !isConnectionId(connection) then None
    else Some(Index(hmac, GROUP_TAG, GroupHead(connection), normalized))
  }

  /** `groupNamePrefixIndexes`. */
  function GroupNamePrefixIndexes(hmac: Hmac, isConnectionId: Str -> bool, fold: Str -> Str, connection: Str, name: Option<Str>)
    : Option<seq<Str>>
  {
    if name.None? then Some([])
    else
      var indexes := PrefixIndexes(hmac, GROUP_TAG, GroupHead(connection), fold(name.value));
      if indexes != [] && !isConnectionId(connection) then None else Some(indexes)
  }

  lemma {:induction false} AsciiIsWellFormed(s: Str)
    requires forall i :: 0 <= i < |s| ==> s[i] < 0x80
    ensures WellFormed(s)
  {
    if s != [] {
      AsciiIsWellFormed(s[1..]);
      AllScalarsCons(s[0], CodePoints(s[1..]));
    }
  }

  /** A search has an index exactly for a connection id and 3 to 64 folded characters. */
  lemma GroupSearchIndexIff(hmac: Hmac, isConnectionId: Str -> bool, fold: Str -> Str, connection: Str, search: Str)
    ensures GroupSearchIndex(hmac, isConnectionId, fold, connection, search).Some? <==>
              isConnectionId(connection) && 3 <= |CodePoints(fold(search))| <= 64
  {
  }

  /** A group without a name is stored without indexes; indexing fails exactly for a name
      of three characters or more under something that is no connection id. */
  lemma GroupIndexesIff(hmac: Hmac, isConnectionId: Str -> bool, fold: Str -> Str, connection: Str, name: Option<Str>)
    ensures var stored := GroupNamePrefixIndexes(hmac, isConnectionId, fold, connection, name);
            && (stored.None? <==> name.Some? && |CodePoints(fold(name.value))| >= 3 && !isConnectionId(connection))
            && (stored == Some([]) <==> name.None? || |CodePoints(fold(name.value))| < 3)
  {
    hide CodePoints, Index;
  }

  /** Indexes of different connections never meet, and those of one only for values that
      have the same bytes. */
  lemma GroupIndexesSeparate(hmac: Hmac, c1: Str, v1: Str, c2: Str, v2: Str)
    requires IsInjective(hmac) && IsAscii(c1) && IsAscii(c2)
    ensures Index(hmac, GROUP_TAG, GroupHead(c1), v1) == Index(hmac, GROUP_TAG, GroupHead(c2), v2) <==>
              c1 == c2 && Scrub(CodePoints(v1)) == Scrub(CodePoints(v2))
  {
    hide CodePoints, Signed, TextEncode, GroupHead, Bytes;
    GroupHeadIsAscii(c1);
    GroupHeadIsAscii(c2);
    AsciiIsWellFormed(GroupHead(c1));
    AsciiIsWellFormed(GroupHead(c2));
    if c1 == c2 {
      IndexInjective(hmac, GROUP_TAG, GroupHead(c1), v1, v2);
    } else if Index(hmac, GROUP_TAG, GroupHead(c1), v1) == Index(hmac, GROUP_TAG, GroupHead(c2), v2) {
      var m1, m2 := GroupHead(c1) + v1, GroupHead(c2) + v2;
      SignedInjective(hmac, GROUP_TAG, TextEncode(m1), TextEncode(m2));
      ReplacedEquality(m1, m2);
      ReplacedGroupMessage(c1, v1);
      ReplacedGroupMessage(c2, v2);
      GroupLayout(c1, Replaced(v1), c2, Replaced(v2));
    }
  }

  lemma GroupHeadIsAscii(connection: Str)
    requires IsAscii(connection)
    ensures forall i :: 0 <= i < |GroupHead(connection)| ==> GroupHead(connection)[i] < 0x80
  {
  }

  lemma ReplacedGroupMessage(connection: Str, value: Str)
    requires IsAscii(connection)
    ensures Replaced(GroupHead(connection) + value) == GroupHead(connection) + Replaced(value)
  {
    hide CodePoints, Encode, Scrub, GroupHead;
    GroupHeadIsAscii(connection);
    AsciiIsWellFormed(GroupHead(connection));
    GroupHeadEnds(connection);
    ReplacedAppend(GroupHead(connection), value);
    ReplacedEncodes(GroupHead(connection));
  }

  lemma GroupHeadEnds(connection: Str)
    ensures GroupHead(connection) != [] && GroupHead(connection)[|GroupHead(connection)| - 1] == 0
  {
  }

  lemma GroupLayout(c1: Str, v1: Str, c2: Str, v2: Str)
    requires NoNul(c1) && NoNul(c2) && GroupHead(c1) + v1 == GroupHead(c2) + v2
    ensures c1 == c2 && v1 == v2
  {
    var rest1, rest2 := DISPLAY_NAME_PREFIX + [0] + v1, DISPLAY_NAME_PREFIX + [0] + v2;
    assert GroupHead(c1) + v1 == GROUP_DOMAIN + (c1 + [0] + rest1);
    assert GroupHead(c2) + v2 == GROUP_DOMAIN + (c2 + [0] + rest2);
    assert (GroupHead(c1) + v1)[|GROUP_DOMAIN|..] == c1 + [0] + rest1;
    assert (GroupHead(c2) + v2)[|GROUP_DOMAIN|..] == c2 + [0] + rest2;
    SplitAtNul(c1, rest1, c2, rest2);
    assert rest1[|DISPLAY_NAME_PREFIX| + 1..] == v1 && rest2[|DISPLAY_NAME_PREFIX| + 1..] == v2;
  }

  /** What `list_groups` asks the store for. The search was folded when the request
      was read, and the index folds it again; names are folded once. */
  function ListedGroupIndex(hmac: Hmac, isConnectionId: Str -> bool, fold: Str -> Str, connection: Str, input: Str)
    : Option<Str>
  {
    GroupSearchIndex(hmac, isConnectionId, fold, connection, fold(input))
  }

  ghost predicate KeepsWellFormed(fold: Str -> Str) {
    forall s: Str :: WellFormed(s) ==> WellFormed(fold(s))
  }

  predicate IsAscii(s: Str) {
    forall i :: 0 <= i < |s| ==> 0 < s[i] < 0x80
  }

  /** The store has the index of the twice folded search exactly for the names that
      start with it when folded once. */
  lemma GroupIndexFinds(hmac: Hmac, isConnectionId: Str -> bool, fold: Str -> Str, connection: Str, input: Str, name: Str)
    requires IsInjective(hmac) && isConnectionId(connection) && IsAscii(connection)
    requires WellFormed(fold(fold(input))) && WellFormed(fold(name))
    ensures ListedGroupIndex(hmac, isConnectionId, fold, connection, input).Some? <==> IsSearchable(fold(fold(input)))
    ensures GroupNamePrefixIndexes(hmac, isConnectionId, fold, connection, Some(name)).Some?
    ensures var index := ListedGroupIndex(hmac, isConnectionId, fold, connection, input);
            var stored := GroupNamePrefixIndexes(hmac, isConnectionId, fold, connection, Some(name)).value;
            index.Some? ==> (index.value in stored <==> fold(fold(input)) <= fold(name))
  {
    hide Index, PrefixIndexes, CodePoints, WellFormed;
    AsciiIsWellFormed(GroupHead(connection));
    if IsSearchable(fold(fold(input))) {
      PrefixIndexAgrees(hmac, GROUP_TAG, GroupHead(connection), fold(name), fold(fold(input)));
    }
  }

  /** The store selects a group of this name exactly when the filter on the once
      folded search keeps it. */
  predicate SelectsAsFiltered(hmac: Hmac, isConnectionId: Str -> bool, fold: Str -> Str, connection: Str,
                              input: Str, name: Str, publicId: Str)
  {
    var index := ListedGroupIndex(hmac, isConnectionId, fold, connection, input);
    var stored := GroupNamePrefixIndexes(hmac, isConnectionId, fold, connection, Some(name));
    var group := GroupPages.Group(publicId, fold(name));
    && index.Some? && stored.Some?
    && (index.value in stored.value <==> group in GroupPages.Matching([group], Some(fold(input))))
  }

  /** The index exists and agrees with the in-memory filter on all well-formed names
      if and only if folding the search a second time leaves it alone. */
  lemma GroupSearchAgrees(hmac: Hmac, isConnectionId: Str -> bool, fold: Str -> Str, connection: Str,
                          input: Str, publicId: Str)
    requires IsInjective(hmac) && isConnectionId(connection) && IsAscii(connection)
    requires KeepsWellFormed(fold) && WellFormed(input) && IsSearchable(fold(input))
    ensures (forall name: Str :: WellFormed(name) ==>
               SelectsAsFiltered(hmac, isConnectionId, fold, connection, input, name, publicId))
            <==> fold(fold(input)) == fold(input)
  {
    hide WellFormed, IsSearchable, SelectsAsFiltered;
    var once, twice := fold(input), fold(fold(input));
    forall name: Str | WellFormed(name)
      ensures SelectsAsFiltered(hmac, isConnectionId, fold, connection, input, name, publicId) <==>
              IsSearchable(twice) && (twice <= fold(name) <==> once <= fold(name))
    {
      SelectedIff(hmac, isConnectionId, fold, connection, input, name, publicId);
    }
    if forall name: Str :: WellFormed(name) ==>
         SelectsAsFiltered(hmac, isConnectionId, fold, connection, input, name, publicId)
    {
      assert SelectsAsFiltered(hmac, isConnectionId, fold, connection, input, input, publicId);
      assert SelectsAsFiltered(hmac, isConnectionId, fold, connection, input, once, publicId);
    }
  }

  lemma SelectedIff(hmac: Hmac, isConnectionId: Str -> bool, fold: Str -> Str, connection: Str,
                    input: Str, name: Str, publicId: Str)
    requires IsInjective(hmac) && isConnectionId(connection) && IsAscii(connection)
    requires KeepsWellFormed(fold) && WellFormed(input) && WellFormed(name)
    ensures SelectsAsFiltered(hmac, isConnectionId, fold, connection, input, name, publicId) <==>
            IsSearchable(fold(fold(input))) && (fold(fold(input)) <= fold(name) <==> fold(input) <= fold(name))
  {
    hide WellFormed, IsSearchable, Index, PrefixIndexes;
    assert WellFormed(fold(input)) && WellFormed(fold(fold(input))) && WellFormed(fold(name));
    GroupIndexFinds(hmac, isConnectionId, fold, connection, input, name);
    var group := GroupPages.Group(publicId, fold(name));
    GroupPages.MatchingIsSubsequence([group], Some(fold(input)));
  }

  // ----- a search that folding changes twice -----

  // "J" and "j" with U+030C, and U+01F0, which NFKC composes from the latter
  const LARGE_J: Str := [0x4A, 0x30C]
  const SMALL_J: Str := [0x6A, 0x30C]
  const COMPOSED_J: Str := [0x1F0]
  const ABC: Str := [0x61, 0x62, 0x63]
  const A: Str := [0x61]

  /** NFKC finds nothing to compose in the capital letter; lower case leaves a pair
      that a second NFKC does compose. */
  ghost predicate FoldsCaron(fold: Str -> Str, rest: Str) {
    fold(LARGE_J + rest) == SMALL_J + rest && fold(SMALL_J + rest) == COMPOSED_J + rest
  }

  /** A group of exactly the searched name is not found by the store, although the
      filter would keep it. */
  lemma GroupNotFoundByItsName(hmac: Hmac, isConnectionId: Str -> bool, fold: Str -> Str, connection: Str, publicId: Str)
    requires IsInjective(hmac) && isConnectionId(connection) && IsAscii(connection) && FoldsCaron(fold, ABC)
    ensures var input := LARGE_J + ABC;
            var index := ListedGroupIndex(hmac, isConnectionId, fold, connection, input);
            var stored := GroupNamePrefixIndexes(hmac, isConnectionId, fold, connection, Some(input));
            var group := GroupPages.Group(publicId, fold(input));
            && IsSearchable(fold(input)) && index.Some? && stored.Some?
            && index.value !in stored.value && group in GroupPages.Matching([group], Some(fold(input)))
  {
    hide CodePoints, Index, PrefixIndexes;
    var input := LARGE_J + ABC;
    UnitsStandAlone(SMALL_J + ABC);
    UnitsStandAlone(COMPOSED_J + ABC);
    GroupIndexFinds(hmac, isConnectionId, fold, connection, input, input);
    assert (COMPOSED_J + ABC)[0] != (SMALL_J + ABC)[0];
    var group := GroupPages.Group(publicId, fold(input));
    GroupPages.MatchingIsSubsequence([group], Some(fold(input)));
  }

  /** A search long enough for the request can be too short for the index, and the
      tool then answers that the service is unavailable. */
  lemma GroupSearchTooShort(hmac: Hmac, isConnectionId: Str -> bool, fold: Str -> Str, connection: Str)
    requires FoldsCaron(fold, A)
    ensures IsSearchable(fold(LARGE_J + A))
    ensures ListedGroupIndex(hmac, isConnectionId, fold, connection, LARGE_J + A).None?
  {
    UnitsStandAlone(SMALL_J + A);
    UnitsStandAlone(COMPOSED_J + A);
  }

  /** A string without surrogates has one code point for each unit. */
  lemma {:induction false} UnitsStandAlone(s: Str)
    requires forall i :: 0 <= i < |s| ==> s[i] < 0xD800
    ensures CodePoints(s) == s && WellFormed(s)
  {
    if s != [] {
      UnitsStandAlone(s[1..]);
      AllScalarsCons(s[0], CodePoints(s[1..]));
      assert s == [s[0]] + s[1..];
    }
  }

  // ----- contacts -----

  // "di1_", "directory-index-v1" and NUL
  const CONTACT_TAG: Str := [100, 105, 49, 95]
  const CONTACT_DOMAIN: Str :=
    [100, 105, 114, 101, 99, 116, 111, 114, 121, 45, 105, 110, 100, 101, 120, 45, 118, 49, 0]
  const PLUS: CodeUnit := 43

  datatype Namespace = DisplayNamePrefix | Phone | ProviderIdentity

  function NamespaceText(namespace: Namespace): Str {
    match namespace
    case DisplayNamePrefix => DISPLAY_NAME_PREFIX
    case Phone => [112, 104, 111, 110, 101]
    case ProviderIdentity =>
      [112, 114, 111, 118, 105, 100, 101, 114, 45, 105, 100, 101, 110, 116, 105, 116, 121]
  }

  lemma NamespacesSpell()
    ensures NamespaceText(Phone) == ['p' as int, 'h' as int, 'o' as int, 'n' as int, 'e' as int]
    ensures NamespaceText(ProviderIdentity) ==
            ['p' as int, 'r' as int, 'o' as int, 'v' as int, 'i' as int, 'd' as int, 'e' as int, 'r' as int, '-' as int,
             'i' as int, 'd' as int, 'e' as int, 'n' as int, 't' as int, 'i' as int, 't' as int, 'y' as int]
  {
  }

  function ContactHead(connection: Str, namespace: Namespace): Str {
    CONTACT_DOMAIN + connection + [0] + NamespaceText(namespace) + [0]
  }

  predicate IsPhone(search: Str) {
    && 8 <= |search| <= 16 && search[0] == PLUS && 49 <= search[1] <= 57
    && forall i :: 2 <= i < |search| ==> 48 <= search[i] <= 57
  }

  datatype ContactIndex = ContactIndex(index: Str, byPhone: bool)

  /** `contactSearchIndex`; `fold` is NFKC, trimming, single spaces and lower case. */
  function ContactSearchIndex(hmac: Hmac, fold: Str -> Str, connection: Str, search: Str): Option<ContactIndex> {
    if IsPhone(search) then Some(ContactIndex(Index(hmac, CONTACT_TAG, ContactHead(connection, Phone), search), true))
    else if search != [] && search[0] == PLUS then None
    else
      var normalized := fold(search);
      if !IsSearchable(normalized) then None
      else Some(ContactIndex(Index(hmac, CONTACT_TAG, ContactHead(connection, DisplayNamePrefix), normalized), false))
  }

  /** A telephone number is a plus sign and 7 to 15 digits, the first not zero. */
  lemma PhoneIff(search: Str)
    ensures IsPhone(search) <==>
              && search != [] && search[0] == '+' as int && 7 <= |search[1..]| <= 15 && search[1..][0] != '0' as int
              && forall i :: 0 <= i < |search[1..]| ==> '0' as int <= search[1..][i] <= '9' as int
  {
    if search != [] {
      assert forall i :: 1 <= i < |search| ==> search[i] == search[1..][i - 1];
      if |search| > 1 { assert search[1..][0] == search[1]; }
    }
  }

  /** A contact search has an index exactly for a telephone number, or for 3 to 64
      folded characters of something that does not start with a plus sign. */
  lemma ContactSearchIndexIff(hmac: Hmac, fold: Str -> Str, connection: Str, search: Str)
    ensures var found := ContactSearchIndex(hmac, fold, connection, search);
            var byName := (search != [] ==> search[0] != '+' as int) && 3 <= |CodePoints(fold(search))| <= 64;
            && (found.Some? <==> IsPhone(search) || byName)
            && (found.Some? ==> (found.value.byPhone <==> IsPhone(search)))
  {
    hide CodePoints;
  }

  /** `namePrefixIndexes`. */
  function ContactNamePrefixIndexes(hmac: Hmac, fold: Str -> Str, connection: Str, name: Option<Str>): seq<Str> {
    if name.None? then []
    else PrefixIndexes(hmac, CONTACT_TAG, ContactHead(connection, DisplayNamePrefix), fold(name.value))
  }

  predicate NoNul(s: Str) {
    forall i :: 0 <= i < |s| ==> s[i] != 0
  }

  /** Up to its first NUL a string has no other. */
  lemma SplitAtNul(a: Str, x: Str, b: Str, y: Str)
    requires NoNul(a) && NoNul(b) && a + [0] + x == b + [0] + y
    ensures a == b && x == y
  {
    var s := a + [0] + x;
    assert s[|a|] == 0 && s[|b|] == 0;
    assert forall i :: 0 <= i < |a| ==> s[i] == a[i];
    assert forall i :: 0 <= i < |b| ==> s[i] == b[i];
    assert a == s[..|a|] && b == s[..|b|] && x == s[|a| + 1..] && y == s[|b| + 1..];
  }

  /** The layout separates connections, namespaces and values. */
  lemma ContactLayoutInjective(c1: Str, n1: Namespace, v1: Str, c2: Str, n2: Namespace, v2: Str)
    requires NoNul(c1) && NoNul(c2) && ContactHead(c1, n1) + v1 == ContactHead(c2, n2) + v2
    ensures c1 == c2 && n1 == n2 && v1 == v2
  {
    hide NamespaceText, ContactHead;
    var t1, t2 := NamespaceText(n1), NamespaceText(n2);
    ContactMessage(c1, n1, v1);
    ContactMessage(c2, n2, v2);
    NamespacesDiffer(n1, n2);
    SplitAtNul(c1, t1 + [0] + v1, c2, t2 + [0] + v2);
    SplitAtNul(t1, v1, t2, v2);
  }

  lemma ContactMessage(connection: Str, namespace: Namespace, value: Str)
    ensures (ContactHead(connection, namespace) + value)[|CONTACT_DOMAIN|..] ==
            connection + [0] + (NamespaceText(namespace) + [0] + value)
  {
    hide NamespaceText;
    var rest := connection + [0] + (NamespaceText(namespace) + [0] + value);
    assert ContactHead(connection, namespace) + value == CONTACT_DOMAIN + rest;
  }

  lemma NamespacesDiffer(a: Namespace, b: Namespace)
    ensures NoNul(NamespaceText(a)) && NoNul(NamespaceText(b))
    ensures NamespaceText(a) == NamespaceText(b) ==> a == b
  {
    assert NamespaceText(Phone)[0] != NamespaceText(DisplayNamePrefix)[0];
    assert |NamespaceText(Phone)| == 5 && |NamespaceText(DisplayNamePrefix)| == 19 && |NamespaceText(ProviderIdentity)| == 17;
  }

  /** A contact is found by name exactly when the folded search is a prefix of the
      folded name; a search by phone number never meets a name's index. */
  lemma ContactSearchAgrees(hmac: Hmac, fold: Str -> Str, connection: Str, search: Str, name: Str)
    requires IsInjective(hmac) && ContactSearchIndex(hmac, fold, connection, search).Some?
    requires forall i :: 0 <= i < |connection| ==> 0 < connection[i] < 0x80
    requires WellFormed(search) && WellFormed(fold(search)) && WellFormed(fold(name))
    ensures var found := ContactSearchIndex(hmac, fold, connection, search).value;
            var stored := ContactNamePrefixIndexes(hmac, fold, connection, Some(name));
            && (found.byPhone <==> IsPhone(search))
            && (found.index in stored <==> !found.byPhone && fold(search) <= fold(name))
  {
    hide Index, PrefixIndexes, CodePoints;
    var head := ContactHead(connection, DisplayNamePrefix);
    AsciiIsWellFormed(head);
    if IsPhone(search) {
      PhoneMeetsNoName(hmac, connection, search, fold(name));
    } else {
      PrefixIndexAgrees(hmac, CONTACT_TAG, head, fold(name), fold(search));
    }
  }

  lemma PhoneMeetsNoName(hmac: Hmac, connection: Str, phone: Str, name: Str)
    requires IsInjective(hmac) && WellFormed(name) && IsPhone(phone)
    requires forall i :: 0 <= i < |connection| ==> 0 < connection[i] < 0x80
    ensures Index(hmac, CONTACT_TAG, ContactHead(connection, Phone), phone)
            !in PrefixIndexes(hmac, CONTACT_TAG, ContactHead(connection, DisplayNamePrefix), name)
  {
    hide CodePoints, Index, ContactHead, IsPhone;
    var head := ContactHead(connection, DisplayNamePrefix);
    var indexes := PrefixIndexes(hmac, CONTACT_TAG, head, name);
    var all := CodePoints(name);
    forall i | 0 <= i < |indexes|
      ensures indexes[i] != Index(hmac, CONTACT_TAG, ContactHead(connection, Phone), phone)
    {
      var characters := if |all| <= LONGEST then all else all[..LONGEST];
      assert characters[..i + 3] == all[..i + 3];
      NameAndPhoneDiffer(hmac, connection, phone, name, i + 3);
    }
  }

  lemma NameAndPhoneDiffer(hmac: Hmac, connection: Str, phone: Str, name: Str, k: nat)
    requires IsInjective(hmac) && WellFormed(name) && IsPhone(phone) && k <= |CodePoints(name)|
    requires forall i :: 0 <= i < |connection| ==> 0 < connection[i] < 0x80
    ensures Index(hmac, CONTACT_TAG, ContactHead(connection, DisplayNamePrefix), Encode(CodePoints(name)[..k]))
            != Index(hmac, CONTACT_TAG, ContactHead(connection, Phone), phone)
  {
    hide CodePoints, Signed, TextEncode, Encode, ContactHead, IsPhone, WellFormed;
    var prefix := Encode(CodePoints(name)[..k]);
    var m1 := ContactHead(connection, DisplayNamePrefix) + prefix;
    var m2 := ContactHead(connection, Phone) + phone;
    NameMessageIsWellFormed(connection, name, k);
    PhoneMessageIsWellFormed(connection, phone);
    if Index(hmac, CONTACT_TAG, ContactHead(connection, DisplayNamePrefix), prefix)
        == Index(hmac, CONTACT_TAG, ContactHead(connection, Phone), phone) {
      SignedInjective(hmac, CONTACT_TAG, TextEncode(m1), TextEncode(m2));
      TextEncodeEquality(m1, m2);
      ContactLayoutInjective(connection, DisplayNamePrefix, prefix, connection, Phone, phone);
      assert false;
    }
  }

  lemma NameMessageIsWellFormed(connection: Str, name: Str, k: nat)
    requires WellFormed(name) && k <= |CodePoints(name)|
    requires forall i :: 0 <= i < |connection| ==> 0 < connection[i] < 0x80
    ensures WellFormed(ContactHead(connection, DisplayNamePrefix) + Encode(CodePoints(name)[..k]))
  {
    hide CodePoints, Encode, ContactHead;
    HeadIsAscii(connection, DisplayNamePrefix);
    AsciiIsWellFormed(ContactHead(connection, DisplayNamePrefix));
    JoinedPrefix(name, k);
    TextEncodeAppend(ContactHead(connection, DisplayNamePrefix), Encode(CodePoints(name)[..k]));
  }

  lemma PhoneMessageIsWellFormed(connection: Str, phone: Str)
    requires IsPhone(phone)
    requires forall i :: 0 <= i < |connection| ==> 0 < connection[i] < 0x80
    ensures WellFormed(ContactHead(connection, Phone) + phone)
  {
    hide ContactHead, WellFormed;
    HeadIsAscii(connection, Phone);
    AsciiIsWellFormed(ContactHead(connection, Phone) + phone);
  }

  lemma HeadIsAscii(connection: Str, namespace: Namespace)
    requires forall i :: 0 <= i < |connection| ==> 0 < connection[i] < 0x80
    ensures forall i :: 0 <= i < |ContactHead(connection, namespace)| ==> ContactHead(connection, namespace)[i] < 0x80
  {
    NamesAreAscii(namespace);
    hide NamespaceText;
    var domain: Str := CONTACT_DOMAIN;
    assert forall i :: 0 <= i < |domain| ==> domain[i] < 0x80;
  }

  lemma NamesAreAscii(namespace: Namespace)
    ensures forall i :: 0 <= i < |NamespaceText(namespace)| ==> NamespaceText(namespace)[i] < 0x80
  {
  }

  // ----- the search of `list_contacts` -----

  predicate StartsWithPlus(s: Str) {
    s != [] && s[0] == PLUS
  }

  /** What `list_contacts` asks the store for: unless it starts with a plus sign, the
      search was folded when the request was read, and is looked at anew. */
  function ListedContactIndex(hmac: Hmac, fold: Str -> Str, connection: Str, input: Str): Option<ContactIndex> {
    ContactSearchIndex(hmac, fold, connection, if StartsWithPlus(input) then input else fold(input))
  }

  /** The store selects a contact of this name exactly when its folded name starts
      with the once folded search. */
  predicate SelectsByName(hmac: Hmac, fold: Str -> Str, connection: Str, input: Str, name: Str) {
    var found := ListedContactIndex(hmac, fold, connection, input);
    && found.Some?
    && (found.value.index in ContactNamePrefixIndexes(hmac, fold, connection, Some(name)) <==> fold(input) <= fold(name))
  }

  /** An accepted search by name agrees with the names if and only if folding it
      brought no plus sign to its front and folding it again leaves it alone. */
  lemma ContactListAgreesIff(hmac: Hmac, fold: Str -> Str, connection: Str, input: Str)
    requires IsInjective(hmac) && IsAscii(connection) && KeepsWellFormed(fold)
    requires WellFormed(input) && !StartsWithPlus(input) && IsSearchable(fold(input))
    ensures (forall name: Str :: WellFormed(name) ==> SelectsByName(hmac, fold, connection, input, name))
            <==> !StartsWithPlus(fold(input)) && fold(fold(input)) == fold(input)
  {
    hide WellFormed, IsSearchable, IsPhone, SelectsByName;
    var once, twice := fold(input), fold(fold(input));
    forall name: Str | WellFormed(name)
      ensures SelectsByName(hmac, fold, connection, input, name) <==>
              ListedContactIndex(hmac, fold, connection, input).Some?
              && (!IsPhone(once) && twice <= fold(name) <==> once <= fold(name))
    {
      ContactSelectedIff(hmac, fold, connection, input, name);
    }
    PhoneStartsWithPlus(once);
    if forall name: Str :: WellFormed(name) ==> SelectsByName(hmac, fold, connection, input, name) {
      assert SelectsByName(hmac, fold, connection, input, input);
      assert SelectsByName(hmac, fold, connection, input, once);
    }
  }

  lemma PhoneStartsWithPlus(s: Str)
    ensures IsPhone(s) ==> StartsWithPlus(s)
  {
  }

  lemma ContactSelectedIff(hmac: Hmac, fold: Str -> Str, connection: Str, input: Str, name: Str)
    requires IsInjective(hmac) && IsAscii(connection) && KeepsWellFormed(fold)
    requires WellFormed(input) && !StartsWithPlus(input) && WellFormed(name)
    ensures SelectsByName(hmac, fold, connection, input, name) <==>
            ListedContactIndex(hmac, fold, connection, input).Some?
            && (!IsPhone(fold(input)) && fold(fold(input)) <= fold(name) <==> fold(input) <= fold(name))
  {
    hide WellFormed, IsSearchable, Index, PrefixIndexes, ContactSearchIndex, ContactNamePrefixIndexes, IsPhone;
    assert WellFormed(fold(input)) && WellFormed(fold(fold(input))) && WellFormed(fold(name));
    if ListedContactIndex(hmac, fold, connection, input).Some? {
      ContactSearchAgrees(hmac, fold, connection, fold(input), name);
    }
  }

  // U+FF0B, which NFKC turns into a plus sign
  const WIDE_PLUS: Str := [0xFF0B]

  /** A search starting with the full-width plus sign is accepted and then refused. */
  lemma WidePlusIsRefused(hmac: Hmac, fold: Str -> Str, connection: Str)
    requires fold(WIDE_PLUS + ABC) == [PLUS] + ABC
    ensures !StartsWithPlus(WIDE_PLUS + ABC) && IsSearchable(fold(WIDE_PLUS + ABC))
    ensures ListedContactIndex(hmac, fold, connection, WIDE_PLUS + ABC).None?
  {
    UnitsStandAlone([PLUS] + ABC);
    assert ([PLUS] + ABC)[1] == 0x61;
  }
}
