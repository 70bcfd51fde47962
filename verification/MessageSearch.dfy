/** Message search over a blind index: text becomes terms, terms become HMAC
    tokens, and the store compares tokens only. */
module MessageSearch {
  import opened Order
  import opened Utf16
  import opened Utf8
  import opened Frames
  import opened Sorting
  import opened BlindIndex
  import opened Options

  const INDEX_VERSION := 1
  const QUERY_MAX_SCALARS := 256
  const QUERY_MAX_TERMS := 8

  /** The Unicode tables: the folding NFKC, lower case, NFKC; the characters a
      word starts with, and those it continues with. */
  datatype Language = Language(fold: Str -> Str, starts: CodePoint -> bool, continues: CodePoint -> bool)

  // ----- terms -----

  /** How many code points from the front a word goes on for. */
  function RunLength(lang: Language, cs: seq<CodePoint>): (n: nat)
    ensures n <= |cs|
  {
    if cs == [] || !lang.continues(cs[0]) then 0 else 1 + RunLength(lang, cs[1..])
  }

  /** `match(wordPattern)`: greedy words from left to right. */
  function Words(lang: Language, cs: seq<CodePoint>): seq<seq<CodePoint>>
    decreases |cs|
  {
    if cs == [] then []
    else if !lang.starts(cs[0]) then Words(lang, cs[1..])
    else
      var n := 1 + RunLength(lang, cs[1..]);
      [cs[..n]] + Words(lang, cs[n..])
  }

  function Joined(words: seq<seq<CodePoint>>): seq<Str> {
    seq(|words|, i requires 0 <= i < |words| => Encode(words[i]))
  }

  /** The order of `compareUtf8`. */
  function ByteOrder(a: Str, b: Str): int {
    Lex(TextEncode(a), TextEncode(b))
  }

  /** The sorted terms without repetitions of any list of strings. */
  function Canonical(terms: seq<Str>): seq<Str> {
    Sort(ByteOrder, Dedup(terms))
  }

  function RawTerms(lang: Language, value: Str): seq<Str> {
    Joined(Words(lang, CodePoints(lang.fold(value))))
  }

  /** `tokenizeMessageSearchText`; None is the exception on an ill-formed string. */
  function Tokenize(lang: Language, value: Str): Option<seq<Str>> {
    if !WellFormed(value) then None else Some(Canonical(RawTerms(lang, value)))
  }

  // ----- queries -----

  datatype Query = Query(version: nat, terms: seq<Str>)

  function ValidateQuery(lang: Language, query: Str): Option<Query> {
    if !WellFormed(query) || |CodePoints(query)| < 1 || |CodePoints(query)| > QUERY_MAX_SCALARS then None
    else
      var terms := Tokenize(lang, query).value;
      if |terms| < 1 || |terms| > QUERY_MAX_TERMS then None else Some(Query(INDEX_VERSION, terms))
  }

  /** A string that is its own only term. */
  predicate IsTerm(lang: Language, s: Str) {
    Tokenize(lang, s) == Some([s])
  }

  /** `hasCanonicalQueryTerms`. */
  predicate HasCanonicalTerms(lang: Language, query: Query) {
    && query.version == INDEX_VERSION && 1 <= |query.terms| <= QUERY_MAX_TERMS
    && |Dedup(query.terms)| == |query.terms|
    && Sort(ByteOrder, query.terms) == query.terms
    && forall i :: 0 <= i < |query.terms| ==> IsTerm(lang, query.terms[i])
  }

  /** `verifyMessageSearchCandidate`. */
  predicate Verify(lang: Language, plaintext: Str, query: Query) {
    && HasCanonicalTerms(lang, query)
    && var terms := Tokenize(lang, plaintext);
       terms.Some? && forall i :: 0 <= i < |query.terms| ==> query.terms[i] in terms.value
  }

  // ----- index tokens -----

  // "normal.message-search.index" and a NUL
  const HMAC_DOMAIN: seq<Byte> :=
    [110, 111, 114, 109, 97, 108, 46, 109, 101, 115, 115, 97, 103, 101, 45, 115, 101, 97, 114, 99, 104,
     46, 105, 110, 100, 101, 120, 0]

  // "msi1_"
  const TOKEN_PREFIX: Str := [109, 115, 105, 49, 95]

  function IndexFrame(connection: Str, term: Str): seq<Byte> {
    HMAC_DOMAIN + [1] + Framed([TextEncode(connection), TextEncode(term)])
  }

  /** `indexFrame`: three parts written at a moving offset. */
  method WriteIndexFrame(connection: Str, term: Str) returns (frame: array<Byte>)
    ensures frame[..] == IndexFrame(connection, term) && fresh(frame)
  {
    hide TextEncode, Framed, Be32;
    var c, t := TextEncode(connection), TextEncode(term);
    var n := |HMAC_DOMAIN|;
    frame := new Byte[n + 1 + 4 + |c| + 4 + |t|](_ => 0);
    Set(frame, HMAC_DOMAIN);
    frame[n] := 1;
    assert frame[..n + 1] == frame[..n] + [1];
    FramedPair(c, t);
    AppendBoth(frame, n + 1, c, t);
  }

  /** Two length-prefixed parts that fill the rest of the array. */
  method AppendBoth(frame: array<Byte>, offset: nat, c: seq<Byte>, t: seq<Byte>)
    requires frame.Length == offset + 4 + |c| + 4 + |t|
    modifies frame
    ensures frame[..] == old(frame[..offset]) + Be32(|c|) + c + Be32(|t|) + t
  {
    hide Be32;
    var middle := AppendLengthPrefixed(frame, offset, c);
    var end := AppendLengthPrefixed(frame, middle, t);
    assert frame[..end] == frame[..];
  }

  function Token(hmac: Hmac, connection: Str, term: Str): Str {
    Signed(hmac, TOKEN_PREFIX, IndexFrame(connection, term))
  }

  predicate IsShort(s: Str) {
    |TextEncode(s)| < WORD
  }

  /** A token identifies the connection and the term. */
  lemma TokenInjective(hmac: Hmac, c1: Str, t1: Str, c2: Str, t2: Str)
    requires IsInjective(hmac) && Token(hmac, c1, t1) == Token(hmac, c2, t2)
    requires WellFormed(c1) && WellFormed(t1) && WellFormed(c2) && WellFormed(t2)
    requires IsShort(c1) && IsShort(t1) && IsShort(c2) && IsShort(t2)
    ensures c1 == c2 && t1 == t2
  {
    hide TextEncode, Signed, Framed, WellFormed;
    var f1, f2 := IndexFrame(c1, t1), IndexFrame(c2, t2);
    SignedInjective(hmac, TOKEN_PREFIX, f1, f2);
    var p1, p2 := [TextEncode(c1), TextEncode(t1)], [TextEncode(c2), TextEncode(t2)];
    assert f1[29..] == Framed(p1) && f2[29..] == Framed(p2);
    FramedInjective(p1, p2);
    assert p1[0] == p2[0] && p1[1] == p2[1];
    TextEncodeEquality(c1, c2);
    TextEncodeEquality(t1, t2);
  }

  function Tokens(hmac: Hmac, connection: Str, terms: seq<Str>): seq<Str> {
    seq(|terms|, i requires 0 <= i < |terms| => Token(hmac, connection, terms[i]))
  }

  /** `messageSearchIndexesForTerms`; `isConnectionId` is the UUID pattern. */
  function IndexesForTerms(lang: Language, hmac: Hmac, isConnectionId: Str -> bool, connection: Str, terms: seq<Str>)
    : Option<seq<Str>>
  {
    if !isConnectionId(connection) then None
    else
      var canonical := Canonical(terms);
      if exists i :: 0 <= i < |canonical| && !IsTerm(lang, canonical[i]) then None
      else Some(Tokens(hmac, connection, canonical))
  }

  function IndexesForText(lang: Language, hmac: Hmac, isConnectionId: Str -> bool, connection: Str, plaintext: Str)
    : Option<seq<Str>>
  {
    var terms := Tokenize(lang, plaintext);
    if terms.None? then None else IndexesForTerms(lang, hmac, isConnectionId, connection, terms.value)
  }

  function IndexesForQuery(lang: Language, hmac: Hmac, isConnectionId: Str -> bool, connection: Str, query: Query)
    : Option<seq<Str>>
  {
    if HasCanonicalTerms(lang, query) then IndexesForTerms(lang, hmac, isConnectionId, connection, query.terms)
    else None
  }

  /** What is stored for a text are exactly the tokens of its terms, and a token shows
      nothing of connection and term but their keyed hash. */
  lemma StoredAreTokens(lang: Language, hmac: Hmac, isConnectionId: Str -> bool, connection: Str, text: Str, x: Str)
    requires IndexesForText(lang, hmac, isConnectionId, connection, text).Some?
    ensures isConnectionId(connection) && WellFormed(text)
    ensures x in IndexesForText(lang, hmac, isConnectionId, connection, text).value <==>
              exists t :: t in Tokenize(lang, text).value && x == Token(hmac, connection, t)
  {
    hide Token, Tokenize, Canonical, WellFormed;
    assert WellFormed(text) by { TokenizedIsWellFormed(lang, text); }
    var terms := Tokenize(lang, text).value;
    var canonical := Canonical(terms);
    var stored := IndexesForText(lang, hmac, isConnectionId, connection, text).value;
    CanonicalMembers(terms);
    assert |stored| == |canonical| && forall i :: 0 <= i < |stored| ==> stored[i] == Token(hmac, connection, canonical[i]);
    if x in stored {
      var i :| 0 <= i < |stored| && stored[i] == x;
      assert canonical[i] in terms;
    }
    if t :| t in terms && x == Token(hmac, connection, t) {
      var i :| 0 <= i < |canonical| && canonical[i] == t;
      assert stored[i] == x;
    }
  }

  lemma TokenizedIsWellFormed(lang: Language, text: Str)
    requires Tokenize(lang, text).Some?
    ensures WellFormed(text)
  {
  }

  lemma TokenIsBlind(hmac: Hmac, c1: Str, t1: Str, c2: Str, t2: Str)
    requires hmac(IndexFrame(c1, t1)) == hmac(IndexFrame(c2, t2))
    ensures Token(hmac, c1, t1) == Token(hmac, c2, t2)
  {
  }

  // ----- the order of terms -----

  lemma ByteOrderIsOrder(terms: seq<Str>)
    requires forall i :: 0 <= i < |terms| ==> WellFormed(terms[i])
    ensures OrderOn(ByteOrder, terms)
  {
    hide TextEncode, Lex;
    forall a, b | a in terms && b in terms
      ensures ByteOrder(a, b) == -ByteOrder(b, a) && (ByteOrder(a, b) == 0 <==> a == b)
    {
      LexAntisymmetric(TextEncode(a), TextEncode(b));
      EncodedOrder(a, b);
    }
    forall a, b, c | a in terms && b in terms && c in terms && ByteOrder(a, b) < 0 && ByteOrder(b, c) < 0
      ensures ByteOrder(a, c) < 0
    {
      LexTransitive(TextEncode(a), TextEncode(b), TextEncode(c));
    }
  }

  /** The term list of a text is a canonical form of its term set. */
  lemma TermsAreCanonical(a: seq<Str>, b: seq<Str>)
    requires (forall i :: 0 <= i < |a| ==> WellFormed(a[i])) && forall x :: x in a <==> x in b
    ensures Canonical(a) == Canonical(b) && Canonical(Canonical(a)) == Canonical(a)
    ensures forall x :: x in Canonical(a) <==> x in a
  {
    hide ByteOrder, WellFormed;
    ByteOrderIsOrder(a);
    CanonicalForm(ByteOrder, a, b);
    DedupKeeps(a);
    SortKeeps(ByteOrder, Dedup(a));
    CanonicalForm(ByteOrder, a, Canonical(a));
  }

  lemma CanonicalMembers(terms: seq<Str>)
    ensures forall x :: x in Canonical(terms) <==> x in terms
  {
    hide ByteOrder;
    DedupKeeps(terms);
    SortKeeps(ByteOrder, Dedup(terms));
  }

  /** The terms ascend by their UTF-8 bytes, none twice. */
  lemma TermsAscend(terms: seq<Str>, i: nat, j: nat)
    requires (forall k :: 0 <= k < |terms| ==> WellFormed(terms[k])) && i < j < |Canonical(terms)|
    ensures Lex(TextEncode(Canonical(terms)[i]), TextEncode(Canonical(terms)[j])) < 0
  {
    hide Sort, Dedup, WellFormed;
    DedupKeeps(terms);
    ByteOrderIsOrder(terms);
    OrderOnPart(ByteOrder, terms, Dedup(terms));
    SortSorts(ByteOrder, Dedup(terms));
  }

  lemma {:induction false} DedupOfDistinct(s: seq<Str>)
    ensures |Dedup(s)| <= |s| && (|Dedup(s)| == |s| <==> Dedup(s) == s)
  {
    if s != [] {
      var front := s[..|s| - 1];
      DedupOfDistinct(front);
      assert s == front + [s[|s| - 1]];
    }
  }

  lemma TermIsWellFormed(lang: Language, s: Str)
    requires IsTerm(lang, s)
    ensures WellFormed(s)
  {
  }

  /** The query check asks for a canonical list of terms. */
  lemma CanonicalQuery(lang: Language, query: Query)
    requires HasCanonicalTerms(lang, query)
    ensures Canonical(query.terms) == query.terms
    ensures forall i :: 0 <= i < |query.terms| ==> WellFormed(query.terms[i])
    ensures query.version == 1 && 1 <= |query.terms| <= 8
  {
    DedupOfDistinct(query.terms);
  }

  // ----- main results -----

  /** Whenever text and query can both be indexed, the store's token comparison,
      the comparison of terms and the check on the decrypted text agree. */
  lemma BlindSearchAgrees(lang: Language, hmac: Hmac, isConnectionId: Str -> bool, connection: Str, text: Str, query: Query)
    requires IsInjective(hmac) && WellFormed(connection) && IsShort(connection)
    requires IndexesForText(lang, hmac, isConnectionId, connection, text).Some?
    requires IndexesForQuery(lang, hmac, isConnectionId, connection, query).Some?
    requires forall t :: t in Tokenize(lang, text).value || t in query.terms ==> IsShort(t)
    ensures var stored := IndexesForText(lang, hmac, isConnectionId, connection, text).value;
            var wanted := IndexesForQuery(lang, hmac, isConnectionId, connection, query).value;
            var terms := Tokenize(lang, text).value;
            && ((forall x :: x in wanted ==> x in stored) <==> (forall t :: t in query.terms ==> t in terms))
            && ((forall x :: x in wanted ==> x in stored) <==> Verify(lang, text, query))
  {
    hide Token, TextEncode, Canonical, Tokenize, HasCanonicalTerms;
    var terms := Tokenize(lang, text).value;
    CanonicalQuery(lang, query);
    CanonicalMembers(terms);
    var stored, wanted := Tokens(hmac, connection, Canonical(terms)), Tokens(hmac, connection, query.terms);
    assert stored == IndexesForText(lang, hmac, isConnectionId, connection, text).value;
    assert wanted == IndexesForQuery(lang, hmac, isConnectionId, connection, query).value;
    if forall x :: x in wanted ==> x in stored {
      forall t | t in query.terms
        ensures t in terms
      {
        var i :| 0 <= i < |query.terms| && query.terms[i] == t;
        assert wanted[i] in stored;
        var j :| 0 <= j < |stored| && stored[j] == wanted[i];
        assert IsTerm(lang, Canonical(terms)[j]);
        TermIsWellFormed(lang, Canonical(terms)[j]);
        TokenInjective(hmac, connection, t, connection, Canonical(terms)[j]);
      }
    }
    if forall t :: t in query.terms ==> t in terms {
      forall x | x in wanted
        ensures x in stored
      {
        var i :| 0 <= i < |wanted| && wanted[i] == x;
        assert query.terms[i] in query.terms;
        var j :| 0 <= j < |Canonical(terms)| && Canonical(terms)[j] == query.terms[i];
        assert stored[j] == x;
      }
    }
  }

  // ----- every produced term is a term -----

  /** What is assumed of the Unicode tables: a starting character continues, and
      folding keeps strings well formed and leaves the words of a folded string alone. */
  ghost predicate Lawful(lang: Language) {
    && (forall c :: lang.starts(c) ==> lang.continues(c))
    && (forall v :: WellFormed(v) ==> WellFormed(lang.fold(v)))
    && (forall v, t :: WellFormed(v) && t in RawTerms(lang, v) ==> lang.fold(t) == t)
  }

  /** The assumption can be met: small letters that fold to themselves. */
  lemma SomeLanguageIsLawful()
    ensures Lawful(Language((v: Str) => v, (c: CodePoint) => 97 <= c <= 122, (c: CodePoint) => 97 <= c <= 122))
  {
  }

  ghost predicate IsWord(lang: Language, w: seq<CodePoint>) {
    w != [] && lang.starts(w[0]) && forall i :: 1 <= i < |w| ==> lang.continues(w[i])
  }

  lemma {:induction false} RunContinues(lang: Language, cs: seq<CodePoint>)
    ensures forall i :: 0 <= i < RunLength(lang, cs) ==> lang.continues(cs[i])
    ensures (forall i :: 0 <= i < |cs| ==> lang.continues(cs[i])) ==> RunLength(lang, cs) == |cs|
  {
    if cs != [] {
      RunContinues(lang, cs[1..]);
    }
  }

  lemma {:induction false} WordsAreWords(lang: Language, cs: seq<CodePoint>)
    requires AllScalars(cs)
    ensures forall w :: w in Words(lang, cs) ==> IsWord(lang, w) && AllScalars(w)
    decreases |cs|
  {
    if cs != [] {
      if !lang.starts(cs[0]) {
        WordsAreWords(lang, cs[1..]);
      } else {
        RunContinues(lang, cs[1..]);
        WordsAreWords(lang, cs[1 + RunLength(lang, cs[1..])..]);
      }
    }
  }

  /** A word is split into itself. */
  lemma WordsOfWord(lang: Language, w: seq<CodePoint>)
    requires IsWord(lang, w)
    ensures Words(lang, w) == [w]
  {
    RunContinues(lang, w[1..]);
    assert RunLength(lang, w[1..]) == |w| - 1;
    assert w[..|w|] == w && Words(lang, w[|w|..]) == [];
  }

  /** A match of the word pattern: a start, no earlier start from which a word
      would still be going on, and then continuing characters as far as they go. */
  ghost predicate IsMatch(lang: Language, cs: seq<CodePoint>, at: nat, n: nat) {
    && 1 <= n && at + n <= |cs| && lang.starts(cs[at])
    && (forall b :: 0 <= b < at && lang.starts(cs[b]) ==> exists i :: b < i <= at && !lang.continues(cs[i]))
    && (forall i :: at < i < at + n ==> lang.continues(cs[i]))
    && (at + n < |cs| ==> !lang.continues(cs[at + n]))
  }

  /** Dropping a front that no word reaches out of moves the matches along. */
  lemma MatchBehind(lang: Language, cs: seq<CodePoint>, m: nat, at: nat, n: nat)
    requires m <= at < |cs|
    requires forall b :: 0 <= b < m && lang.starts(cs[b]) ==> m < |cs| && !lang.continues(cs[m]) && b < m
    ensures IsMatch(lang, cs, at, n) <==> IsMatch(lang, cs[m..], at - m, n)
  {
    var rest := cs[m..];
    assert forall i :: m <= i < |cs| ==> cs[i] == rest[i - m];
    if IsMatch(lang, cs, at, n) {
      forall b | 0 <= b < at - m && lang.starts(rest[b])
        ensures exists i :: b < i <= at - m && !lang.continues(rest[i])
      {
        var i :| b + m < i <= at && !lang.continues(cs[i]);
        assert !lang.continues(rest[i - m]);
      }
    }
    if IsMatch(lang, rest, at - m, n) {
      forall b | 0 <= b < at && lang.starts(cs[b])
        ensures exists i :: b < i <= at && !lang.continues(cs[i])
      {
        if b >= m {
          var i :| b - m < i <= at - m && !lang.continues(rest[i]);
          assert !lang.continues(cs[i + m]);
        }
      }
    }
  }

  lemma {:induction false} RunEnds(lang: Language, cs: seq<CodePoint>)
    ensures var n := RunLength(lang, cs);
            (forall i :: 0 <= i < n ==> lang.continues(cs[i])) && (n < |cs| ==> !lang.continues(cs[n]))
  {
    if cs != [] && lang.continues(cs[0]) {
      RunEnds(lang, cs[1..]);
    }
  }

  ghost predicate IsMatched(lang: Language, cs: seq<CodePoint>, w: seq<CodePoint>) {
    exists at: nat, n: nat :: at + n <= |cs| && IsMatch(lang, cs, at, n) && w == cs[at..at + n]
  }

  /** How long the word at the front is, if there is one. */
  function FirstWord(lang: Language, cs: seq<CodePoint>): (n: nat)
    requires cs != []
    ensures n <= |cs|
  {
    if lang.starts(cs[0]) then 1 + RunLength(lang, cs[1..]) else 0
  }

  lemma FirstIsMatch(lang: Language, cs: seq<CodePoint>)
    requires cs != [] && lang.starts(cs[0])
    ensures IsMatch(lang, cs, 0, FirstWord(lang, cs))
  {
    RunEnds(lang, cs[1..]);
    assert forall i :: 1 <= i < |cs| ==> cs[i] == cs[1..][i - 1];
  }

  lemma FrontMatch(lang: Language, cs: seq<CodePoint>, n: nat)
    requires cs != [] && IsMatch(lang, cs, 0, n)
    ensures lang.starts(cs[0]) && n == FirstWord(lang, cs)
  {
    var m := FirstWord(lang, cs);
    FirstIsMatch(lang, cs);
    assert n < |cs| ==> !lang.continues(cs[n]);
    assert m < |cs| ==> !lang.continues(cs[m]);
  }

  /** A later match starts behind the word at the front, and before it no word goes on. */
  lemma LaterMatch(lang: Language, cs: seq<CodePoint>, at: nat, n: nat)
    requires cs != [] && 0 < at && IsMatch(lang, cs, at, n)
    ensures FirstWord(lang, cs) <= at
  {
    var m := FirstWord(lang, cs);
    if m > 0 {
      FirstIsMatch(lang, cs);
      var i :| 0 < i <= at && !lang.continues(cs[i]);
      assert m <= i;
    }
  }

  lemma FrontIsClosed(lang: Language, cs: seq<CodePoint>, m: nat, at: nat, n: nat)
    requires cs != [] && m == (if lang.starts(cs[0]) then FirstWord(lang, cs) else 1) && m <= at < |cs|
    ensures IsMatch(lang, cs, at, n) <==> IsMatch(lang, cs[m..], at - m, n)
  {
    hide FirstWord;
    if lang.starts(cs[0]) { FirstIsMatch(lang, cs); }
    MatchBehind(lang, cs, m, at, n);
  }

  lemma MatchedInRest(lang: Language, cs: seq<CodePoint>, m: nat, w: seq<CodePoint>)
    requires cs != [] && m == (if lang.starts(cs[0]) then FirstWord(lang, cs) else 1) && m <= |cs|
    ensures IsMatched(lang, cs[m..], w) ==> IsMatched(lang, cs, w)
  {
    hide FirstWord, IsMatch;
    if IsMatched(lang, cs[m..], w) {
      var at: nat, n: nat :| at + n <= |cs[m..]| && IsMatch(lang, cs[m..], at, n) && w == cs[m..][at..at + n];
      MatchInside(lang, cs[m..], at, n);
      FrontIsClosed(lang, cs, m, at + m, n);
      assert cs[m..][at..at + n] == cs[at + m..at + m + n];
    }
  }

  lemma MatchedBehind(lang: Language, cs: seq<CodePoint>, m: nat, at: nat, n: nat)
    requires cs != [] && m == (if lang.starts(cs[0]) then FirstWord(lang, cs) else 1) && m <= |cs|
    requires at > 0 && at + n <= |cs| && IsMatch(lang, cs, at, n)
    ensures IsMatched(lang, cs[m..], cs[at..at + n])
  {
    hide FirstWord, IsMatch;
    MatchInside(lang, cs, at, n);
    LaterMatch(lang, cs, at, n);
    FrontIsClosed(lang, cs, m, at, n);
    assert cs[at..at + n] == cs[m..][at - m..at - m + n];
  }

  lemma MatchedStep(lang: Language, cs: seq<CodePoint>, w: seq<CodePoint>)
    requires cs != []
    ensures var first := FirstWord(lang, cs);
            IsMatched(lang, cs, w) <==>
            (lang.starts(cs[0]) && w == cs[..first]) || IsMatched(lang, cs[if lang.starts(cs[0]) then first else 1..], w)
  {
    hide FirstWord, IsMatch;
    var first := FirstWord(lang, cs);
    var m := if lang.starts(cs[0]) then first else 1;
    if lang.starts(cs[0]) {
      FirstIsMatch(lang, cs);
      assert cs[0..0 + first] == cs[..first];
      assert IsMatched(lang, cs, cs[..first]);
    }
    MatchedInRest(lang, cs, m, w);
    if IsMatched(lang, cs, w) {
      var at: nat, n: nat :| at + n <= |cs| && IsMatch(lang, cs, at, n) && w == cs[at..at + n];
      if at == 0 {
        FrontMatch(lang, cs, n);
      } else {
        MatchedBehind(lang, cs, m, at, n);
      }
    }
  }

  lemma MatchInside(lang: Language, cs: seq<CodePoint>, at: nat, n: nat)
    requires IsMatch(lang, cs, at, n)
    ensures at < |cs| && at + n <= |cs|
  {
  }

  /** The words are the texts of all matches and of nothing else. */
  lemma {:induction false} WordsAreMatches(lang: Language, cs: seq<CodePoint>, w: seq<CodePoint>)
    ensures w in Words(lang, cs) <==> IsMatched(lang, cs, w)
    decreases |cs|
  {
    if cs == [] {
      NothingMatches(lang, w);
    } else {
      MatchedStep(lang, cs, w);
      hide IsMatched;
      WordsAreMatches(lang, cs[if lang.starts(cs[0]) then FirstWord(lang, cs) else 1..], w);
    }
  }

  lemma NothingMatches(lang: Language, w: seq<CodePoint>)
    ensures !IsMatched(lang, [], w)
  {
  }

  /** `t` is the text of a match. */
  ghost predicate MatchesText(lang: Language, points: seq<CodePoint>, t: Str) {
    exists w :: IsMatched(lang, points, w) && t == Encode(w)
  }

  /** The terms of a text are all the words of the folded text, and nothing else. */
  lemma TermsAreAllWords(lang: Language, value: Str, t: Str)
    requires WellFormed(value)
    ensures t in Tokenize(lang, value).value <==> MatchesText(lang, CodePoints(lang.fold(value)), t)
  {
    hide Canonical, CodePoints, Encode, IsMatched, WellFormed, Words;
    var points := CodePoints(lang.fold(value));
    var words, terms := Words(lang, points), RawTerms(lang, value);
    CanonicalMembers(terms);
    assert |terms| == |words| && forall k :: 0 <= k < |words| ==> terms[k] == Encode(words[k]);
    if t in terms {
      var k :| 0 <= k < |terms| && t == terms[k];
      WordsAreMatches(lang, points, words[k]);
    }
    if MatchesText(lang, points, t) {
      var w :| IsMatched(lang, points, w) && t == Encode(w);
      WordsAreMatches(lang, points, w);
      var k :| 0 <= k < |words| && words[k] == w;
      assert terms[k] == t;
    }
  }

  /** Every term produced tokenizes to itself alone. */
  lemma ProducedTermsAreTerms(lang: Language, value: Str)
    requires Lawful(lang) && WellFormed(value)
    ensures forall t :: t in Tokenize(lang, value).value ==> IsTerm(lang, t)
  {
    CanonicalMembers(RawTerms(lang, value));
    forall t | t in Tokenize(lang, value).value
      ensures IsTerm(lang, t)
    {
      RawTermIsTerm(lang, value, t);
    }
  }

  lemma RawTermIsTerm(lang: Language, value: Str, t: Str)
    requires Lawful(lang) && WellFormed(value) && t in RawTerms(lang, value)
    ensures IsTerm(lang, t)
  {
    var points := CodePoints(lang.fold(value));
    WordsAreWords(lang, points);
    var words := Words(lang, points);
    var i :| 0 <= i < |words| && t == Encode(words[i]);
    assert words[i] in words;
    CodePointsEncode(words[i]);
    WordsOfWord(lang, words[i]);
    assert RawTerms(lang, t) == [t];
    SingletonIsCanonical(t);
  }

  lemma SingletonIsCanonical(t: Str)
    ensures Canonical([t]) == [t]
  {
    hide ByteOrder;
    assert Dedup([t]) == [t] by { assert [t][..0] == []; }
    assert Sort(ByteOrder, [t][1..]) == [];
  }

  /** With lawful tables indexing never fails on well-formed text, and a
      validated query always passes the canonical check. */
  lemma IndexingSucceeds(lang: Language, hmac: Hmac, isConnectionId: Str -> bool, connection: Str, text: Str, raw: Str)
    requires Lawful(lang) && isConnectionId(connection) && WellFormed(text)
    ensures IndexesForText(lang, hmac, isConnectionId, connection, text).Some?
    ensures var query := ValidateQuery(lang, raw);
            query.Some? ==>
              && HasCanonicalTerms(lang, query.value)
              && IndexesForQuery(lang, hmac, isConnectionId, connection, query.value).Some?
  {
    hide Canonical, RawTerms, Lawful, IsTerm;
    ProducedTermsAreTerms(lang, text);
    CanonicalMembers(Tokenize(lang, text).value);
    var query := ValidateQuery(lang, raw);
    if query.Some? {
      ValidatedIsCanonical(lang, raw);
      CanonicalMembers(query.value.terms);
      assert forall i :: 0 <= i < |Canonical(query.value.terms)| ==> Canonical(query.value.terms)[i] in query.value.terms;
    }
  }

  lemma ValidatedIsCanonical(lang: Language, raw: Str)
    requires Lawful(lang) && ValidateQuery(lang, raw).Some?
    ensures HasCanonicalTerms(lang, ValidateQuery(lang, raw).value)
  {
    hide ByteOrder, Lawful, RawTerms, IsTerm;
    var terms := ValidateQuery(lang, raw).value.terms;
    ProducedTermsAreTerms(lang, raw);
    var rawTerms := RawTerms(lang, raw);
    forall i | 0 <= i < |terms|
      ensures IsTerm(lang, terms[i]) && WellFormed(terms[i])
    {
      assert terms[i] in terms;
      TermIsWellFormed(lang, terms[i]);
    }
    CanonicalMembers(rawTerms);
    SortedListIsCanonical(rawTerms);
  }

  /** A query is accepted exactly when it is well formed, has 1 to 256 characters, and
      folded has 1 to 8 different words. */
  lemma QueryIsValidIff(lang: Language, raw: Str)
    ensures ValidateQuery(lang, raw).Some? <==>
              && WellFormed(raw) && 1 <= |CodePoints(raw)| <= 256
              && exists words: set<Str> :: 1 <= |words| <= 8 && Stands(words, lang, raw)
    ensures ValidateQuery(lang, raw).Some? ==> ValidateQuery(lang, raw).value.version == 1
  {
    hide CodePoints, MatchesText, WellFormed, RawTerms, Canonical;
    if WellFormed(raw) {
      var terms := Tokenize(lang, raw).value;
      var all := set t | t in terms;
      DistinctTerms(RawTerms(lang, raw));
      SetOfDistinct(terms);
      forall t ensures t in all <==> MatchesText(lang, CodePoints(lang.fold(raw)), t) {
        TermsAreAllWords(lang, raw, t);
      }
      assert Stands(all, lang, raw);
      forall words: set<Str> | Stands(words, lang, raw) ensures words == all {
      }
    }
  }

  /** These are the words of the text, folded. */
  ghost predicate Stands(words: set<Str>, lang: Language, text: Str) {
    forall t :: t in words <==> MatchesText(lang, CodePoints(lang.fold(text)), t)
  }

  lemma DistinctTerms(terms: seq<Str>)
    ensures Distinct(Canonical(terms))
  {
    hide ByteOrder;
    DedupKeeps(terms);
    SortKeeps(ByteOrder, Dedup(terms));
    DistinctCounts(Dedup(terms));
    DistinctCounts(Canonical(terms));
  }

  lemma {:induction false} DistinctCounts(s: seq<Str>)
    ensures Distinct(s) <==> forall x :: multiset(s)[x] <= 1
  {
    if s != [] {
      var front, last := s[..|s| - 1], s[|s| - 1];
      DistinctCounts(front);
      assert s == front + [last];
      assert Distinct(s) <==> Distinct(front) && last !in front by {
        assert forall i :: 0 <= i < |front| ==> front[i] == s[i];
      }
      assert multiset(s) == multiset(front) + multiset{last};
      assert last in front <==> last in multiset(front);
      if Distinct(s) {
        forall x ensures multiset(s)[x] <= 1 { }
      } else {
        assert last in front || exists x :: multiset(front)[x] > 1;
        if last in front { assert multiset(s)[last] > 1; }
        if x :| multiset(front)[x] > 1 { assert multiset(s)[x] > 1; }
      }
    }
  }

  lemma {:induction false} SetOfDistinct(s: seq<Str>)
    requires Distinct(s)
    ensures |set t | t in s| == |s|
  {
    if s != [] {
      var front, last := s[..|s| - 1], s[|s| - 1];
      SetOfDistinct(front);
      assert s == front + [last];
      assert (set t | t in s) == (set t | t in front) + {last};
      assert last !in front;
    }
  }

  /** A validated query finds a text exactly when every word of the query is a word
      of the text, both folded. */
  lemma SearchFindsWords(lang: Language, text: Str, raw: Str)
    requires Lawful(lang) && WellFormed(text) && ValidateQuery(lang, raw).Some?
    ensures Verify(lang, text, ValidateQuery(lang, raw).value) <==>
              forall t :: MatchesText(lang, CodePoints(lang.fold(raw)), t) ==>
                MatchesText(lang, CodePoints(lang.fold(text)), t)
  {
    hide Canonical, RawTerms, MatchesText, Lawful, HasCanonicalTerms, WellFormed;
    ValidatedIsCanonical(lang, raw);
    var wanted, found := Tokenize(lang, raw).value, Tokenize(lang, text).value;
    forall t ensures t in wanted <==> MatchesText(lang, CodePoints(lang.fold(raw)), t) {
      TermsAreAllWords(lang, raw, t);
    }
    forall t ensures t in found <==> MatchesText(lang, CodePoints(lang.fold(text)), t) {
      TermsAreAllWords(lang, text, t);
    }
  }

  lemma SortedListIsCanonical(terms: seq<Str>)
    requires forall i :: 0 <= i < |Canonical(terms)| ==> WellFormed(Canonical(terms)[i])
    ensures var sorted := Canonical(terms);
            Sort(ByteOrder, sorted) == sorted && |Dedup(sorted)| == |sorted|
  {
    hide ByteOrder, WellFormed;
    var sorted := Canonical(terms);
    ByteOrderIsOrder(sorted);
    CanonicalMembers(terms);
    DedupKeeps(terms);
    OrderOnPart(ByteOrder, sorted, Dedup(terms));
    SortSorts(ByteOrder, Dedup(terms));
    AscendingIsDistinct(sorted);
    SortSorts(ByteOrder, sorted);
    SortKeeps(ByteOrder, sorted);
    AscendingIsUnique(ByteOrder, sorted, Sort(ByteOrder, sorted));
    DedupOfDistinct(sorted);
    DistinctIsDeduped(sorted);
  }

  lemma AscendingIsDistinct(s: seq<Str>)
    requires Ascending(ByteOrder, s) && OrderOn(ByteOrder, s)
    ensures Distinct(s)
  {
    hide ByteOrder;
  }

  lemma {:induction false} DistinctIsDeduped(s: seq<Str>)
    requires Distinct(s)
    ensures Dedup(s) == s
  {
    if s != [] {
      var front := s[..|s| - 1];
      DistinctIsDeduped(front);
      assert s == front + [s[|s| - 1]];
    }
  }
}
