/** Base64 as the API reads and writes it: sections 3.5, 4 and 5 of RFC 4648,
    with `atob` as the forgiving decode of the WHATWG Infra standard. */
module Base64 {
  import opened Utf16
  import opened Utf8
  import opened Options

  type Sextet = n: int | 0 <= n < 64
  const PAD: CodeUnit := 61

  // ----- bytes and sextets -----

  function First(a: Byte): Sextet { a / 4 }
  function Second(a: Byte, b: Byte): Sextet { a % 4 * 16 + b / 16 }
  function Third(b: Byte, c: Byte): Sextet { b % 16 * 4 + c / 64 }
  function Fourth(c: Byte): Sextet { c % 64 }

  function Upper(w: Sextet, x: Sextet): Byte { w as int * 4 + x as int / 16 }
  function Middle(x: Sextet, y: Sextet): Byte { x as int % 16 * 16 + y as int / 4 }
  function Lower(y: Sextet, z: Sextet): Byte { y as int % 4 * 64 + z as int }

  lemma OctetsOfGroup(a: Byte, b: Byte, c: Byte)
    ensures Upper(First(a), Second(a, b)) == a
    ensures Middle(Second(a, b), Third(b, c)) == b
    ensures Lower(Third(b, c), Fourth(c)) == c
  {
  }

  lemma SextetsOfGroup(w: Sextet, x: Sextet, y: Sextet, z: Sextet)
    ensures First(Upper(w, x)) == w
    ensures Second(Upper(w, x), Middle(x, y)) == x
    ensures Third(Middle(x, y), Lower(y, z)) == y
    ensures Fourth(Lower(y, z)) == z
  {
  }

  /** Eight-bit groups regrouped by six; the last sextet is filled with zeros. */
  function Sextets(b: seq<Byte>): (v: seq<Sextet>)
    ensures 4 * |b| <= 3 * |v| <= 4 * |b| + 2
  {
    if b == [] then []
    else if |b| == 1 then [First(b[0]), Second(b[0], 0)]
    else if |b| == 2 then [First(b[0]), Second(b[0], b[1]), Third(b[1], 0)]
    else [First(b[0]), Second(b[0], b[1]), Third(b[1], b[2]), Fourth(b[2])] + Sextets(b[3..])
  }

  /** The whole bytes among the sextets; what is left over is dropped. */
  function Octets(v: seq<Sextet>): (b: seq<Byte>)
    ensures |b| == 3 * |v| / 4
  {
    if |v| < 2 then []
    else if |v| == 2 then [Upper(v[0], v[1])]
    else if |v| == 3 then [Upper(v[0], v[1]), Middle(v[1], v[2])]
    else [Upper(v[0], v[1]), Middle(v[1], v[2]), Lower(v[2], v[3])] + Octets(v[4..])
  }

  /** Section 3.5 of RFC 4648: the bits that no byte uses are zero. */
  predicate UnusedBitsZero(v: seq<Sextet>) {
    && (|v| % 4 == 2 ==> v[|v| - 1] % 16 == 0)
    && (|v| % 4 == 3 ==> v[|v| - 1] % 4 == 0)
  }

  lemma OctetsOfShort(w: Sextet, x: Sextet, y: Sextet)
    ensures Octets([w, x]) == [Upper(w, x)]
    ensures Octets([w, x, y]) == [Upper(w, x), Middle(x, y)]
  {
    var two, three := [w, x], [w, x, y];
    assert |two| == 2 && |three| == 3;
  }

  lemma OctetsOfOne(a: Byte)
    ensures Octets(Sextets([a])) == [a]
  {
    var v := Sextets([a]);
    assert v == [First(a), Second(a, 0)];
    assert Octets(v) == [Upper(First(a), Second(a, 0))];
    assert Second(a, 0) == a % 4 * 16;
  }

  lemma OctetsOfTwo(a: Byte, b: Byte)
    ensures Octets(Sextets([a, b])) == [a, b]
  {
    OctetsOfShort(First(a), Second(a, b), Third(b, 0));
    OctetsOfGroup(a, b, 0);
    assert Sextets([a, b]) == [First(a), Second(a, b), Third(b, 0)];
  }

  lemma {:induction false} OctetsOfSextets(b: seq<Byte>)
    ensures Octets(Sextets(b)) == b
  {
    if |b| > 2 {
      var head, rest := b[..3], b[3..];
      OctetsOfSextets(rest);
      OctetsOfGroup(b[0], b[1], b[2]);
      SextetsStep(head, rest);
      assert b == head + rest;
      OctetsStep([First(b[0]), Second(b[0], b[1]), Third(b[1], b[2]), Fourth(b[2])], Sextets(rest));
    } else if |b| == 2 {
      OctetsOfTwo(b[0], b[1]);
      assert b == [b[0], b[1]];
    } else if |b| == 1 {
      OctetsOfOne(b[0]);
      assert b == [b[0]];
    }
  }

  lemma {:induction false} SextetsUnusedBits(b: seq<Byte>)
    ensures UnusedBitsZero(Sextets(b)) && |Sextets(b)| % 4 != 1
  {
    hide First, Second, Third, Fourth;
    if |b| > 2 {
      SextetsUnusedBits(b[3..]);
      UnusedBitsStep([First(b[0]), Second(b[0], b[1]), Third(b[1], b[2]), Fourth(b[2])], Sextets(b[3..]));
    } else if |b| > 0 {
      FillBits(b[0]);
      FillBits(b[|b| - 1]);
    }
  }

  lemma FillBits(a: Byte)
    ensures Second(a, 0) % 16 == 0 && Third(a, 0) % 4 == 0
  {
  }

  lemma OctetsStep(head: seq<Sextet>, rest: seq<Sextet>)
    requires |head| == 4
    ensures Octets(head + rest) ==
            [Upper(head[0], head[1]), Middle(head[1], head[2]), Lower(head[2], head[3])] + Octets(rest)
  {
    assert (head + rest)[4..] == rest;
  }

  lemma SextetsStep(head: seq<Byte>, rest: seq<Byte>)
    requires |head| == 3
    ensures Sextets(head + rest) ==
            [First(head[0]), Second(head[0], head[1]), Third(head[1], head[2]), Fourth(head[2])] + Sextets(rest)
  {
    assert (head + rest)[3..] == rest;
  }

  lemma UnusedBitsStep(head: seq<Sextet>, rest: seq<Sextet>)
    requires |head| == 4
    ensures UnusedBitsZero(head + rest) <==> UnusedBitsZero(rest)
  {
    assert rest != [] ==> (head + rest)[|head + rest| - 1] == rest[|rest| - 1];
  }

  lemma {:induction false} SextetsOfOctets(v: seq<Sextet>)
    requires |v| % 4 != 1
    ensures Sextets(Octets(v)) == v <==> UnusedBitsZero(v)
  {
    hide First, Second, Third, Fourth, Upper, Middle, Lower;
    if |v| >= 4 {
      var head, rest := v[..4], v[4..];
      assert v == head + rest;
      SextetsOfOctets(rest);
      OctetsStep(head, rest);
      UnusedBitsStep(head, rest);
      SextetsOfGroup(v[0], v[1], v[2], v[3]);
      SextetsStep([Upper(v[0], v[1]), Middle(v[1], v[2]), Lower(v[2], v[3])], Octets(rest));
      assert head == [v[0], v[1], v[2], v[3]];
      assert Sextets(Octets(v)) == head + Sextets(Octets(rest));
      assert Sextets(Octets(v))[4..] == Sextets(Octets(rest));
    } else if |v| == 3 {
      SextetsOfThree(v[0], v[1], v[2]);
      assert v == [v[0], v[1], v[2]];
    } else if |v| == 2 {
      SextetsOfTwo(v[0], v[1]);
      assert v == [v[0], v[1]];
    }
  }

  lemma ClearedUpper(w: Sextet, x: Sextet)
    ensures First(Upper(w, x)) == w
    ensures Second(Upper(w, x), 0) == x / 16 * 16
  {
    assert 0 <= x / 16 < 4;
    assert Upper(w, x) == 4 * w + x / 16;
  }

  lemma ClearedMiddle(x: Sextet, y: Sextet)
    ensures Third(Middle(x, y), 0) == y / 4 * 4
  {
    assert 0 <= y / 4 < 16;
    assert Middle(x, y) == 16 * (x % 16) + y / 4;
  }

  lemma ClearedSextets(w: Sextet, x: Sextet, y: Sextet)
    ensures First(Upper(w, x)) == w
    ensures Second(Upper(w, x), 0) == x / 16 * 16
    ensures Third(Middle(x, y), 0) == y / 4 * 4
  {
    hide First, Second, Third, Upper, Middle;
    ClearedUpper(w, x);
    ClearedMiddle(x, y);
  }

  lemma SextetsOfTwo(w: Sextet, x: Sextet)
    ensures Sextets(Octets([w, x])) == [w, x / 16 * 16]
  {
    hide First, Second, Third, Fourth, Upper, Middle, Lower;
    OctetsOfShort(w, x, x);
    ClearedSextets(w, x, x);
    var b := [Upper(w, x)];
    assert Sextets(b) == [First(b[0]), Second(b[0], 0)];
  }

  lemma SextetsOfThree(w: Sextet, x: Sextet, y: Sextet)
    ensures Sextets(Octets([w, x, y])) == [w, x, y / 4 * 4]
  {
    hide First, Second, Third, Fourth, Upper, Middle, Lower;
    OctetsOfShort(w, x, y);
    ClearedSextets(w, x, y);
    SextetsOfGroup(w, x, y, y);
    var b := [Upper(w, x), Middle(x, y)];
    assert Sextets(b) == [First(b[0]), Second(b[0], b[1]), Third(b[1], 0)];
  }

  // ----- sextets and symbols -----

  predicate IsSymbol(code: CodeUnit) {
    65 <= code <= 90 || 97 <= code <= 122 || 48 <= code <= 57 || code == 43 || code == 47
  }

  predicate AllSymbols(s: seq<CodeUnit>) {
    forall i :: 0 <= i < |s| ==> IsSymbol(s[i])
  }

  function Symbol(v: Sextet): (code: CodeUnit)
    ensures IsSymbol(code)
  {
    if v < 26 then v + 65 else if v < 52 then v + 71
    else if v < 62 then v - 4 else if v == 62 then 43 else 47
  }

  function Value(code: CodeUnit): (v: Sextet)
    requires IsSymbol(code)
    ensures Symbol(v) == code
  {
    if 65 <= code <= 90 then code - 65
    else if 97 <= code <= 122 then code - 71
    else if 48 <= code <= 57 then code + 4
    else if code == 43 then 62 else 63
  }

  function Symbols(v: seq<Sextet>): (s: seq<CodeUnit>)
    ensures |s| == |v| && AllSymbols(s)
    ensures forall i :: 0 <= i < |v| ==> s[i] == Symbol(v[i])
  {
    seq(|v|, i requires 0 <= i < |v| => Symbol(v[i]))
  }

  function Values(s: seq<CodeUnit>): (v: seq<Sextet>)
    requires AllSymbols(s)
    ensures |v| == |s| && forall i :: 0 <= i < |s| ==> v[i] == Value(s[i])
  {
    seq(|s|, i requires 0 <= i < |s| => Value(s[i]))
  }

  lemma SymbolsOfValues(s: seq<CodeUnit>)
    requires AllSymbols(s)
    ensures Symbols(Values(s)) == s
  {
    assert forall i :: 0 <= i < |s| ==> Symbols(Values(s))[i] == s[i];
  }

  lemma ValuesOfSymbols(v: seq<Sextet>)
    ensures Values(Symbols(v)) == v
  {
    forall i | 0 <= i < |v|
      ensures Values(Symbols(v))[i] == v[i]
    {
      ValueOfSymbol(v[i]);
    }
  }

  lemma ValueOfSymbol(v: Sextet)
    ensures Value(Symbol(v)) == v
  {
  }

  // ----- btoa and atob -----

  function Pads(n: nat): (s: seq<CodeUnit>)
    ensures |s| == n && forall i :: 0 <= i < n ==> s[i] == PAD
  {
    seq(n, _ => PAD)
  }

  /** How many `=` complete `n` symbols to quads. */
  function Missing(n: nat): (p: nat)
    ensures p < 4 && (n + p) % 4 == 0
  {
    (4 - n % 4) % 4
  }

  /** `btoa` on a binary string. */
  function Btoa(b: seq<Byte>): seq<CodeUnit> {
    Symbols(Sextets(b)) + Pads(Missing(|Sextets(b)|))
  }

  /** Table 1 of RFC 4648: the letters in order, the digits in order, then `+` and `/`. */
  lemma SymbolsAreTable(v: Sextet)
    ensures Symbol(0) == 'A' as int && Symbol(25) == 'Z' as int && Symbol(26) == 'a' as int && Symbol(51) == 'z' as int
    ensures Symbol(52) == '0' as int && Symbol(61) == '9' as int && Symbol(62) == '+' as int && Symbol(63) == '/' as int
    ensures v !in {25, 51, 61, 62, 63} ==> Symbol(v + 1) == Symbol(v) + 1
    ensures forall code: CodeUnit :: IsSymbol(code) ==> (Value(code) == v <==> code == Symbol(v))
    ensures forall code: CodeUnit :: IsSymbol(code) <==> exists w: Sextet :: Symbol(w) == code
  {
    forall code: CodeUnit | IsSymbol(code) ensures Value(code) == v <==> code == Symbol(v) {
      ValueOfSymbol(v);
    }
    forall code: CodeUnit | IsSymbol(code) ensures exists w: Sextet :: Symbol(w) == code {
      assert Symbol(Value(code)) == code;
    }
  }

  /** Table 2 of RFC 4648 differs in its last two symbols. */
  lemma UrlSymbolsAreTable(v: Sextet)
    ensures ToUrl(Symbol(v)) == (if v == 62 then '-' as int else if v == 63 then '_' as int else Symbol(v))
    ensures FromUrl(ToUrl(Symbol(v))) == Symbol(v)
  {
  }

  lemma BtoaLength(b: seq<Byte>)
    ensures |Btoa(b)| == (|b| + 2) / 3 * 4 && Missing(|Sextets(b)|) <= 2
  {
    hide Sextets;
    SextetsUnusedBits(b);
    var n := |Btoa(b)| / 4;
    assert |Btoa(b)| == 4 * n && 3 * n - 2 <= |b| <= 3 * n;
  }

  /** How many `=` the string ends with, at most two. */
  function Padding(s: seq<CodeUnit>): (p: nat)
    ensures p <= 2 && p <= |s|
  {
    if |s| >= 2 && s[|s| - 1] == PAD && s[|s| - 2] == PAD then 2
    else if |s| >= 1 && s[|s| - 1] == PAD then 1
    else 0
  }

  function Body(s: seq<CodeUnit>): seq<CodeUnit> {
    s[..|s| - Padding(s)]
  }

  predicate IsAsciiWhitespace(code: CodeUnit) {
    code == 9 || code == 10 || code == 12 || code == 13 || code == 32
  }

  function WithoutWhitespace(s: seq<CodeUnit>): seq<CodeUnit> {
    if s == [] then []
    else if IsAsciiWhitespace(s[0]) then WithoutWhitespace(s[1..])
    else [s[0]] + WithoutWhitespace(s[1..])
  }

  /** The forgiving decoder drops tabs, line feeds, form feeds, carriage returns and
      spaces, and keeps everything else in order. */
  lemma {:induction false} WhitespaceIsDropped(a: seq<CodeUnit>, b: seq<CodeUnit>)
    ensures WithoutWhitespace(a + b) == WithoutWhitespace(a) + WithoutWhitespace(b)
    ensures forall code: CodeUnit ::
              WithoutWhitespace([code]) == if code in {0x9, 0xA, 0xC, 0xD, ' ' as int} then [] else [code]
  {
    forall code: CodeUnit
      ensures WithoutWhitespace([code]) == if code in {0x9, 0xA, 0xC, 0xD, ' ' as int} then [] else [code]
    {
      assert [code][1..] == [] && WithoutWhitespace([]) == [];
    }
    if a == [] {
      assert a + b == b;
    } else {
      assert (a + b)[0] == a[0] && (a + b)[1..] == a[1..] + b;
      WhitespaceIsDropped(a[1..], b);
    }
  }

  function Atob(value: seq<CodeUnit>): Option<seq<Byte>> {
    var data := WithoutWhitespace(value);
    var body := if |data| % 4 == 0 then Body(data) else data;
    if |body| % 4 == 1 || !AllSymbols(body) then None
    else Some(Octets(Values(body)))
  }

  // ----- canonical strings -----

  /** Quads of symbols, the last one padded with at most two `=`. */
  predicate IsPadded(s: seq<CodeUnit>) {
    |s| > 0 && |s| % 4 == 0 && AllSymbols(Body(s))
  }

  predicate IsCanonical(s: seq<CodeUnit>) {
    IsPadded(s) && UnusedBitsZero(Values(Body(s)))
  }

  lemma PaddingBehindSymbols(body: seq<CodeUnit>, n: nat)
    requires AllSymbols(body) && n <= 2
    ensures Padding(body + Pads(n)) == n && Body(body + Pads(n)) == body
  {
    var s := body + Pads(n);
    assert body != [] ==> body[|body| - 1] != PAD;
    assert n < |s| ==> s[|s| - 1 - n] == body[|body| - 1];
  }

  lemma BodyAndPads(s: seq<CodeUnit>)
    ensures s == Body(s) + Pads(Padding(s))
  {
  }

  /** What `btoa` writes is canonical and carries all the bytes. */
  lemma BtoaCanonical(b: seq<Byte>)
    requires b != []
    ensures IsCanonical(Btoa(b)) && Octets(Values(Body(Btoa(b)))) == b
    ensures Body(Btoa(b)) == Symbols(Sextets(b))
  {
    hide Sextets, Octets;
    BtoaLength(b);
    PaddingBehindSymbols(Symbols(Sextets(b)), Missing(|Sextets(b)|));
    ValuesOfSymbols(Sextets(b));
    OctetsOfSextets(b);
    SextetsUnusedBits(b);
  }

  lemma BtoaOfOctets(v: seq<Sextet>, p: nat)
    requires UnusedBitsZero(v) && |v| % 4 != 1 && p <= 2 && (|v| + p) % 4 == 0
    ensures Btoa(Octets(v)) == Symbols(v) + Pads(p)
  {
    hide Sextets, Octets;
    SextetsOfOctets(v);
    MissingUnique(|v|, p);
  }

  lemma MissingUnique(n: nat, p: nat)
    requires p <= 2 && (n + p) % 4 == 0
    ensures Missing(n) == p
  {
  }

  lemma CanonicalReencoded(s: seq<CodeUnit>)
    requires IsCanonical(s)
    ensures Btoa(Octets(Values(Body(s)))) == s
  {
    hide Sextets, Octets;
    BodyAndPads(s);
    SymbolsOfValues(Body(s));
    BtoaOfOctets(Values(Body(s)), Padding(s));
  }

  /** A padded string is re-encoded to itself exactly when it is canonical. */
  lemma ReencodedIffCanonical(s: seq<CodeUnit>)
    requires IsPadded(s)
    ensures Octets(Values(Body(s))) != []
    ensures Btoa(Octets(Values(Body(s)))) == s <==> IsCanonical(s)
  {
    hide Sextets, Octets, Btoa;
    var b := Octets(Values(Body(s)));
    PaddedLength(s);
    if IsCanonical(s) {
      CanonicalReencoded(s);
    } else {
      BtoaCanonical(b);
    }
  }

  /** The unused bits as `isStandardPaddedBase64` finds them. */
  lemma CanonicalByLastSymbol(s: seq<CodeUnit>)
    requires IsPadded(s)
    ensures 0 < |Body(s)| == |s| - Padding(s) && IsSymbol(s[|s| - Padding(s) - 1])
    ensures IsCanonical(s) <==>
              || Padding(s) == 0
              || Value(s[|s| - Padding(s) - 1]) % (if Padding(s) == 2 then 16 else 4) == 0
  {
    var body := Body(s);
    assert body[|body| - 1] == s[|body| - 1];
  }

  lemma PaddedLength(s: seq<CodeUnit>)
    requires IsPadded(s)
    ensures |Octets(Values(Body(s)))| == |s| / 4 * 3 - Padding(s)
  {
    assert |s| == |Body(s)| + Padding(s);
  }

  ghost predicate IsEncoding(s: seq<CodeUnit>) {
    exists b: seq<Byte> :: b != [] && Btoa(b) == s
  }

  /** RFC 4648: the canonical strings are the encodings of non-empty byte sequences. */
  lemma CanonicalIffEncoding(s: seq<CodeUnit>)
    ensures IsCanonical(s) <==> IsEncoding(s)
  {
    hide Sextets, Octets, Btoa;
    if IsCanonical(s) {
      ReencodedIffCanonical(s);
    }
    forall b: seq<Byte> | b != [] && Btoa(b) == s
      ensures IsCanonical(s)
    {
      BtoaCanonical(b);
    }
  }

  lemma {:induction false} NoWhitespace(s: seq<CodeUnit>)
    requires forall i :: 0 <= i < |s| ==> IsSymbol(s[i]) || s[i] == PAD
    ensures WithoutWhitespace(s) == s
  {
    if s != [] {
      NoWhitespace(s[1..]);
    }
  }

  /** `atob` accepts every padded string, canonical or not. */
  lemma AtobOfPadded(s: seq<CodeUnit>)
    requires IsPadded(s)
    ensures Atob(s) == Some(Octets(Values(Body(s))))
  {
    hide Octets, Values, WithoutWhitespace, IsSymbol;
    PaddedHasNoWhitespace(s);
    PaddedLength(s);
  }

  lemma PaddedHasNoWhitespace(s: seq<CodeUnit>)
    requires IsPadded(s)
    ensures WithoutWhitespace(s) == s
  {
    hide IsSymbol, Octets, Values;
    forall i | 0 <= i < |s|
      ensures IsSymbol(s[i]) || s[i] == PAD
    {
      if i < |Body(s)| {
        assert s[i] == Body(s)[i];
      }
    }
    NoWhitespace(s);
  }

  /** `decodeBase64(encodeBase64(b)) = b` for all bytes, the empty ones included. */
  lemma DecodeOfEncode(b: seq<Byte>)
    ensures Atob(Btoa(b)) == Some(b)
  {
    hide Sextets, Octets;
    if b == [] {
      assert Btoa(b) == [] && Values([]) == [];
    } else {
      BtoaCanonical(b);
      AtobOfPadded(Btoa(b));
    }
  }

  /** `encodeBase64(decodeBase64(s)) = s` on what the checks accept. */
  lemma EncodeOfDecode(s: seq<CodeUnit>)
    requires IsPadded(s)
    ensures Atob(s).Some? && Atob(s).value != []
    ensures Btoa(Atob(s).value) == s <==> IsCanonical(s)
  {
    AtobOfPadded(s);
    ReencodedIffCanonical(s);
  }

  lemma BtoaOfEmpty()
    ensures Btoa([]) == []
  {
  }

  // ----- the functions of base64-url.ts -----

  /** `encodeBase64`: the binary string is grown in chunks of 0x8000 bytes. */
  method EncodeBase64(bytes: seq<Byte>) returns (text: seq<CodeUnit>)
    ensures Atob(text) == Some(bytes)
    ensures text == [] || IsCanonical(text)
  {
    hide Atob, Btoa, IsCanonical;
    var binary: seq<Byte> := [];
    var offset := 0;
    while offset < |bytes|
      invariant 0 <= offset
      invariant binary == bytes[..if offset <= |bytes| then offset else |bytes|]
    {
      var end := if offset + 0x8000 <= |bytes| then offset + 0x8000 else |bytes|;
      binary := binary + bytes[offset..end];
      offset := offset + 0x8000;
    }
    assert binary == bytes;
    DecodeOfEncode(bytes);
    text := Btoa(binary);
    if bytes != [] {
      BtoaCanonical(bytes);
    } else {
      BtoaOfEmpty();
    }
  }

  /** `isStandardPaddedBase64`: accepts exactly the canonical encodings of
      non-empty byte sequences (RFC 4648, sections 3.5 and 4). */
  method IsStandardPaddedBase64(value: seq<CodeUnit>) returns (standard: bool)
    ensures standard <==> IsEncoding(value)
  {
    hide Sextets, Octets, Btoa;
    CanonicalIffEncoding(value);
    if |value| == 0 || |value| % 4 != 0 { return false; }
    var padding := Padding(value);
    var contentLength := |value| - padding;
    if contentLength % 4 != (if padding == 0 then 0 else 4 - padding) { return false; }
    assert Body(value) == value[..contentLength];
    var index := 0;
    while index < contentLength
      invariant 0 <= index <= contentLength
      invariant AllSymbols(value[..index])
    {
      if !IsSymbol(value[index]) {
        assert Body(value)[index] == value[index];
        return false;
      }
      index := index + 1;
    }
    CanonicalByLastSymbol(value);
    index := contentLength;
    while index < |value|
      invariant contentLength <= index <= |value|
    {
      if value[index] != PAD { return false; }
      index := index + 1;
    }
    if padding > 0 {
      // The bit masks 0x0f and 0x03 keep the remainders modulo 16 and 4.
      var trailingValue := Value(value[contentLength - 1]);
      if trailingValue % (if padding == 2 then 16 else 4) != 0 { return false; }
    }
    return true;
  }

  // ----- base64url: section 5 of RFC 4648, without padding -----

  function ToUrl(code: CodeUnit): CodeUnit {
    if code == 43 then 45 else if code == 47 then 95 else code
  }

  function FromUrl(code: CodeUnit): CodeUnit {
    if code == 45 then 43 else if code == 95 then 47 else code
  }

  predicate IsUrlSymbol(code: CodeUnit) {
    65 <= code <= 90 || 97 <= code <= 122 || 48 <= code <= 57 || code == 45 || code == 95
  }

  predicate AllUrlSymbols(s: seq<CodeUnit>) {
    forall i :: 0 <= i < |s| ==> IsUrlSymbol(s[i])
  }

  function Map(f: CodeUnit -> CodeUnit, s: seq<CodeUnit>): (t: seq<CodeUnit>)
    ensures |t| == |s| && forall i :: 0 <= i < |s| ==> t[i] == f(s[i])
  {
    seq(|s|, i requires 0 <= i < |s| => f(s[i]))
  }

  /** `encodeBase64Url`; an encoding never ends in more than two `=`. */
  function EncodeUrl(b: seq<Byte>): seq<CodeUnit> {
    Body(Map(ToUrl, Btoa(b)))
  }

  function DecodeUrl(value: seq<CodeUnit>): Option<seq<Byte>> {
    if value == [] || !AllUrlSymbols(value) then None
    else Atob(Map(FromUrl, value) + Pads((|value| + 3) / 4 * 4 - |value|))
  }

  lemma EncodeUrlShape(b: seq<Byte>)
    requires b != []
    ensures |EncodeUrl(b)| == (4 * |b| + 2) / 3
    ensures AllUrlSymbols(EncodeUrl(b))
    ensures Map(FromUrl, EncodeUrl(b)) == Symbols(Sextets(b))
  {
    hide Sextets, Octets;
    var s := Btoa(b);
    var u := Map(ToUrl, s);
    BtoaCanonical(b);
    assert Padding(u) == Padding(s);
    var body := Body(u);
    assert |body| == |Body(s)|;
    forall i | 0 <= i < |body|
      ensures IsUrlSymbol(body[i]) && FromUrl(body[i]) == Symbols(Sextets(b))[i]
    {
      assert body[i] == ToUrl(s[i]) && s[i] == Body(s)[i];
      assert IsSymbol(s[i]);
    }
  }

  /** `decodeBase64Url(encodeBase64Url(b)) = b` fails on the empty sequence only. */
  lemma UrlRoundTrip(b: seq<Byte>)
    ensures DecodeUrl(EncodeUrl(b)) == Some(b) <==> b != []
    ensures b != [] ==> |EncodeUrl(b)| == (4 * |b| + 2) / 3
  {
    hide Octets, Atob;
    if b != [] {
      EncodeUrlShape(b);
      CeilToQuads(|EncodeUrl(b)|);
      DecodeOfEncode(b);
    } else {
      assert EncodeUrl(b) == [];
    }
  }

  lemma EncodeUrlInjective(a: seq<Byte>, b: seq<Byte>)
    requires a != [] && b != [] && EncodeUrl(a) == EncodeUrl(b)
    ensures a == b
  {
    UrlRoundTrip(a);
    UrlRoundTrip(b);
  }

  lemma CeilToQuads(n: nat)
    ensures (n + 3) / 4 * 4 - n == Missing(n)
  {
  }

  lemma AtobOfUrlSymbols(t: seq<CodeUnit>)
    requires AllSymbols(t) && t != []
    ensures Atob(t + Pads(Missing(|t|))).Some? <==> |t| % 4 != 1
  {
    hide Sextets, Octets, WithoutWhitespace;
    var n := Missing(|t|);
    var s := t + Pads(n);
    NoWhitespace(s);
    if |t| % 4 != 1 {
      PaddingBehindSymbols(t, n);
    } else {
      assert n == 3 && s[|s| - 1] == PAD && s[|s| - 2] == PAD;
      assert Body(s)[|t|] == PAD && !IsSymbol(PAD);
    }
  }

  /** Which strings `decodeBase64Url` accepts. Of the three `=` that a length of
      4k + 1 is padded with, `atob` removes two and stumbles over the third. */
  lemma DecodeUrlAccepts(value: seq<CodeUnit>)
    ensures DecodeUrl(value).Some? <==> value != [] && |value| % 4 != 1 && AllUrlSymbols(value)
  {
    hide Sextets, Octets, Btoa, Atob;
    if value != [] && AllUrlSymbols(value) {
      var t := Map(FromUrl, value);
      assert AllSymbols(t);
      CeilToQuads(|t|);
      AtobOfUrlSymbols(t);
    }
  }

  // ----- attachment bounds -----

  const MAXIMUM_IMAGE_BASE64_LENGTH := 6_666_668
  const MAXIMUM_PDF_BASE64_LENGTH := 22_369_624

  /** `decodeImageBase64` up to the signature check. */
  predicate ImageAccepts(value: seq<CodeUnit>) {
    |value| <= MAXIMUM_IMAGE_BASE64_LENGTH && IsCanonical(value)
  }

  predicate IsLastQuad(s: seq<CodeUnit>) {
    |s| == 4 && IsSymbol(s[0]) && IsSymbol(s[1])
    && (s[2] == PAD == s[3] || (IsSymbol(s[2]) && (s[3] == PAD || IsSymbol(s[3]))))
  }

  /** The PDF pattern: quads of symbols, then optionally one padded quad. */
  predicate PdfPattern(value: seq<CodeUnit>) {
    || value == []
    || IsLastQuad(value)
    || (|value| > 4 && AllSymbols(value[..4]) && PdfPattern(value[4..]))
  }

  /** `decodePdfBase64` up to the signature check. */
  predicate PdfAccepts(value: seq<CodeUnit>) {
    |value| <= MAXIMUM_PDF_BASE64_LENGTH && PdfPattern(value)
  }

  lemma {:induction false} PdfPatternIsPadded(value: seq<CodeUnit>)
    ensures PdfPattern(value) <==> value == [] || IsPadded(value)
    decreases |value|
  {
    assert !IsSymbol(PAD);
    if |value| > 4 {
      var head, rest := value[..4], value[4..];
      PdfPatternIsPadded(rest);
      if |value| % 4 == 0 {
        assert Padding(value) == Padding(rest);
        assert Body(value) == head + Body(rest);
        assert forall i :: 0 <= i < 4 ==> Body(value)[i] == head[i];
        assert forall i :: 0 <= i < |Body(rest)| ==> Body(rest)[i] == Body(value)[i + 4];
      }
    } else if |value| == 4 {
      LastQuadIsPadded(value);
    }
  }

  lemma LastQuadIsPadded(s: seq<CodeUnit>)
    requires |s| == 4
    ensures IsLastQuad(s) <==> IsPadded(s)
  {
    assert !IsSymbol(PAD);
    var body := Body(s);
    assert body[0] == s[0] && body[1] == s[1];
    assert |body| > 2 ==> body[2] == s[2];
    assert |body| > 3 ==> body[3] == s[3];
  }

  /** The length bounds in bytes: an image admits up to 5,000,001 of them and a
      PDF up to 16,777,218, one and two more than the limits they guard. */
  lemma AttachmentBounds(b: seq<Byte>)
    requires b != []
    ensures ImageAccepts(Btoa(b)) <==> |b| <= 5_000_001
    ensures PdfAccepts(Btoa(b)) <==> |b| <= 16_777_218
  {
    hide Sextets, Octets, Btoa, IsCanonical;
    BtoaCanonical(b);
    BtoaLength(b);
    PdfPatternIsPadded(Btoa(b));
    QuadBound(|b|, 1_666_667);
    QuadBound(|b|, 5_592_406);
  }

  lemma QuadBound(n: nat, quads: nat)
    ensures (n + 2) / 3 * 4 <= 4 * quads <==> n <= 3 * quads
  {
  }

  /** Every string the PDF check accepts decodes within the bound. Those the
      stricter check would refuse are the empty one and the ones that do not
      re-encode to themselves. */
  lemma PdfPatternExactly(value: seq<CodeUnit>)
    requires PdfAccepts(value)
    ensures Atob(value).Some? && |Atob(value).value| <= 16_777_218
    ensures IsCanonical(value) <==> value != [] && Btoa(Atob(value).value) == value
  {
    PdfPatternIsPadded(value);
    if value == [] {
      assert Values([]) == [];
    } else {
      EncodeOfDecode(value);
      AtobOfPadded(value);
      ReencodedIffCanonical(value);
    }
  }

  /** A padded string that is not canonical: "QR==" reads as the byte 65, whose
      encoding is "QQ==". */
  lemma PdfPatternIsLooser()
    ensures var s: seq<CodeUnit> := [81, 82, 61, 61];
            PdfAccepts(s) && !IsCanonical(s) && Atob(s) == Some([65])
  {
    var s: seq<CodeUnit> := [81, 82, 61, 61];
    LastQuadIsPadded(s);
    AtobOfPadded(s);
    var v := Values(Body(s));
    assert v[0] == 16 && v[1] == 17;
  }
}
