/** UTF-16 strings as sequences of code units, their code points (`Array.from`)
    and the two well-formedness scanners of the API. RFC 2781, section 2. */
module Utf16 {
  import opened Order

  type CodeUnit = n: int | 0 <= n < 0x1_0000
  type Str = seq<CodeUnit>
  type CodePoint = n: int | 0 <= n < 0x11_0000

  predicate IsHigh(u: int) {
    0xD800 <= u <= 0xDBFF
  }

  predicate IsLow(u: int) {
    0xDC00 <= u <= 0xDFFF
  }

  predicate IsScalar(c: int) {
    !IsHigh(c) && !IsLow(c)
  }

  predicate AllScalars(cs: seq<CodePoint>) {
    forall i :: 0 <= i < |cs| ==> IsScalar(cs[i])
  }

  /** Section 2.1 of RFC 2781; a code point below 0x10000 is its own code unit. */
  function EncodePoint(c: CodePoint): (units: seq<CodeUnit>)
    ensures 1 <= |units| <= 2
  {
    if c < 0x1_0000 then [c]
    else [0xD800 + (c - 0x1_0000) / 0x400, 0xDC00 + (c - 0x1_0000) % 0x400]
  }

  function Encode(cs: seq<CodePoint>): seq<CodeUnit> {
    if cs == [] then [] else EncodePoint(cs[0]) + Encode(cs[1..])
  }

  predicate StartsWithPair(s: seq<CodeUnit>) {
    |s| >= 2 && IsHigh(s[0]) && IsLow(s[1])
  }

  function Pair(high: CodeUnit, low: CodeUnit): CodePoint
    requires IsHigh(high) && IsLow(low)
  {
    0x1_0000 + (high - 0xD800) * 0x400 + (low - 0xDC00)
  }

  /** `Array.from(s)`: surrogate pairs are joined, any other unit stands alone. */
  function CodePoints(s: seq<CodeUnit>): seq<CodePoint> {
    if s == [] then []
    else if StartsWithPair(s) then [Pair(s[0], s[1])] + CodePoints(s[2..])
    else [s[0]] + CodePoints(s[1..])
  }

  /** No unpaired surrogate anywhere: what the scanners are meant to decide. */
  predicate WellFormed(s: seq<CodeUnit>) {
    AllScalars(CodePoints(s))
  }

  // ----- the correspondence of strings and code points -----

  lemma PairUnits(high: CodeUnit, low: CodeUnit)
    requires IsHigh(high) && IsLow(low)
    ensures EncodePoint(Pair(high, low)) == [high, low]
  {
    var c := Pair(high, low) - 0x1_0000;
    assert c == (high - 0xD800) * 0x400 + (low - 0xDC00);
    assert c / 0x400 == high - 0xD800 && c % 0x400 == low - 0xDC00;
  }

  lemma {:induction false} EncodeCodePoints(s: seq<CodeUnit>)
    ensures Encode(CodePoints(s)) == s
  {
    if s == [] {
    } else if StartsWithPair(s) {
      PairUnits(s[0], s[1]);
      hide EncodePoint, Pair;
      EncodeCodePoints(s[2..]);
      assert CodePoints(s)[1..] == CodePoints(s[2..]);
      assert [s[0], s[1]] + s[2..] == s;
    } else {
      EncodeCodePoints(s[1..]);
      assert CodePoints(s)[1..] == CodePoints(s[1..]);
      assert EncodePoint(s[0]) == s[..1];
    }
  }

  lemma CodePointsStep(c: CodePoint, rest: seq<CodeUnit>)
    requires IsScalar(c)
    ensures CodePoints(EncodePoint(c) + rest) == [c] + CodePoints(rest)
  {
    var s := EncodePoint(c) + rest;
    if c < 0x1_0000 {
      assert s[1..] == rest;
    } else {
      assert s[0] == EncodePoint(c)[0] && s[1] == EncodePoint(c)[1];
      assert s[2..] == rest;
    }
  }

  lemma {:induction false} CodePointsEncodeAppend(cs: seq<CodePoint>, rest: seq<CodeUnit>)
    requires AllScalars(cs)
    ensures CodePoints(Encode(cs) + rest) == cs + CodePoints(rest)
  {
    hide EncodePoint, CodePoints;
    if cs == [] {
      assert Encode(cs) + rest == rest;
      assert cs + CodePoints(rest) == CodePoints(rest);
    } else {
      CodePointsEncodeAppend(cs[1..], rest);
      CodePointsStep(cs[0], Encode(cs[1..]) + rest);
      assert Encode(cs) + rest == EncodePoint(cs[0]) + (Encode(cs[1..]) + rest);
      assert [cs[0]] + (cs[1..] + CodePoints(rest)) == cs + CodePoints(rest);
    }
  }

  lemma CodePointsEncode(cs: seq<CodePoint>)
    requires AllScalars(cs)
    ensures CodePoints(Encode(cs)) == cs
  {
    CodePointsEncodeAppend(cs, []);
    assert Encode(cs) + [] == Encode(cs) && cs + CodePoints([]) == cs;
  }

  /** A string is well formed exactly when it encodes some sequence of Unicode
      scalars, and that sequence is then unique. */
  lemma WellFormedIffEncoding(s: seq<CodeUnit>)
    ensures WellFormed(s) <==> exists cs: seq<CodePoint> :: AllScalars(cs) && Encode(cs) == s
    ensures forall cs: seq<CodePoint> :: AllScalars(cs) && Encode(cs) == s ==> cs == CodePoints(s)
  {
    EncodeCodePoints(s);
    forall cs: seq<CodePoint> | AllScalars(cs) && Encode(cs) == s
      ensures cs == CodePoints(s)
    {
      CodePointsEncode(cs);
    }
  }

  lemma {:induction false} EncodeAppend(a: seq<CodePoint>, b: seq<CodePoint>)
    ensures Encode(a + b) == Encode(a) + Encode(b)
  {
    if a == [] {
      assert a + b == b;
    } else {
      assert (a + b)[1..] == a[1..] + b;
      EncodeAppend(a[1..], b);
    }
  }

  /** A prefix that holds the first element whole starts with that element. */
  lemma FirstElement(s: seq<CodeUnit>, prefix: seq<CodeUnit>)
    requires prefix <= s && prefix != [] && (StartsWithPair(s) ==> |prefix| > 1)
    ensures CodePoints(prefix) == [CodePoints(s)[0]] + CodePoints(prefix[if StartsWithPair(s) then 2 else 1..])
  {
    assert StartsWithPair(prefix) <==> StartsWithPair(s);
  }

  lemma JoinedIsPrefix(s: seq<CodeUnit>, m: nat)
    requires m <= |CodePoints(s)|
    ensures Encode(CodePoints(s)[..m]) <= s
  {
    hide CodePoints, Encode;
    var points := CodePoints(s);
    EncodeCodePoints(s);
    EncodeAppend(points[..m], points[m..]);
    assert points == points[..m] + points[m..];
  }

  /** Joining the first elements of `Array.from(s)` gives a string with exactly
      these elements, also when `s` has unpaired surrogates. */
  lemma {:induction false} JoinedPrefix(s: seq<CodeUnit>, m: nat)
    requires m <= |CodePoints(s)|
    ensures Encode(CodePoints(s)[..m]) <= s
    ensures CodePoints(Encode(CodePoints(s)[..m])) == CodePoints(s)[..m]
  {
    JoinedIsPrefix(s, m);
    if m > 0 {
      JoinedFirst(s, m);
      JoinedPrefix(s[if StartsWithPair(s) then 2 else 1..], m - 1);
    }
  }

  /** The first element of a joined prefix, and what remains of it. */
  lemma JoinedFirst(s: seq<CodeUnit>, m: nat)
    requires 0 < m <= |CodePoints(s)|
    ensures var rest := s[if StartsWithPair(s) then 2 else 1..];
            && |CodePoints(rest)| == |CodePoints(s)| - 1
            && CodePoints(s)[..m] == [CodePoints(s)[0]] + CodePoints(rest)[..m - 1]
            && CodePoints(Encode(CodePoints(s)[..m]))
               == [CodePoints(s)[0]] + CodePoints(Encode(CodePoints(rest)[..m - 1]))
  {
    var step := if StartsWithPair(s) then 2 else 1;
    var points, tail := CodePoints(s), CodePoints(s[step..])[..m - 1];
    assert points[..m] == [points[0]] + tail && points[..m][1..] == tail;
    JoinedIsPrefix(s, m);
    assert Encode(points[..m]) == s[..step] + Encode(tail);
    FirstElement(s, Encode(points[..m]));
  }

  /** For well-formed strings the code-unit `startsWith` is the code-point prefix. */
  lemma PrefixIffCodePointPrefix(p: seq<CodeUnit>, s: seq<CodeUnit>)
    requires WellFormed(p)
    ensures p <= s <==> CodePoints(p) <= CodePoints(s)
  {
    hide CodePoints, Encode;
    EncodeCodePoints(p);
    EncodeCodePoints(s);
    var ps, ss := CodePoints(p), CodePoints(s);
    if p <= s {
      CodePointsEncodeAppend(ps, s[|p|..]);
      assert p + s[|p|..] == s;
    }
    if ps <= ss {
      EncodeAppend(ps, ss[|ps|..]);
      assert ps + ss[|ps|..] == ss;
    }
  }

  /** The precondition is needed: a lone high surrogate is a code-unit prefix of a pair. */
  lemma IllFormedPrefixDiffers()
    ensures var p: seq<CodeUnit> := [0xD83D];
            var s: seq<CodeUnit> := [0xD83D, 0xDE00];
            p <= s && !(CodePoints(p) <= CodePoints(s))
  {
    var p: seq<CodeUnit>, s: seq<CodeUnit> := [0xD83D], [0xD83D, 0xDE00];
    assert CodePoints(p)[0] == 0xD83D;
    assert CodePoints(s)[0] == Pair(0xD83D, 0xDE00);
  }

  // ----- the scanners -----

  /** `hasOnlyUnicodeScalars` of the message-search module. */
  method HasOnlyUnicodeScalars(value: seq<CodeUnit>) returns (ok: bool)
    ensures ok <==> exists cs: seq<CodePoint> :: AllScalars(cs) && Encode(cs) == value
  {
    WellFormedIffEncoding(value);
    var index := 0;
    while index < |value|
      invariant 0 <= index <= |value|
      invariant WellFormed(value) <==> WellFormed(value[index..])
    {
      var codeUnit := value[index];
      ScanStep(value, index);
      if codeUnit < 0xD800 || codeUnit > 0xDFFF {
        index := index + 1;
      } else {
        if codeUnit > 0xDBFF || index + 1 >= |value|
           || value[index + 1] < 0xDC00 || value[index + 1] > 0xDFFF {
          return false;
        }
        index := index + 2;
      }
    }
    return true;
  }

  /** What one position of a scan settles about the rest of the string. */
  lemma ScanStep(value: seq<CodeUnit>, index: nat)
    requires index < |value|
    ensures StartsWithPair(value[index..]) ==>
              (WellFormed(value[index..]) <==> WellFormed(value[index + 2..]))
    ensures !StartsWithPair(value[index..]) ==>
              (WellFormed(value[index..]) <==> IsScalar(value[index]) && WellFormed(value[index + 1..]))
  {
    var s := value[index..];
    if StartsWithPair(s) {
      assert s[2..] == value[index + 2..];
      AllScalarsCons(Pair(s[0], s[1]), CodePoints(s[2..]));
    } else {
      assert s[1..] == value[index + 1..];
      AllScalarsCons(s[0], CodePoints(s[1..]));
    }
  }

  lemma AllScalarsCons(c: CodePoint, rest: seq<CodePoint>)
    ensures AllScalars([c] + rest) <==> IsScalar(c) && AllScalars(rest)
  {
    var cs := [c] + rest;
    assert cs[0] == c;
    assert forall i :: 0 <= i < |rest| ==> rest[i] == cs[i + 1];
  }

  /** The one shape that the second scanner does not notice. */
  predicate OnlyTrailingHigh(s: seq<CodeUnit>) {
    s != [] && IsHigh(s[|s| - 1]) && WellFormed(s[..|s| - 1])
  }

  /** `hasUnpairedSurrogate` of the MCP module: at the last position `charCodeAt`
      yields NaN, both comparisons with it are false, and the scan goes on. */
  method HasUnpairedSurrogate(value: seq<CodeUnit>) returns (unpaired: bool)
    ensures unpaired <==> !WellFormed(value) && !OnlyTrailingHigh(value)
  {
    var index := 0;
    while index < |value|
      invariant 0 <= index <= |value| + 1
      invariant index <= |value| ==> (WellFormed(value) <==> WellFormed(value[index..]))
      invariant index <= |value| ==> (OnlyTrailingHigh(value) <==> OnlyTrailingHigh(value[index..]))
      invariant index == |value| + 1 ==> OnlyTrailingHigh(value)
    {
      var unit := value[index];
      ScanStep(value, index);
      TrailingStep(value, index);
      if 0xD800 <= unit <= 0xDBFF {
        if index + 1 < |value| {
          var next := value[index + 1];
          if next < 0xDC00 || next > 0xDFFF {
            return true;
          }
        }
        index := index + 2;
      } else {
        if 0xDC00 <= unit <= 0xDFFF {
          return true;
        }
        index := index + 1;
      }
    }
    if index == |value| + 1 {
      TrailingHighIsIllFormed(value);
    }
    return false;
  }

  /** How `OnlyTrailingHigh` moves over one position of the scan. */
  lemma TrailingStep(value: seq<CodeUnit>, index: nat)
    requires index < |value|
    ensures index + 1 == |value| ==> (OnlyTrailingHigh(value[index..]) <==> IsHigh(value[index]))
    ensures StartsWithPair(value[index..]) ==>
              (OnlyTrailingHigh(value[index..]) <==> OnlyTrailingHigh(value[index + 2..]))
    ensures !StartsWithPair(value[index..]) && index + 1 < |value| ==>
              (OnlyTrailingHigh(value[index..]) <==>
               IsScalar(value[index]) && OnlyTrailingHigh(value[index + 1..]))
  {
    var s := value[index..];
    var init := s[..|s| - 1];
    if |s| == 1 {
      assert init == [];
    } else if StartsWithPair(s) {
      if |s| == 2 {
        assert value[index + 2..] == [];
      } else {
        ScanStep(init, 0);
        assert init[0..] == init;
        assert init[2..] == value[index + 2..][..|s| - 3];
      }
    } else {
      ScanStep(init, 0);
      assert init[0..] == init;
      assert init[1..] == value[index + 1..][..|s| - 2];
      assert StartsWithPair(init) <==> |s| > 2 && StartsWithPair(s);
    }
  }

  lemma {:induction false} TrailingHighIsIllFormed(value: seq<CodeUnit>)
    requires OnlyTrailingHigh(value)
    ensures !WellFormed(value)
    decreases |value|
  {
    ScanStep(value, 0);
    TrailingStep(value, 0);
    assert value[0..] == value;
    if StartsWithPair(value) {
      TrailingHighIsIllFormed(value[2..]);
    } else if |value| > 1 {
      TrailingHighIsIllFormed(value[1..]);
    }
  }

  /** The two scanners are not negations of each other: a lone high surrogate
      at the end passes both the "only scalars fails" and the "unpaired" test. */
  lemma ScannersDisagree()
    ensures var s: seq<CodeUnit> := [0x61, 0xD800]; !WellFormed(s) && OnlyTrailingHigh(s)
  {
    var s: seq<CodeUnit> := [0x61, 0xD800];
    assert s[..|s| - 1] == [0x61];
    assert CodePoints([0x61]) == [0x61];
    TrailingHighIsIllFormed(s);
  }
}
