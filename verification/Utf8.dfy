/** `TextEncoder.encode`, UTF-8 of RFC 3629 section 3, and the byte-wise term
    order of the message search. Section 1 of RFC 3629: byte order is code-point order. */
module Utf8 {
  import opened Order
  import opened Utf16

  type Byte = n: int | 0 <= n < 0x100

  function PointBytes(c: CodePoint): (bytes: seq<Byte>)
    ensures 1 <= |bytes| <= 4
  {
    if c < 0x80 then [c]
    else if c < 0x800 then [0xC0 + c / 0x40, 0x80 + c % 0x40]
    else if c < 0x1_0000 then [0xE0 + c / 0x1000, 0x80 + c / 0x40 % 0x40, 0x80 + c % 0x40]
    else [0xF0 + c / 0x4_0000, 0x80 + c / 0x1000 % 0x40, 0x80 + c / 0x40 % 0x40, 0x80 + c % 0x40]
  }

  function Bytes(cs: seq<CodePoint>): seq<Byte> {
    if cs == [] then [] else PointBytes(cs[0]) + Bytes(cs[1..])
  }

  /** The encoder replaces what is not a scalar by U+FFFD. */
  function ScrubPoint(c: CodePoint): CodePoint {
    if IsScalar(c) then c else 0xFFFD
  }

  function Scrub(cs: seq<CodePoint>): (scrubbed: seq<CodePoint>)
    ensures |scrubbed| == |cs| && AllScalars(scrubbed)
    ensures forall i :: 0 <= i < |cs| ==> scrubbed[i] == ScrubPoint(cs[i])
  {
    seq(|cs|, i requires 0 <= i < |cs| => ScrubPoint(cs[i]))
  }

  function TextEncode(s: seq<CodeUnit>): seq<Byte> {
    Bytes(Scrub(CodePoints(s)))
  }

  // ----- the byte layout -----

  /** The table of section 3 of RFC 3629: how many bytes a code point takes, which
      leading bytes say so, and that the bits behind them spell it out. */
  lemma BytesSpellPoint(c: CodePoint)
    ensures var b := PointBytes(c);
            match |b|
            case 1 => c <= 0x7F && c == b[0]
            case 2 => 0x80 <= c <= 0x7FF && 0xC2 <= b[0] <= 0xDF && c == (b[0] as int - 0xC0) * 0x40 + Bits(b[1])
            case 3 =>
              && 0x800 <= c <= 0xFFFF && 0xE0 <= b[0] <= 0xEF
              && c == (b[0] as int - 0xE0) * 0x1000 + Bits(b[1]) * 0x40 + Bits(b[2])
            case 4 =>
              && 0x1_0000 <= c <= 0x10_FFFF && 0xF0 <= b[0] <= 0xF4
              && c == (b[0] as int - 0xF0) * 0x4_0000 + Bits(b[1]) * 0x1000 + Bits(b[2]) * 0x40 + Bits(b[3])
            case _ => false
    ensures forall i :: 1 <= i < |PointBytes(c)| ==> 0x80 <= PointBytes(c)[i] <= 0xBF
  {
    SixBitDigits(c);
  }

  /** The six bits of a continuation byte. */
  function Bits(b: Byte): int {
    b as int - 0x80
  }

  // ----- byte order is code-point order -----

  /** A code point is read back from its six-bit digits. */
  lemma SixBitDigits(c: CodePoint)
    ensures c == c / 0x40 * 0x40 + c % 0x40
    ensures c == c / 0x1000 * 0x1000 + c / 0x40 % 0x40 * 0x40 + c % 0x40
    ensures c == c / 0x4_0000 * 0x4_0000 + c / 0x1000 % 0x40 * 0x1000 + c / 0x40 % 0x40 * 0x40 + c % 0x40
  {
    assert c / 0x1000 == c / 0x40 / 0x40;
    assert c / 0x4_0000 == c / 0x1000 / 0x40;
  }

  /** Different code points first differ at a byte both encodings have. */
  lemma DecidingByte(c: CodePoint, d: CodePoint) returns (k: nat)
    requires c < d
    ensures k < |PointBytes(c)| && k < |PointBytes(d)|
    ensures PointBytes(c)[..k] == PointBytes(d)[..k] && PointBytes(c)[k] < PointBytes(d)[k]
  {
    var x, y := PointBytes(c), PointBytes(d);
    if |x| != |y| {
      k := 0;
    } else {
      k := DecidingDigit(c, d);
      assert forall i :: 0 <= i < k ==> x[i] == y[i];
    }
  }

  lemma DecidingDigit(c: CodePoint, d: CodePoint) returns (k: nat)
    requires c < d && |PointBytes(c)| == |PointBytes(d)|
    ensures k < |PointBytes(c)| && PointBytes(c)[k] < PointBytes(d)[k]
    ensures forall i :: 0 <= i < k ==> PointBytes(c)[i] == PointBytes(d)[i]
  {
    SixBitDigits(c);
    SixBitDigits(d);
    var n := |PointBytes(c)|;
    if n == 4 && c / 0x4_0000 == d / 0x4_0000 {
      k := if c / 0x1000 % 0x40 != d / 0x1000 % 0x40 then 1
      else if c / 0x40 % 0x40 != d / 0x40 % 0x40 then 2 else 3;
    } else if n == 3 && c / 0x1000 == d / 0x1000 {
      k := if c / 0x40 % 0x40 != d / 0x40 % 0x40 then 1 else 2;
    } else if n == 2 && c / 0x40 == d / 0x40 {
      k := 1;
    } else {
      k := 0;
    }
  }

  lemma BytesOrderAtHead(c: CodePoint, d: CodePoint, p: seq<Byte>, q: seq<Byte>)
    requires c < d
    ensures Lex(PointBytes(c) + p, PointBytes(d) + q) == -1
    ensures Lex(PointBytes(d) + q, PointBytes(c) + p) == 1
  {
    var k := DecidingByte(c, d);
    var x, y := PointBytes(c) + p, PointBytes(d) + q;
    assert x[..k] == PointBytes(c)[..k] && y[..k] == PointBytes(d)[..k];
    LexFirstDifference(x, y, k);
    LexFirstDifference(y, x, k);
  }

  lemma {:induction false} ByteOrderIsPointOrder(a: seq<CodePoint>, b: seq<CodePoint>)
    ensures Lex(Bytes(a), Bytes(b)) == Lex(a, b)
  {
    if a != [] && b != [] {
      if a[0] < b[0] {
        BytesOrderAtHead(a[0], b[0], Bytes(a[1..]), Bytes(b[1..]));
      } else if b[0] < a[0] {
        BytesOrderAtHead(b[0], a[0], Bytes(b[1..]), Bytes(a[1..]));
      } else {
        ByteOrderIsPointOrder(a[1..], b[1..]);
        LexCommonPrefix(PointBytes(a[0]), Bytes(a[1..]), Bytes(b[1..]));
      }
    }
  }

  lemma BytesInjective(a: seq<CodePoint>, b: seq<CodePoint>)
    requires Bytes(a) == Bytes(b)
    ensures a == b
  {
    ByteOrderIsPointOrder(a, b);
    LexZeroIffEqual(a, b);
    LexZeroIffEqual(Bytes(a), Bytes(b));
  }

  // ----- the encoder on strings -----

  lemma ScrubOfWellFormed(s: seq<CodeUnit>)
    requires WellFormed(s)
    ensures Scrub(CodePoints(s)) == CodePoints(s)
  {
  }

  /** Two strings share their bytes exactly when they agree after each unpaired
      surrogate became U+FFFD; well-formed strings share them only when equal. */
  lemma TextEncodeEquality(a: seq<CodeUnit>, b: seq<CodeUnit>)
    ensures TextEncode(a) == TextEncode(b) <==> Scrub(CodePoints(a)) == Scrub(CodePoints(b))
    ensures WellFormed(a) && WellFormed(b) && TextEncode(a) == TextEncode(b) ==> a == b
  {
    hide CodePoints, Encode, Bytes, PointBytes;
    EncodeCodePoints(a);
    EncodeCodePoints(b);
    assert WellFormed(a) ==> Scrub(CodePoints(a)) == CodePoints(a);
    assert WellFormed(b) ==> Scrub(CodePoints(b)) == CodePoints(b);
    if TextEncode(a) == TextEncode(b) {
      BytesInjective(Scrub(CodePoints(a)), Scrub(CodePoints(b)));
    }
  }

  lemma {:induction false} BytesAppend(a: seq<CodePoint>, b: seq<CodePoint>)
    ensures Bytes(a + b) == Bytes(a) + Bytes(b)
  {
    if a == [] {
      assert a + b == b;
    } else {
      assert (a + b)[1..] == a[1..] + b;
      BytesAppend(a[1..], b);
    }
  }

  /** Encoding distributes over concatenation behind a well-formed string. */
  lemma TextEncodeAppend(a: seq<CodeUnit>, b: seq<CodeUnit>)
    requires WellFormed(a)
    ensures TextEncode(a + b) == TextEncode(a) + TextEncode(b)
    ensures CodePoints(a + b) == CodePoints(a) + CodePoints(b)
  {
    hide CodePoints, Encode, Bytes;
    EncodeCodePoints(a);
    CodePointsEncodeAppend(CodePoints(a), b);
    assert Scrub(CodePoints(a) + CodePoints(b)) == Scrub(CodePoints(a)) + Scrub(CodePoints(b));
    BytesAppend(Scrub(CodePoints(a)), Scrub(CodePoints(b)));
  }

  // ----- unpaired surrogates replaced -----

  /** The string that `s` is for everyone who reads its bytes. */
  function Replaced(s: seq<CodeUnit>): seq<CodeUnit> {
    Encode(Scrub(CodePoints(s)))
  }

  lemma ReplacedEncodes(s: seq<CodeUnit>)
    ensures WellFormed(Replaced(s)) && TextEncode(Replaced(s)) == TextEncode(s)
    ensures WellFormed(s) ==> Replaced(s) == s
  {
    hide CodePoints, Encode, Bytes;
    CodePointsEncode(Scrub(CodePoints(s)));
    assert Scrub(Scrub(CodePoints(s))) == Scrub(CodePoints(s));
    if WellFormed(s) {
      ScrubOfWellFormed(s);
      EncodeCodePoints(s);
    }
  }

  /** Two strings have the same bytes exactly when replacing makes them equal. */
  lemma ReplacedEquality(a: seq<CodeUnit>, b: seq<CodeUnit>)
    ensures Replaced(a) == Replaced(b) <==> TextEncode(a) == TextEncode(b)
    ensures Replaced(a) == Replaced(b) <==> Scrub(CodePoints(a)) == Scrub(CodePoints(b))
  {
    hide CodePoints, Encode, Bytes, TextEncode;
    TextEncodeEquality(a, b);
    CodePointsEncode(Scrub(CodePoints(a)));
    CodePointsEncode(Scrub(CodePoints(b)));
  }

  /** Replacing goes unit by unit and touches surrogates only. */
  lemma {:induction false} ReplacedUnits(s: seq<CodeUnit>)
    ensures |Replaced(s)| == |s|
    ensures forall i :: 0 <= i < |s| ==> Replaced(s)[i] == s[i] || (Replaced(s)[i] == 0xFFFD && !IsScalar(s[i]))
  {
    if s != [] {
      var step := if StartsWithPair(s) then 2 else 1;
      ReplacedUnits(s[step..]);
      ReplacedStep(s);
      var head, tail := Replaced(s)[..step], Replaced(s[step..]);
      forall i | 0 <= i < |s|
        ensures Replaced(s)[i] == s[i] || (Replaced(s)[i] == 0xFFFD && !IsScalar(s[i]))
      {
        if i >= step { assert Replaced(s)[i] == tail[i - step] && s[i] == s[step..][i - step]; }
      }
    }
  }

  lemma ReplacedStep(s: seq<CodeUnit>)
    requires s != []
    ensures StartsWithPair(s) ==> Replaced(s) == s[..2] + Replaced(s[2..])
    ensures !StartsWithPair(s) ==> Replaced(s) == [ScrubPoint(s[0])] + Replaced(s[1..])
  {
    var step := if StartsWithPair(s) then 2 else 1;
    var points := CodePoints(s);
    assert points[1..] == CodePoints(s[step..]);
    assert Scrub(points)[1..] == Scrub(points[1..]);
    if StartsWithPair(s) {
      PairUnits(s[0], s[1]);
      assert [s[0], s[1]] == s[..2];
    }
  }

  /** Strings that no surrogate pair straddles are replaced one by one. */
  lemma {:induction false} ReplacedAppend(s: seq<CodeUnit>, t: seq<CodeUnit>)
    requires s == [] || t == [] || !IsHigh(s[|s| - 1]) || !IsLow(t[0])
    ensures Replaced(s + t) == Replaced(s) + Replaced(t)
    decreases |s|
  {
    hide Replaced;
    if s == [] {
      assert s + t == t;
      assert Replaced([]) == [] by { ReplacedUnits([]); }
    } else {
      var step := if StartsWithPair(s) then 2 else 1;
      assert StartsWithPair(s + t) <==> StartsWithPair(s);
      ReplacedStep(s);
      ReplacedStep(s + t);
      assert (s + t)[step..] == s[step..] + t && (s + t)[..step] == s[..step];
      ReplacedAppend(s[step..], t);
    }
  }

  // ----- compareUtf8 -----

  /** What the byte order of two strings means for their code points. */
  lemma EncodedOrder(left: seq<CodeUnit>, right: seq<CodeUnit>)
    ensures Lex(TextEncode(left), TextEncode(right)) == Lex(Scrub(CodePoints(left)), Scrub(CodePoints(right)))
    ensures WellFormed(left) && WellFormed(right) ==>
              (Lex(TextEncode(left), TextEncode(right)) == 0 <==> left == right)
  {
    ByteOrderIsPointOrder(Scrub(CodePoints(left)), Scrub(CodePoints(right)));
    LexZeroIffEqual(TextEncode(left), TextEncode(right));
    TextEncodeEquality(left, right);
  }

  /** `compareUtf8`: the sign of the result is the lexicographic order of the
      code points of the two strings, unpaired surrogates read as U+FFFD. */
  method CompareUtf8(left: seq<CodeUnit>, right: seq<CodeUnit>) returns (order: int)
    ensures Sign(order) == Lex(Scrub(CodePoints(left)), Scrub(CodePoints(right)))
    ensures WellFormed(left) && WellFormed(right) ==> (order == 0 <==> left == right)
  {
    hide TextEncode, CodePoints, Scrub, WellFormed, Lex;
    var leftBytes, rightBytes := TextEncode(left), TextEncode(right);
    EncodedOrder(left, right);
    var comparedLength := if |leftBytes| <= |rightBytes| then |leftBytes| else |rightBytes|;
    var index := 0;
    while index < comparedLength
      invariant 0 <= index <= comparedLength
      invariant leftBytes[..index] == rightBytes[..index]
    {
      var difference := leftBytes[index] as int - rightBytes[index] as int;
      if difference != 0 {
        LexFirstDifference(leftBytes, rightBytes, index);
        return difference;
      }
      index := index + 1;
    }
    SharedPrefix(leftBytes, rightBytes, comparedLength);
    return |leftBytes| - |rightBytes|;
  }

  lemma SharedPrefix(a: seq<Byte>, b: seq<Byte>, n: nat)
    requires n <= |a| && n <= |b| && (n == |a| || n == |b|) && a[..n] == b[..n]
    ensures Lex(a, b) == Sign(|a| - |b|)
  {
    assert n == |a| ==> a == a[..n];
    assert n == |b| ==> b == b[..n];
    LexPrefix(a, b);
  }

  /** Outside well-formed strings the comparison is no order: these two differ
      and compare equal. */
  lemma IllFormedStringsCompareEqual()
    ensures var a: seq<CodeUnit> := [0xD800];
            var b: seq<CodeUnit> := [0xFFFD];
            a != b && TextEncode(a) == TextEncode(b)
  {
    var a: seq<CodeUnit>, b: seq<CodeUnit> := [0xD800], [0xFFFD];
    assert CodePoints(a) == [0xD800] && CodePoints(b) == [0xFFFD];
    assert Scrub(CodePoints(a)) == Scrub(CodePoints(b));
  }

  /** The code-unit order of `compareText` is a different one: U+FFFF is above
      U+10000 by code units and below it by bytes. */
  lemma CodeUnitOrderDiffers()
    ensures var a: seq<CodeUnit> := [0xFFFF];
            var b: seq<CodeUnit> := [0xD800, 0xDC00];
            Lex(a, b) == 1 && Lex(TextEncode(a), TextEncode(b)) == -1
  {
    var a: seq<CodeUnit>, b: seq<CodeUnit> := [0xFFFF], [0xD800, 0xDC00];
    assert CodePoints(a) == [0xFFFF];
    assert CodePoints(b) == [0x1_0000] + CodePoints(b[2..]) == [0x1_0000];
    ByteOrderIsPointOrder(Scrub(CodePoints(a)), Scrub(CodePoints(b)));
  }
}
