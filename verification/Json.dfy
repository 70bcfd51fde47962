/** `JSON.stringify` on the values the tools return, and the number of UTF-8 bytes
    of its result. Strings are escaped as section 7 of RFC 8259 allows; control
    characters and unpaired surrogates become `\u` sequences. */
module Json {
  import opened Utf16
  import opened Utf8
  import opened Options

  type Ascii = s: seq<CodeUnit> | forall i :: 0 <= i < |s| ==> s[i] < 0x80

  datatype Field = Field(key: seq<CodeUnit>, value: Json)

  datatype Json =
    | Null
    | Bool(b: bool)
    | Number(digits: Ascii)
    | String(s: seq<CodeUnit>)
    | Array(items: seq<Json>)
    | Object(fields: seq<Field>)

  // ----- the text -----

  const QUOTE: CodeUnit := 34
  const BACKSLASH: CodeUnit := 92
  const COMMA: CodeUnit := 44
  const COLON: CodeUnit := 58

  function HexDigit(n: int): CodeUnit
    requires 0 <= n < 16
  {
    if n < 10 then 48 + n else 87 + n
  }

  function ShortEscape(c: CodePoint): seq<CodeUnit> {
    if c == 8 then [98] else if c == 9 then [116] else if c == 10 then [110]
    else if c == 12 then [102] else if c == 13 then [114]
    else if c == 34 || c == 92 then [c] else []
  }

  function EscapePoint(c: CodePoint): seq<CodeUnit> {
    if ShortEscape(c) != [] then [BACKSLASH] + ShortEscape(c)
    else if c < 0x20 || !IsScalar(c) then
      [BACKSLASH, 117, HexDigit(c / 0x1000), HexDigit(c / 0x100 % 16), HexDigit(c / 0x10 % 16), HexDigit(c % 16)]
    else EncodePoint(c)
  }

  function Escape(cs: seq<CodePoint>): seq<CodeUnit> {
    if cs == [] then [] else EscapePoint(cs[0]) + Escape(cs[1..])
  }

  function Quote(s: seq<CodeUnit>): seq<CodeUnit> {
    [QUOTE] + Escape(CodePoints(s)) + [QUOTE]
  }

  function Text(j: Json): seq<CodeUnit>
    decreases j, 1
  {
    match j
    case Null => [110, 117, 108, 108]
    case Bool(true) => [116, 114, 117, 101]
    case Bool(false) => [102, 97, 108, 115, 101]
    case Number(digits) => digits
    case String(s) => Quote(s)
    case Array(items) => [91] + ItemsText(items) + [93]
    case Object(fields) => [123] + FieldsText(fields) + [125]
  }

  function ItemsText(items: seq<Json>): seq<CodeUnit>
    decreases items, 0
  {
    if items == [] then []
    else if |items| == 1 then Text(items[0])
    else Text(items[0]) + [COMMA] + ItemsText(items[1..])
  }

  function FieldsText(fields: seq<Field>): seq<CodeUnit>
    decreases fields, 0
  {
    if fields == [] then []
    else if |fields| == 1 then Quote(fields[0].key) + [COLON] + Text(fields[0].value)
    else Quote(fields[0].key) + [COLON] + Text(fields[0].value) + [COMMA] + FieldsText(fields[1..])
  }

  /** The fixed texts of section 3 and the structural characters of section 2 of RFC 8259. */
  lemma FixedTexts(a: Json, b: Json, field: Field)
    ensures Text(Null) == ['n' as int, 'u' as int, 'l' as int, 'l' as int]
    ensures Text(Bool(true)) == ['t' as int, 'r' as int, 'u' as int, 'e' as int]
    ensures Text(Bool(false)) == ['f' as int, 'a' as int, 'l' as int, 's' as int, 'e' as int]
    ensures Text(Array([a, b])) == ['[' as int] + Text(a) + [',' as int] + Text(b) + [']' as int]
    ensures Text(Object([field])) == ['{' as int] + (Quote(field.key) + [':' as int] + Text(field.value)) + ['}' as int]
    ensures Text(Array([])) == ['[' as int, ']' as int] && Text(Object([])) == ['{' as int, '}' as int]
  {
    hide Quote;
    assert [a, b][1..] == [b];
    assert ItemsText([a, b]) == Text(a) + [COMMA] + Text(b);
  }

  // ----- a string reads back -----

  function HexValue(u: CodeUnit): Option<nat> {
    if 48 <= u <= 57 then Some(u - 48) else if 97 <= u <= 102 then Some(u - 87)
    else if 65 <= u <= 70 then Some(u - 55) else None
  }

  /** Section 7 of RFC 8259: the character that a backslash and this one stand for. */
  function EscapedUnit(u: CodeUnit): Option<CodeUnit> {
    if u == 34 || u == 47 || u == 92 then Some(u)
    else if u == 98 then Some(8) else if u == 102 then Some(12) else if u == 110 then Some(10)
    else if u == 114 then Some(13) else if u == 116 then Some(9) else None
  }

  function HexUnit(s: seq<CodeUnit>): Option<CodeUnit>
    requires |s| >= 4
  {
    var a, b, c, d := HexValue(s[0]), HexValue(s[1]), HexValue(s[2]), HexValue(s[3]);
    if a.None? || b.None? || c.None? || d.None? then None
    else Some(a.value * 0x1000 + b.value * 0x100 + c.value * 0x10 + d.value)
  }

  /** What a reader makes of the characters behind an opening quotation mark: the
      string up to the closing one, and what follows it. */
  function ReadString(s: seq<CodeUnit>): Option<(seq<CodeUnit>, seq<CodeUnit>)>
    decreases |s|
  {
    if s == [] || s[0] < 0x20 then None
    else if s[0] == QUOTE then Some(([], s[1..]))
    else if s[0] != BACKSLASH then Behind(s[0], ReadString(s[1..]))
    else if |s| >= 6 && s[1] == 117 then
      if HexUnit(s[2..]).None? then None else Behind(HexUnit(s[2..]).value, ReadString(s[6..]))
    else if |s| >= 2 && EscapedUnit(s[1]).Some? then Behind(EscapedUnit(s[1]).value, ReadString(s[2..]))
    else None
  }

  function Behind(u: CodeUnit, read: Option<(seq<CodeUnit>, seq<CodeUnit>)>): Option<(seq<CodeUnit>, seq<CodeUnit>)> {
    if read.None? then None else Some(([u] + read.value.0, read.value.1))
  }

  lemma HexReadsBack(c: CodeUnit)
    ensures HexUnit([HexDigit(c / 0x1000), HexDigit(c / 0x100 % 16), HexDigit(c / 0x10 % 16), HexDigit(c % 16)]) == Some(c)
  {
    DigitReadsBack(c / 0x1000);
    DigitReadsBack(c / 0x100 % 16);
    DigitReadsBack(c / 0x10 % 16);
    DigitReadsBack(c % 16);
    HexDigits(c);
  }

  lemma DigitReadsBack(n: int)
    requires 0 <= n < 16
    ensures HexValue(HexDigit(n)) == Some(n)
  {
  }

  lemma HexDigits(c: CodeUnit)
    ensures c == c / 0x1000 * 0x1000 + c / 0x100 % 16 * 0x100 + c / 0x10 % 16 * 0x10 + c % 16
  {
    assert c / 0x100 == c / 0x10 / 16 && c / 0x1000 == c / 0x100 / 16;
  }

  lemma ReadPlain(u: CodeUnit, tail: seq<CodeUnit>)
    requires u >= 0x20 && u != QUOTE && u != BACKSLASH
    ensures ReadString([u] + tail) == Behind(u, ReadString(tail))
  {
    hide HexUnit, EscapedUnit;
    assert ([u] + tail)[1..] == tail;
  }

  lemma ReadShort(code: CodeUnit, u: CodeUnit, tail: seq<CodeUnit>)
    requires code != 117 && EscapedUnit(code) == Some(u)
    ensures ReadString([BACKSLASH, code] + tail) == Behind(u, ReadString(tail))
  {
    hide HexUnit, EscapedUnit;
    var s := [BACKSLASH, code] + tail;
    assert s[0] == BACKSLASH && s[1] == code && s[2..] == tail;
  }

  lemma ReadHex(a: CodeUnit, b: CodeUnit, c: CodeUnit, d: CodeUnit, u: CodeUnit, tail: seq<CodeUnit>)
    requires HexUnit([a, b, c, d]) == Some(u)
    ensures ReadString([BACKSLASH, 117, a, b, c, d] + tail) == Behind(u, ReadString(tail))
  {
    hide HexValue, EscapedUnit;
    var s := [BACKSLASH, 117, a, b, c, d] + tail;
    assert s[0] == BACKSLASH && s[1] == 117 && s[6..] == tail;
    assert s[2..][0] == a && s[2..][1] == b && s[2..][2] == c && s[2..][3] == d;
  }

  lemma UnitReadsBack(u: CodeUnit, tail: seq<CodeUnit>)
    ensures ReadString(EscapePoint(u) + tail) == Behind(u, ReadString(tail))
  {
    hide ReadString, Behind, HexUnit, HexDigit;
    if ShortEscape(u) != [] {
      ReadShort(ShortEscape(u)[0], u, tail);
      assert EscapePoint(u) == [BACKSLASH, ShortEscape(u)[0]];
    } else if u < 0x20 || !IsScalar(u) {
      HexReadsBack(u);
      ReadHex(HexDigit(u / 0x1000), HexDigit(u / 0x100 % 16), HexDigit(u / 0x10 % 16), HexDigit(u % 16), u, tail);
    } else {
      ReadPlain(u, tail);
    }
  }

  lemma PairReadsBack(high: CodeUnit, low: CodeUnit, tail: seq<CodeUnit>)
    requires IsHigh(high) && IsLow(low)
    ensures ReadString(EscapePoint(Pair(high, low)) + tail) == Behind(high, Behind(low, ReadString(tail)))
  {
    hide ReadString, Behind, EncodePoint;
    PairUnits(high, low);
    assert EscapePoint(Pair(high, low)) == [high, low];
    ReadPlain(high, [low] + tail);
    ReadPlain(low, tail);
    assert [high, low] + tail == [high] + ([low] + tail);
  }

  lemma EndReadsBack(rest: seq<CodeUnit>)
    ensures ReadString([QUOTE] + rest) == Some(([], rest))
  {
    assert ([QUOTE] + rest)[1..] == rest;
  }

  /** How many units the first element of a string has. */
  function FirstUnits(s: seq<CodeUnit>): (n: nat)
    requires s != []
    ensures 1 <= n <= |s|
  {
    if StartsWithPair(s) then 2 else 1
  }

  lemma EscapeStep(s: seq<CodeUnit>, tail: seq<CodeUnit>)
    requires s != []
    ensures CodePoints(s) != []
    ensures Escape(CodePoints(s)) + tail == EscapePoint(CodePoints(s)[0]) + (Escape(CodePoints(s[FirstUnits(s)..])) + tail)
  {
    hide EscapePoint, Pair;
    assert CodePoints(s)[1..] == CodePoints(s[FirstUnits(s)..]);
  }

  lemma FirstReadsBack(s: seq<CodeUnit>, tail: seq<CodeUnit>, read: (seq<CodeUnit>, seq<CodeUnit>))
    requires s != [] && ReadString(Escape(CodePoints(s[FirstUnits(s)..])) + tail) == Some(read)
    ensures ReadString(Escape(CodePoints(s)) + tail) == Some((s[..FirstUnits(s)] + read.0, read.1))
  {
    hide ReadString, EscapePoint, Escape, Pair;
    EscapeStep(s, tail);
    var behind := Escape(CodePoints(s[FirstUnits(s)..])) + tail;
    if StartsWithPair(s) {
      PairReadsBack(s[0], s[1], behind);
      assert [s[0]] + ([s[1]] + read.0) == s[..2] + read.0;
    } else {
      UnitReadsBack(s[0], behind);
      assert [s[0]] + read.0 == s[..1] + read.0;
    }
  }

  /** Reading what `Quote` writes gives the string back, whatever it holds. */
  lemma {:induction false} StringReadsBack(s: seq<CodeUnit>, rest: seq<CodeUnit>)
    ensures ReadString(Escape(CodePoints(s)) + ([QUOTE] + rest)) == Some((s, rest))
    decreases |s|
  {
    hide ReadString, CodePoints, Escape;
    var tail := [QUOTE] + rest;
    if s == [] {
      EndReadsBack(rest);
      NothingEscaped(tail);
    } else {
      StringReadsBack(s[FirstUnits(s)..], rest);
      FirstReadsBack(s, tail, (s[FirstUnits(s)..], rest));
      assert s[..FirstUnits(s)] + s[FirstUnits(s)..] == s;
    }
  }

  lemma NothingEscaped(tail: seq<CodeUnit>)
    ensures Escape(CodePoints([])) + tail == tail
  {
  }

  // ----- its length in bytes -----

  function PointSize(c: CodePoint): (n: nat)
    ensures n >= 1
  {
    if ShortEscape(c) != [] then 2
    else if c < 0x20 || !IsScalar(c) then 6
    else |PointBytes(c)|
  }

  /** Two bytes for what has a short escape, six for other control characters and for
      unpaired surrogates, and the bytes of UTF-8 for everything else. */
  lemma PointSizeIs(c: CodePoint)
    ensures PointSize(c) ==
            if c in {'\"' as int, '\\' as int, 0x8, 0x9, 0xA, 0xC, 0xD} then 2
            else if c < 0x20 || 0xD800 <= c <= 0xDFFF then 6
            else if c < 0x80 then 1 else if c < 0x800 then 2 else if c < 0x1_0000 then 3 else 4
  {
  }

  function PointsSize(cs: seq<CodePoint>): nat {
    if cs == [] then 0 else PointSize(cs[0]) + PointsSize(cs[1..])
  }

  function QuoteSize(s: seq<CodeUnit>): nat {
    2 + PointsSize(CodePoints(s))
  }

  function Size(j: Json): nat
    decreases j, 1
  {
    match j
    case Null => 4
    case Bool(b) => if b then 4 else 5
    case Number(digits) => |digits|
    case String(s) => QuoteSize(s)
    case Array(items) => 2 + ItemsSize(items)
    case Object(fields) => 2 + FieldsSize(fields)
  }

  function ItemsSize(items: seq<Json>): nat
    decreases items, 0
  {
    if items == [] then 0
    else Size(items[0]) + (if |items| == 1 then 0 else 1 + ItemsSize(items[1..]))
  }

  function FieldsSize(fields: seq<Field>): nat
    decreases fields, 0
  {
    if fields == [] then 0
    else QuoteSize(fields[0].key) + 1 + Size(fields[0].value)
         + (if |fields| == 1 then 0 else 1 + FieldsSize(fields[1..]))
  }

  // ----- Size counts the bytes of Text -----

  /** What the encoder writes for `s`, together with the fact that it may be
      continued by any other text. */
  predicate Occupies(s: seq<CodeUnit>, n: nat) {
    WellFormed(s) && |TextEncode(s)| == n
  }

  lemma OccupiesAppend(a: seq<CodeUnit>, m: nat, b: seq<CodeUnit>, n: nat)
    requires Occupies(a, m) && Occupies(b, n)
    ensures Occupies(a + b, m + n)
  {
    hide CodePoints, Bytes;
    TextEncodeAppend(a, b);
  }

  lemma {:induction false} AsciiOccupies(s: seq<CodeUnit>)
    requires forall i :: 0 <= i < |s| ==> s[i] < 0x80
    ensures Occupies(s, |s|)
  {
    if s != [] {
      AsciiOccupies(s[1..]);
      assert !StartsWithPair(s);
      OneAscii(s[0]);
      OccupiesAppend([s[0]], 1, s[1..], |s| - 1);
      assert s == [s[0]] + s[1..];
    }
  }

  lemma OneAscii(u: CodeUnit)
    requires u < 0x80
    ensures Occupies([u], 1)
  {
    assert CodePoints([u]) == [u];
    assert Scrub([u]) == [u];
    assert Bytes([u]) == PointBytes(u);
  }

  lemma ScalarOccupies(c: CodePoint)
    requires IsScalar(c)
    ensures Occupies(EncodePoint(c), |PointBytes(c)|)
  {
    CodePointsEncode([c]);
    assert Encode([c]) == EncodePoint(c);
    assert Scrub([c]) == [c];
    assert Bytes([c]) == PointBytes(c);
  }

  lemma EscapePointOccupies(c: CodePoint)
    ensures Occupies(EscapePoint(c), PointSize(c))
  {
    if ShortEscape(c) != [] || c < 0x20 || !IsScalar(c) {
      AsciiOccupies(EscapePoint(c));
    } else {
      ScalarOccupies(c);
    }
  }

  lemma {:induction false} EscapeOccupies(cs: seq<CodePoint>)
    ensures Occupies(Escape(cs), PointsSize(cs))
  {
    hide Occupies;
    if cs == [] {
      AsciiOccupies([]);
    } else {
      EscapePointOccupies(cs[0]);
      EscapeOccupies(cs[1..]);
      OccupiesAppend(EscapePoint(cs[0]), PointSize(cs[0]), Escape(cs[1..]), PointsSize(cs[1..]));
    }
  }

  lemma QuoteOccupies(s: seq<CodeUnit>)
    ensures Occupies(Quote(s), QuoteSize(s))
  {
    hide Occupies;
    var points := CodePoints(s);
    OneAscii(QUOTE);
    EscapeOccupies(points);
    OccupiesAppend([QUOTE], 1, Escape(points), PointsSize(points));
    OccupiesAppend([QUOTE] + Escape(points), 1 + PointsSize(points), [QUOTE], 1);
  }

  /** The size is the number of UTF-8 bytes of the text that is sent. */
  lemma {:induction false} TextOccupies(j: Json)
    ensures Occupies(Text(j), Size(j))
    decreases j, 1
  {
    hide Occupies;
    match j
    case Null => AsciiOccupies(Text(j));
    case Bool(b) => AsciiOccupies(Text(j));
    case Number(digits) => AsciiOccupies(Text(j));
    case String(s) => QuoteOccupies(s);
    case Array(items) =>
      ItemsOccupy(items);
      Enclosed(91, ItemsText(items), ItemsSize(items), 93);
    case Object(fields) =>
      FieldsOccupy(fields);
      Enclosed(123, FieldsText(fields), FieldsSize(fields), 125);
  }

  lemma Enclosed(open: CodeUnit, s: seq<CodeUnit>, n: nat, close: CodeUnit)
    requires Occupies(s, n) && open < 0x80 && close < 0x80
    ensures Occupies([open] + s + [close], 2 + n)
  {
    hide Occupies;
    OneAscii(open);
    OneAscii(close);
    OccupiesAppend([open], 1, s, n);
    OccupiesAppend([open] + s, 1 + n, [close], 1);
  }

  lemma {:induction false} ItemsOccupy(items: seq<Json>)
    ensures Occupies(ItemsText(items), ItemsSize(items))
    decreases items, 0
  {
    hide Occupies;
    if items == [] {
      AsciiOccupies([]);
    } else {
      TextOccupies(items[0]);
      if |items| > 1 {
        ItemsOccupy(items[1..]);
        OneAscii(COMMA);
        OccupiesAppend(Text(items[0]), Size(items[0]), [COMMA], 1);
        OccupiesAppend(Text(items[0]) + [COMMA], Size(items[0]) + 1, ItemsText(items[1..]), ItemsSize(items[1..]));
      }
    }
  }

  lemma {:induction false} FieldsOccupy(fields: seq<Field>)
    ensures Occupies(FieldsText(fields), FieldsSize(fields))
    decreases fields, 0
  {
    hide Occupies;
    if fields == [] {
      AsciiOccupies([]);
    } else {
      var key, value := fields[0].key, fields[0].value;
      QuoteOccupies(key);
      TextOccupies(value);
      OneAscii(COLON);
      OneAscii(COMMA);
      OccupiesAppend(Quote(key), QuoteSize(key), [COLON], 1);
      var head := Quote(key) + [COLON];
      OccupiesAppend(head, QuoteSize(key) + 1, Text(value), Size(value));
      if |fields| > 1 {
        var one := head + Text(value);
        FieldsOccupy(fields[1..]);
        OccupiesAppend(one, QuoteSize(key) + 1 + Size(value), [COMMA], 1);
        OccupiesAppend(one + [COMMA], QuoteSize(key) + 2 + Size(value), FieldsText(fields[1..]), FieldsSize(fields[1..]));
      }
    }
  }

  // ----- sizes of parts -----

  lemma {:induction false} FieldsSizeAppend(a: seq<Field>, b: seq<Field>)
    ensures FieldsSize(a + b) == FieldsSize(a) + FieldsSize(b) + (if a == [] || b == [] then 0 else 1)
  {
    if a == [] {
      assert a + b == b;
    } else if b == [] {
      assert a + b == a;
    } else {
      assert (a + b)[1..] == a[1..] + b;
      FieldsSizeAppend(a[1..], b);
    }
  }

  lemma {:induction false} PointsSizeAppend(a: seq<CodePoint>, b: seq<CodePoint>)
    ensures PointsSize(a + b) == PointsSize(a) + PointsSize(b)
  {
    if a == [] {
      assert a + b == b;
    } else {
      assert (a + b)[1..] == a[1..] + b;
      PointsSizeAppend(a[1..], b);
    }
  }
}
