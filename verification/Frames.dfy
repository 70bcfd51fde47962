/** Length-prefixed frames: each part behind its length as four big-endian bytes. */
module Frames {
  import opened Utf8

  const WORD := 0x1_0000_0000

  /** `setUint32`, which keeps the value modulo 2^32. */
  function Be32(n: nat): (bytes: seq<Byte>)
    ensures |bytes| == 4
  {
    var w := n % WORD;
    [w / 0x100_0000, w / 0x1_0000 % 0x100, w / 0x100 % 0x100, w % 0x100]
  }

  function Framed(parts: seq<seq<Byte>>): seq<Byte> {
    if parts == [] then [] else Be32(|parts[0]|) + parts[0] + Framed(parts[1..])
  }

  predicate Short(parts: seq<seq<Byte>>) {
    forall i :: 0 <= i < |parts| ==> |parts[i]| < WORD
  }

  lemma Be32Injective(m: nat, n: nat)
    requires m < WORD && n < WORD && Be32(m) == Be32(n)
    ensures m == n
  {
    Be32Value(m);
    Be32Value(n);
  }

  lemma Be32Value(n: nat)
    requires n < WORD
    ensures var b := Be32(n);
            n == b[0] as int * 0x100_0000 + b[1] as int * 0x1_0000 + b[2] as int * 0x100 + b[3] as int
  {
    ByteSteps(n);
    var q1, q2, q3 := n / 0x100, n / 0x1_0000, n / 0x100_0000;
    assert n == q1 * 0x100 + n % 0x100 && q1 == q2 * 0x100 + q1 % 0x100 && q2 == q3 * 0x100 + q2 % 0x100 by {
      hide Be32;
    }
    assert Be32(n) == [q3, q2 % 0x100, q1 % 0x100, n % 0x100] by {
      assert n % WORD == n && q3 < 0x100;
    }
    hide Be32;
  }

  lemma ByteSteps(n: nat)
    ensures n / 0x1_0000 == n / 0x100 / 0x100 && n / 0x100_0000 == n / 0x1_0000 / 0x100
  {
  }

  /** A frame determines its list of parts, however many there are, when each is
      shorter than 2^32 bytes. */
  lemma {:induction false} FramedInjective(a: seq<seq<Byte>>, b: seq<seq<Byte>>)
    requires Short(a) && Short(b) && Framed(a) == Framed(b)
    ensures a == b
  {
    hide Be32;
    if a != [] && b != [] {
      var f := Framed(a);
      assert f[..4] == Be32(|a[0]|) && f[..4] == Be32(|b[0]|);
      Be32Injective(|a[0]|, |b[0]|);
      var n := 4 + |a[0]|;
      assert f[4..n] == a[0] && f[4..n] == b[0];
      assert f[n..] == Framed(a[1..]) && f[n..] == Framed(b[1..]);
      FramedInjective(a[1..], b[1..]);
      assert a == [a[0]] + a[1..] && b == [b[0]] + b[1..];
    } else {
      assert a != [] ==> |Framed(a)| >= 4;
      assert b != [] ==> |Framed(b)| >= 4;
    }
  }

  lemma {:induction false} FramedAppend(a: seq<seq<Byte>>, p: seq<Byte>)
    ensures Framed(a + [p]) == Framed(a) + Be32(|p|) + p
  {
    hide Be32;
    if a == [] {
      assert a + [p] == [p] && Framed([p][1..]) == [];
    } else {
      assert (a + [p])[1..] == a[1..] + [p];
      FramedAppend(a[1..], p);
    }
  }

  lemma FramedPair(p: seq<Byte>, q: seq<Byte>)
    ensures Framed([p, q]) == Be32(|p|) + p + Be32(|q|) + q
  {
    hide Be32;
    FramedAppend([], p);
    FramedAppend([p], q);
    assert [] + [p] == [p] && [p] + [q] == [p, q];
  }

  /** `target.set(value)` at the start of the array. */
  method Set(target: array<Byte>, value: seq<Byte>)
    requires |value| <= target.Length
    modifies target
    ensures target[..|value|] == value
    ensures target[|value|..] == old(target[|value|..])
  {
    forall i | 0 <= i < |value| {
      target[i] := value[i];
    }
  }

  lemma SplitAt(s: seq<Byte>, k: nat)
    requires k <= |s|
    ensures s == s[..k] + s[k..]
  {
  }

  /** `appendLengthPrefixed`: writes at `offset` and returns the offset behind it. */
  method AppendLengthPrefixed(target: array<Byte>, offset: nat, value: seq<Byte>) returns (next: nat)
    requires offset + 4 + |value| <= target.Length
    modifies target
    ensures next == offset + 4 + |value|
    ensures target[..next] == old(target[..offset]) + Be32(|value|) + value
    ensures target[next..] == old(target[next..])
  {
    hide Be32;
    var prefix := Be32(|value|);
    var i := 0;
    while i < 4
      invariant 0 <= i <= 4
      invariant target[..offset] == old(target[..offset])
      invariant target[offset..offset + i] == prefix[..i]
      invariant target[offset + 4 + |value|..] == old(target[offset + 4 + |value|..])
    {
      target[offset + i] := prefix[i];
      i := i + 1;
    }
    assert prefix[..4] == prefix;
    assert target[..offset + 4] == target[..offset] + target[offset..offset + 4];
    var j := 0;
    while j < |value|
      invariant 0 <= j <= |value|
      invariant target[..offset + 4] == old(target[..offset]) + prefix
      invariant target[offset + 4..offset + 4 + j] == value[..j]
      invariant target[offset + 4 + |value|..] == old(target[offset + 4 + |value|..])
    {
      target[offset + 4 + j] := value[j];
      j := j + 1;
    }
    next := offset + 4 + |value|;
    assert value[..|value|] == value;
    SplitAt(target[..next], offset + 4);
    assert target[..next][..offset + 4] == target[..offset + 4];
    assert target[..next][offset + 4..] == target[offset + 4..next];
  }

  function FramedSize(parts: seq<seq<Byte>>): nat {
    if parts == [] then 0 else 4 + |parts[0]| + FramedSize(parts[1..])
  }

  lemma {:induction false} FramedSizeIsLength(parts: seq<seq<Byte>>)
    ensures |Framed(parts)| == FramedSize(parts)
  {
    if parts != [] {
      FramedSizeIsLength(parts[1..]);
    }
  }

  lemma {:induction false} FramedSizePrefix(parts: seq<seq<Byte>>, i: nat)
    requires i < |parts|
    ensures FramedSize(parts[..i]) + 4 + |parts[i]| <= FramedSize(parts)
  {
    if i > 0 {
      FramedSizePrefix(parts[1..], i - 1);
      assert parts[..i][1..] == parts[1..][..i - 1];
    }
  }

  /** The framing loop of `fingerprint`. */
  method FrameParts(parts: seq<seq<Byte>>) returns (framed: array<Byte>)
    ensures framed[..] == Framed(parts) && fresh(framed)
  {
    framed := new Byte[FramedSize(parts)](_ => 0);
    var offset := 0;
    var i := 0;
    FramedSizeIsLength(parts);
    while i < |parts|
      invariant 0 <= i <= |parts|
      invariant offset == FramedSize(parts[..i]) <= framed.Length
      invariant framed[..offset] == Framed(parts[..i])
    {
      var part := parts[i];
      FramedSizePrefix(parts, i);
      FramedAppend(parts[..i], part);
      assert parts[..i + 1] == parts[..i] + [part];
      FramedSizeIsLength(parts[..i + 1]);
      offset := AppendLengthPrefixed(framed, offset, part);
      i := i + 1;
    }
    assert parts[..i] == parts;
    assert framed[..offset] == framed[..];
  }
}
