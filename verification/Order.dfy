/** Lexicographic comparison of integer sequences, the one order that the
    repository's byte, code-unit and code-point comparisons all instantiate. */
module Order {

  /** -1, 0 or 1: how `a` compares with `b`, first difference first, a proper prefix below. */
  function Lex(a: seq<int>, b: seq<int>): int {
    if a == [] then (if b == [] then 0 else -1)
    else if b == [] then 1
    else if a[0] < b[0] then -1
    else if b[0] < a[0] then 1
    else Lex(a[1..], b[1..])
  }

  function Sign(n: int): int {
    if n < 0 then -1 else if n > 0 then 1 else 0
  }

  lemma {:induction false} LexZeroIffEqual(a: seq<int>, b: seq<int>)
    ensures Lex(a, b) == 0 <==> a == b
  {
    if a != [] && b != [] && a[0] == b[0] {
      LexZeroIffEqual(a[1..], b[1..]);
      assert a == [a[0]] + a[1..] && b == [b[0]] + b[1..];
    }
  }

  lemma {:induction false} LexAntisymmetric(a: seq<int>, b: seq<int>)
    ensures Lex(a, b) == -Lex(b, a)
  {
    if a != [] && b != [] && a[0] == b[0] {
      LexAntisymmetric(a[1..], b[1..]);
    }
  }

  lemma {:induction false} LexTransitive(a: seq<int>, b: seq<int>, c: seq<int>)
    requires Lex(a, b) < 0 && Lex(b, c) <= 0
    ensures Lex(a, c) < 0
  {
    if a != [] && b != [] && c != [] && a[0] == b[0] == c[0] {
      LexTransitive(a[1..], b[1..], c[1..]);
    }
  }

  /** A common prefix does not influence the comparison. */
  lemma {:induction false} LexCommonPrefix(p: seq<int>, a: seq<int>, b: seq<int>)
    ensures Lex(p + a, p + b) == Lex(a, b)
  {
    if p == [] {
      assert p + a == a && p + b == b;
    } else {
      assert (p + a)[1..] == p[1..] + a && (p + b)[1..] == p[1..] + b;
      LexCommonPrefix(p[1..], a, b);
    }
  }

  /** The first position where both have an element and differ decides. */
  lemma {:induction false} LexFirstDifference(a: seq<int>, b: seq<int>, k: nat)
    requires k < |a| && k < |b| && a[..k] == b[..k] && a[k] != b[k]
    ensures Lex(a, b) == Sign(a[k] - b[k])
  {
    LexCommonPrefix(a[..k], a[k..], b[k..]);
    assert a == a[..k] + a[k..] && b == a[..k] + b[k..];
  }

  /** Without a difference on the common length, the shorter one is below. */
  lemma {:induction false} LexPrefix(a: seq<int>, b: seq<int>)
    requires a <= b || b <= a
    ensures Lex(a, b) == Sign(|a| - |b|)
  {
    if a <= b {
      LexCommonPrefix(a, [], b[|a|..]);
      assert a == a + [] && b == a + b[|a|..];
    } else {
      LexCommonPrefix(b, a[|b|..], []);
      assert b == b + [] && a == b + a[|b|..];
    }
  }
}
