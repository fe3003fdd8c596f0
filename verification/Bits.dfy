/**
 Bitwise "and" of integers in two's complement, of any width.
 */
module Bits {

  function Abs(a: int): nat {
    if a < 0 then -a else a
  }

  function And(a: int, b: int): int
    decreases Abs(a) + Abs(b)
  {
    if a == 0 || b == 0 then 0
    else if a == -1 then b
    else if b == -1 then a
    else 2 * And(a / 2, b / 2) + if a % 2 == 1 && b % 2 == 1 then 1 else 0
  }

  /** Masking with a number that is not negative stays within it. */
  lemma {:induction false} AndBelow(a: int, b: int)
    requires b >= 0
    ensures 0 <= And(a, b) <= b
    decreases Abs(a) + Abs(b)
  {
    if a != 0 && b != 0 && a != -1 { AndBelow(a / 2, b / 2); }
  }

  /** Two negative numbers have a sign bit in common. */
  lemma {:induction false} AndNegative(a: int, b: int)
    requires a < 0 && b < 0
    ensures And(a, b) < 0
    decreases Abs(a) + Abs(b)
  {
    if a != -1 && b != -1 { AndNegative(a / 2, b / 2); }
  }

  /** Masking a number that is not negative leaves no more of it. */
  lemma {:induction false} AndAtMost(a: int, b: int)
    requires a >= 0
    ensures 0 <= And(a, b) <= a
    decreases Abs(a) + Abs(b)
  {
    if a != 0 && b != 0 && b != -1 { AndAtMost(a / 2, b / 2); }
  }

  function Pow2(k: nat): (p: nat)
    ensures p > 0
  {
    if k == 0 then 1 else 2 * Pow2(k - 1)
  }

  /** The low bits are the remainder. */
  lemma {:induction false} AndLowBits(a: int, k: nat)
    ensures And(a, Pow2(k) - 1) == a % Pow2(k)
    decreases k
  {
    if k > 0 {
      var m := Pow2(k - 1);
      AndLowBits(a / 2, k - 1);
      assert (2 * m - 1) / 2 == m - 1 && (2 * m - 1) % 2 == 1;
      HalfMod(a, m);
      if a == -1 { AndLowBits(-1, k - 1); }
    }
  }

  lemma HalfMod(a: int, m: nat)
    requires m > 0
    ensures a % (2 * m) == 2 * ((a / 2) % m) + a % 2
  {
    var q, r := (a / 2) / m, (a / 2) % m;
    assert a == 2 * (q * m + r) + a % 2 == q * (2 * m) + (2 * r + a % 2);
    ModUnique(a, 2 * m, q, 2 * r + a % 2);
  }

  lemma ModUnique(a: int, m: int, q: int, r: int)
    requires m > 0 && a == q * m + r && 0 <= r < m
    ensures a % m == r
  {
    var d := a / m - q;
    assert a == (a / m) * m + a % m;
    assert d * m == r - a % m;
    assert -m < d * m < m;
  }

  lemma NextMultiple(n: int, a: int)
    requires a > 0
    ensures (n + (a - n % a) % a) % a == 0
  {
    var q, r := n / a, n % a;
    assert n == q * a + r;
    if r == 0 {
      ModUnique(a, a, 1, 0);
    } else {
      ModUnique(a - r, a, 0, a - r);
      ModUnique(n + (a - r), a, q + 1, 0);
    }
  }
}
