/**
 Fixed-width little-endian integers (`binary.LittleEndian`).
 */
module Codec {
  import opened Bytes
  import Bits

  /** 256 to the power `width`. */
  function Pow256(width: nat): (p: nat)
    ensures p >= 1
  {
    if width == 0 then 1 else 256 * Pow256(width - 1)
  }

  /** The low `width` bytes of `n`. */
  function LE(n: nat, width: nat): (b: Bytes)
    ensures |b| == width
  {
    if width == 0 then [] else [n % 256] + LE(n / 256, width - 1)
  }

  function FromLE(b: Bytes): (n: nat)
    ensures n < Pow256(|b|)
  {
    if b == [] then 0 else b[0] + 256 * FromLE(b[1..])
  }

  lemma {:induction false} LERoundTrip(n: nat, width: nat)
    requires n < Pow256(width)
    ensures FromLE(LE(n, width)) == n
  {
    if width > 0 {
      LERoundTrip(n / 256, width - 1);
      assert LE(n, width)[1..] == LE(n / 256, width - 1);
    }
  }

  /** A number too wide for its bytes wraps. */
  lemma {:induction false} LEWraps(n: nat, width: nat)
    ensures FromLE(LE(n, width)) == n % Pow256(width)
  {
    if width > 0 {
      var p := Pow256(width - 1);
      LEWraps(n / 256, width - 1);
      assert LE(n, width)[1..] == LE(n / 256, width - 1);
      var q, r := n / 256 / p, n / 256 % p;
      Bits.ModUnique(n, 256 * p, q, 256 * r + n % 256);
    }
  }

  lemma {:induction false} FromLERoundTrip(b: Bytes)
    ensures LE(FromLE(b), |b|) == b
  {
    if b != [] {
      FromLERoundTrip(b[1..]);
      var n := FromLE(b[1..]);
      assert (b[0] + 256 * n) % 256 == b[0] && (b[0] + 256 * n) / 256 == n;
    }
  }

  function Zeros(n: nat): (b: Bytes)
    ensures |b| == n && forall i :: 0 <= i < n ==> b[i] == 0
  {
    if n == 0 then [] else [0] + Zeros(n - 1)
  }

  lemma {:induction false} ZeroLE(width: nat)
    ensures LE(0, width) == Zeros(width)
  {
    if width > 0 { ZeroLE(width - 1); }
  }

  /** The lowest byte comes first. */
  lemma SmallLE(n: nat, width: nat)
    requires n < 256 && width > 0
    ensures LE(n, width) == [n] + Zeros(width - 1)
  {
    ZeroLE(width - 1);
  }

  lemma Widths()
    ensures Pow256(1) == 0x100 && Pow256(2) == 0x1_0000 && Pow256(4) == 0x1_0000_0000
    ensures Pow256(8) == 0x1_0000_0000_0000_0000
  {
    assert Pow256(3) == 0x100_0000;
    assert Pow256(5) == 0x100_0000_0000;
    assert Pow256(6) == 0x1_0000_0000_0000;
    assert Pow256(7) == 0x100_0000_0000_0000;
  }
}
