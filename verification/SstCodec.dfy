/**
 Numbers, handles and keys as the SST format of the rocksdb package writes them. The bit operations
 of the source are stated as arithmetic on their values.
 */
module SstCodec {
  import opened Bytes
  import opened Codec

  // Variable-length integers

  /** Seven bits a byte, low bits first, the high bit set on all bytes but the last. */
  function Varint(v: nat): (b: Bytes)
    ensures |b| > 0
  {
    if v < 128 then [v] else [v % 128 + 128] + Varint(v / 128)
  }

  /** Value and length of the integer in front, read from at most `width` bytes; length 0 when there is none. */
  function Uvarint(b: Bytes, width: nat): (r: (nat, nat))
    ensures r.1 <= |b| && r.1 <= width
  {
    if b == [] || width == 0 then (0, 0)
    else if b[0] < 128 then (b[0], 1)
    else
      var r := Uvarint(b[1..], width - 1);
      if r.1 == 0 then (0, 0) else (b[0] - 128 + 128 * r.0, r.1 + 1)
  }

  function Pow128(n: nat): (p: nat)
    ensures p >= 1
  {
    if n == 0 then 1 else 128 * Pow128(n - 1)
  }

  lemma Pow128Values()
    ensures Pow128(5) == 0x8_0000_0000 && Pow128(10) > 0x1_0000_0000_0000_0000
  {
    assert Pow128(3) == 0x20_0000;
    assert Pow128(7) == 0x2_0000_0000_0000;
    assert Pow128(9) == 0x8000_0000_0000_0000;
  }

  /** A number that fits `width` bytes reads back, whatever follows it. */
  lemma {:induction false} VarintRoundTrip(v: nat, rest: Bytes, width: nat)
    requires width > 0 && v < Pow128(width)
    ensures Uvarint(Varint(v) + rest, width) == (v, |Varint(v)|)
  {
    if v >= 128 {
      VarintRoundTrip(v / 128, rest, width - 1);
      assert (Varint(v) + rest)[1..] == Varint(v / 128) + rest;
    }
  }

  /** The five cases of the source, written out. */
  method EncodeVarint32(v: nat) returns (b: Bytes)
    requires v < 0x1_0000_0000
    ensures b == Varint(v)
  {
    if v < 0x80 {
      return [v];
    }
    assert Varint(v) == [v % 0x80 + 0x80] + Varint(v / 0x80);
    if v < 0x4000 {
      return [v % 0x80 + 0x80, v / 0x80];
    }
    assert v / 0x80 / 0x80 == v / 0x4000;
    assert Varint(v / 0x80) == [v / 0x80 % 0x80 + 0x80] + Varint(v / 0x4000);
    if v < 0x20_0000 {
      return [v % 0x80 + 0x80, v / 0x80 % 0x80 + 0x80, v / 0x4000];
    }
    assert v / 0x4000 / 0x80 == v / 0x20_0000;
    assert Varint(v / 0x4000) == [v / 0x4000 % 0x80 + 0x80] + Varint(v / 0x20_0000);
    if v < 0x1000_0000 {
      return [v % 0x80 + 0x80, v / 0x80 % 0x80 + 0x80, v / 0x4000 % 0x80 + 0x80, v / 0x20_0000];
    }
    assert v / 0x20_0000 / 0x80 == v / 0x1000_0000;
    assert Varint(v / 0x20_0000) == [v / 0x20_0000 % 0x80 + 0x80] + Varint(v / 0x1000_0000);
    return [v % 0x80 + 0x80, v / 0x80 % 0x80 + 0x80, v / 0x4000 % 0x80 + 0x80,
            v / 0x20_0000 % 0x80 + 0x80, v / 0x1000_0000];
  }

  /** 128 to the power `i`, for the five places of a 32-bit number. */
  function Scale(i: nat): nat {
    if i == 0 then 1
    else if i == 1 then 0x80
    else if i == 2 then 0x4000
    else if i == 3 then 0x20_0000
    else if i == 4 then 0x1000_0000
    else 0x8_0000_0000
  }

  /** The value of the bytes still to come, once `i` of them have given `acc`. */
  ghost function Joined(acc: nat, i: nat, rest: (nat, nat)): (nat, nat) {
    if rest.1 == 0 then (0, 0) else (acc + Scale(i) * rest.0, i + rest.1)
  }

  /** The first `i` bytes, all with the high bit set, have given `acc`. */
  ghost predicate Decoding(buf: Bytes, i: nat, acc: nat) {
    && i <= 5 && i <= |buf| && acc < Scale(i)
    && Joined(acc, i, Uvarint(buf[i..], 5 - i)) == Uvarint(buf, 5)
  }

  lemma Carry(acc: nat, i: nat, b: nat, v: nat)
    requires i < 5 && b < 128 && acc < Scale(i)
    ensures acc + b * Scale(i) < Scale(i + 1)
    ensures acc + Scale(i) * (b + 128 * v) == acc + b * Scale(i) + Scale(i + 1) * v
  {
    if i == 0 {
    } else if i == 1 {
    } else if i == 2 {
    } else if i == 3 {
    } else {
    }
  }

  lemma NextByte(buf: Bytes, i: nat, acc: nat)
    requires Decoding(buf, i, acc) && i < |buf| && i < 5 && buf[i] >= 128
    ensures Decoding(buf, i + 1, acc + (buf[i] - 128) * Scale(i))
  {
    assert buf[i..][0] == buf[i] && buf[i..][1..] == buf[i + 1..];
    Carry(acc, i, buf[i] - 128, Uvarint(buf[i + 1..], 4 - i).0);
  }

  /** A shift past 32 bits drops the bits beyond. */
  lemma LastByte(acc: nat, i: nat, b: nat)
    requires i < 5 && acc < Scale(i) && b < 128
    ensures acc + b * Scale(i) % 0x1_0000_0000 == (acc + Scale(i) * b) % 0x1_0000_0000
  {
    if i == 0 {
    } else if i == 1 {
    } else if i == 2 {
    } else if i == 3 {
    } else {
    }
  }

  lemma EndByte(buf: Bytes, i: nat, acc: nat)
    requires Decoding(buf, i, acc) && i < |buf| && i < 5 && buf[i] < 128
    ensures Uvarint(buf, 5).1 == i + 1
    ensures acc + buf[i] * Scale(i) % 0x1_0000_0000 == Uvarint(buf, 5).0 % 0x1_0000_0000
  {
    assert buf[i..][0] == buf[i];
    LastByte(acc, i, buf[i]);
  }

  lemma NoByte(buf: Bytes, i: nat, acc: nat)
    requires Decoding(buf, i, acc) && (i == 5 || i == |buf|)
    ensures Uvarint(buf, 5) == (0, 0)
  {
    if i == |buf| { assert buf[i..] == []; }
  }

  /** The loop of the slow path; the value keeps 32 bits. */
  method DecodeVarint32(buf: Bytes) returns (result: nat, n: nat)
    requires |buf| > 0
    ensures n == Uvarint(buf, 5).1 && result == Uvarint(buf, 5).0 % 0x1_0000_0000
  {
    if buf[0] < 128 {
      return buf[0], 1;
    }
    var acc: nat, i: nat := 0, 0;
    assert buf[0..] == buf;
    while i < 5 && i < |buf|
      invariant Decoding(buf, i, acc)
    {
      var b := buf[i];
      if b < 128 {
        EndByte(buf, i, acc);
        return acc + b * Scale(i) % 0x1_0000_0000, i + 1;
      }
      NextByte(buf, i, acc);
      acc, i := acc + (b - 128) * Scale(i), i + 1;
    }
    NoByte(buf, i, acc);
    return 0, 0;
  }

  // Masked checksums

  const MASK_DELTA := 0xa282ead8

  /** Rotated right by 15 bits, plus a constant, in 32 bits. */
  function MaskCrc32(sum: nat): (m: nat)
    requires sum < 0x1_0000_0000
    ensures m < 0x1_0000_0000
  {
    (sum / 0x8000 + sum % 0x8000 * 0x2_0000 + MASK_DELTA) % 0x1_0000_0000
  }

  function UnmaskCrc32(masked: nat): (s: nat)
    requires masked < 0x1_0000_0000
    ensures s < 0x1_0000_0000
  {
    var rot := (masked + 0x1_0000_0000 - MASK_DELTA) % 0x1_0000_0000;
    rot / 0x2_0000 + rot % 0x2_0000 * 0x8000
  }

  lemma MaskRoundTrip(sum: nat)
    requires sum < 0x1_0000_0000
    ensures UnmaskCrc32(MaskCrc32(sum)) == sum
  {
    var rot := sum / 0x8000 + sum % 0x8000 * 0x2_0000;
    assert (MaskCrc32(sum) + 0x1_0000_0000 - MASK_DELTA) % 0x1_0000_0000 == rot;
    assert rot / 0x2_0000 == sum % 0x8000 && rot % 0x2_0000 == sum / 0x8000;
  }

  // Block handles

  datatype Handle = Handle(offset: nat, size: nat)

  function HandleBytes(h: Handle): Bytes {
    Varint(h.offset) + Varint(h.size)
  }

  /** Handle and number of bytes read. */
  function DecodeHandle(b: Bytes): (r: (Handle, nat))
    ensures r.1 <= |b|
  {
    var o := Uvarint(b, 10);
    var s := Uvarint(b[o.1..], 10);
    (Handle(o.0, s.0), o.1 + s.1)
  }

  lemma HandleRoundTrip(h: Handle, rest: Bytes)
    requires h.offset < 0x1_0000_0000_0000_0000 && h.size < 0x1_0000_0000_0000_0000
    ensures DecodeHandle(HandleBytes(h) + rest) == (h, |HandleBytes(h)|)
  {
    Pow128Values();
    var b := HandleBytes(h) + rest;
    assert b == Varint(h.offset) + (Varint(h.size) + rest);
    VarintRoundTrip(h.offset, Varint(h.size) + rest, 10);
    assert b[|Varint(h.offset)|..] == Varint(h.size) + rest;
    VarintRoundTrip(h.size, rest, 10);
  }

  /** A 64-bit number takes at most ten bytes. */
  lemma {:induction false} VarintLength(v: nat, n: nat)
    requires n > 0 && v < Pow128(n)
    ensures |Varint(v)| <= n
  {
    if v >= 128 { VarintLength(v / 128, n - 1); }
  }

  // Internal keys

  datatype ValueType = TypeDeletion | TypeValue | TypeMerge

  function TypeNumber(tp: ValueType): nat {
    match tp
    case TypeDeletion => 0
    case TypeValue => 1
    case TypeMerge => 2
  }

  datatype InternalKey = InternalKey(userKey: Bytes, sequence: nat, tp: nat)

  function KeyBytes(k: InternalKey): Bytes {
    k.userKey + LE(k.sequence * 256 + k.tp, 8)
  }

  function DecodeKey(b: Bytes): InternalKey
    requires |b| >= 8
  {
    var pack := FromLE(b[|b| - 8..]);
    InternalKey(b[..|b| - 8], pack / 256, pack % 256)
  }

  lemma KeyRoundTrip(k: InternalKey)
    requires k.tp < 256 && k.sequence < 0x100_0000_0000_0000
    ensures |KeyBytes(k)| >= 8 && DecodeKey(KeyBytes(k)) == k
  {
    var b, n := KeyBytes(k), |k.userKey|;
    assert |b| == n + 8 && b[n..] == LE(k.sequence * 256 + k.tp, 8) && b[..n] == k.userKey;
    Widths();
    LERoundTrip(k.sequence * 256 + k.tp, 8);
  }
}
