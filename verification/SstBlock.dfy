/**
 One block of an SST file: key/value entries, each key given as a prefix of the one before it and a
 suffix, followed by the restart offsets (rocksdb/block_builder.go and rocksdb/block_iter.go).
 */
module SstBlock {
  import opened Bytes
  import opened Codec
  import opened SstCodec

  datatype Pair = Pair(key: Bytes, value: Bytes)

  /** An entry that takes its first `p` key bytes from the key before it. */
  function EntryBytes(e: Pair, p: nat): Bytes
    requires p <= |e.key|
  {
    Varint(p) + (Varint(|e.key| - p) + (Varint(|e.value|) + (e.key[p..] + e.value)))
  }

  predicate Prefixes(pairs: seq<Pair>, ps: seq<nat>) {
    |ps| == |pairs| && forall i {:trigger ps[i]} :: 0 <= i < |ps| ==> ps[i] <= |pairs[i].key|
  }

  function BlockData(pairs: seq<Pair>, ps: seq<nat>): Bytes
    requires Prefixes(pairs, ps)
    decreases |pairs|
  {
    if pairs == [] then [] else EntryBytes(pairs[0], ps[0]) + BlockData(pairs[1..], ps[1..])
  }

  /** The first `p` bytes of `key` are those of the key before it. */
  predicate Shares(before: Bytes, key: Bytes, p: nat) {
    p <= |before| && p <= |key| && before[..p] == key[..p]
  }

  function KeyBefore(pairs: seq<Pair>, i: nat): Bytes
    requires i <= |pairs|
  {
    if i == 0 then [] else pairs[i - 1].key
  }

  predicate PairFits(e: Pair) {
    |e.key| < 0x1_0000_0000 && |e.value| < 0x1_0000_0000
  }

  /** Every entry can be rebuilt from the key before it, the first from nothing. */
  ghost predicate Readable(pairs: seq<Pair>, ps: seq<nat>) {
    && Prefixes(pairs, ps)
    && (forall i {:trigger ReadableAt(pairs, ps, i)} :: 0 <= i < |pairs| ==> ReadableAt(pairs, ps, i))
  }

  predicate ReadableAt(pairs: seq<Pair>, ps: seq<nat>, i: nat)
    requires i < |pairs| && i < |ps|
  {
    Shares(KeyBefore(pairs, i), pairs[i].key, ps[i]) && PairFits(pairs[i])
  }

  lemma {:induction false} BlockDataSnoc(pairs: seq<Pair>, ps: seq<nat>, e: Pair, p: nat)
    requires Prefixes(pairs, ps) && p <= |e.key|
    ensures Prefixes(pairs + [e], ps + [p])
    ensures BlockData(pairs + [e], ps + [p]) == BlockData(pairs, ps) + EntryBytes(e, p)
    decreases |pairs|
  {
    if pairs == [] {
      assert (pairs + [e])[1..] == [] && (ps + [p])[1..] == [];
    } else {
      BlockDataSnoc(pairs[1..], ps[1..], e, p);
      var pairs', ps' := pairs + [e], ps + [p];
      assert pairs'[0] == pairs[0] && ps'[0] == ps[0] && pairs'[1..] == pairs[1..] + [e] && ps'[1..] == ps[1..] + [p];
      Assoc(EntryBytes(pairs[0], ps[0]), BlockData(pairs[1..], ps[1..]), EntryBytes(e, p));
    }
  }

  function RestartBytes(restarts: seq<nat>): Bytes
    decreases |restarts|
  {
    if restarts == [] then [] else RestartBytes(restarts[..|restarts| - 1]) + LE(restarts[|restarts| - 1], 4)
  }

  lemma {:induction false} RestartBytesLength(restarts: seq<nat>)
    ensures |RestartBytes(restarts)| == 4 * |restarts|
    decreases |restarts|
  {
    if restarts != [] { RestartBytesLength(restarts[..|restarts| - 1]); }
  }

  /** A finished block. */
  datatype Block = Block(pairs: seq<Pair>, ps: seq<nat>, restarts: seq<nat>)

  ghost predicate GoodBlock(b: Block) {
    Readable(b.pairs, b.ps) && |b.restarts| < 0x3fff_ffff
  }

  function Content(b: Block): Bytes
    requires Prefixes(b.pairs, b.ps)
  {
    BlockData(b.pairs, b.ps) + (RestartBytes(b.restarts) + LE(|b.restarts|, 4))
  }

  // The builder

  /** The length of the longest common prefix. */
  method DifferenceOffset(lhs: Bytes, rhs: Bytes) returns (off: nat)
    ensures Shares(rhs, lhs, off)
    ensures off < |lhs| && off < |rhs| ==> lhs[off] != rhs[off]
  {
    var l := if |rhs| < |lhs| then |rhs| else |lhs|;
    off := 0;
    while off < l && lhs[off] == rhs[off]
      invariant off <= l && lhs[..off] == rhs[..off]
    {
      assert lhs[..off + 1] == lhs[..off] + [lhs[off]] && rhs[..off + 1] == rhs[..off] + [rhs[off]];
      off := off + 1;
    }
  }

  lemma ReadableSnoc(pairs: seq<Pair>, ps: seq<nat>, e: Pair, p: nat)
    requires Readable(pairs, ps) && PairFits(e) && Shares(KeyBefore(pairs, |pairs|), e.key, p)
    ensures Readable(pairs + [e], ps + [p])
  {
    var pairs', ps' := pairs + [e], ps + [p];
    forall i | 0 <= i < |pairs| ensures ReadableAt(pairs', ps', i) {
      assert ReadableAt(pairs, ps, i);
      assert pairs'[i] == pairs[i] && KeyBefore(pairs', i) == KeyBefore(pairs, i);
    }
    assert ReadableAt(pairs', ps', |pairs|);
  }

  /** An entry with a whole key starts at this offset, or will as the first of the block. */
  ghost predicate StartsWhole(pairs: seq<Pair>, ps: seq<nat>, offset: nat)
    requires Prefixes(pairs, ps)
  {
    if pairs == [] then offset == 0
    else exists i: nat :: WholeAt(pairs, ps, offset, i)
  }

  ghost predicate WholeAt(pairs: seq<Pair>, ps: seq<nat>, offset: nat, i: nat)
    requires Prefixes(pairs, ps)
  {
    i < |pairs| && ps[i] == 0 && Prefixes(pairs[..i], ps[..i]) && offset == |BlockData(pairs[..i], ps[..i])|
  }

  ghost predicate RestartsWhole(pairs: seq<Pair>, ps: seq<nat>, restarts: seq<nat>) {
    Prefixes(pairs, ps) && forall k :: 0 <= k < |restarts| ==> StartsWhole(pairs, ps, restarts[k])
  }

  /** One more entry moves no restart; the first entry of a block and the one behind a new restart are whole. */
  lemma RestartsKept(pairs: seq<Pair>, ps: seq<nat>, restarts: seq<nat>, e: Pair, p: nat)
    requires RestartsWhole(pairs, ps, restarts) && p <= |e.key| && (pairs == [] ==> p == 0)
    ensures RestartsWhole(pairs + [e], ps + [p], restarts)
    ensures p == 0 ==> StartsWhole(pairs + [e], ps + [p], |BlockData(pairs, ps)|)
  {
    var pairs', ps' := pairs + [e], ps + [p];
    assert pairs'[..|pairs|] == pairs && ps'[..|pairs|] == ps;
    if p == 0 { assert WholeAt(pairs', ps', |BlockData(pairs, ps)|, |pairs|); }
    forall k | 0 <= k < |restarts| ensures StartsWhole(pairs', ps', restarts[k]) {
      assert StartsWhole(pairs, ps, restarts[k]);
      if pairs != [] {
        var i: nat :| WholeAt(pairs, ps, restarts[k], i);
        assert pairs'[..i] == pairs[..i] && ps'[..i] == ps[..i];
        assert WholeAt(pairs', ps', restarts[k], i);
      }
    }
  }

  /** The number of entries in `k` runs of `interval` each. */
  ghost function Runs(k: nat, interval: nat): nat {
    if k == 0 then 0 else Runs(k - 1, interval) + interval
  }

  lemma {:induction false} RunsIs(k: nat, interval: nat)
    ensures Runs(k, interval) == k * interval
  {
    if k > 0 { RunsIs(k - 1, interval); }
  }

  class BlockBuilder {
    const restartInterval: nat
    var counter: nat
    var estimate: nat
    var restarts: seq<nat>
    var buf: Bytes
    var lastKey: Bytes

    constructor (restartInterval: nat)
      ensures this.restartInterval == restartInterval && Holds([], []) && Restarted([], [])
    {
      this.restartInterval := restartInterval;
      counter, estimate, restarts, buf, lastKey := 0, 0, [0], [], [];
    }

    /** The buffer holds these pairs. */
    ghost predicate Holds(pairs: seq<Pair>, ps: seq<nat>)
      reads this
    {
      && Readable(pairs, ps) && buf == BlockData(pairs, ps) && estimate == |buf|
      && lastKey == KeyBefore(pairs, |pairs|)
      && counter <= restartInterval && 1 <= |restarts| <= |pairs| + 1 && restarts[0] == 0
    }

    /** Restarts at whole keys, one for every `restartInterval` entries. */
    ghost predicate Restarted(pairs: seq<Pair>, ps: seq<nat>)
      reads this
    {
      RestartsWhole(pairs, ps, restarts) && Spaced(|pairs|)
    }

    ghost predicate Spaced(n: nat)
      reads this
    {
      |restarts| >= 1 && Runs(|restarts| - 1, restartInterval) + counter == n && (n > 0 ==> counter >= 1)
    }

    method Reset()
      requires |restarts| >= 1 && restarts[0] == 0
      modifies this
      ensures Holds([], []) && Restarted([], [])
    {
      counter, estimate, buf, restarts, lastKey := 0, 0, [], restarts[..1], [];
    }

    method AppendVarint32(v: nat)
      requires v < 0x1_0000_0000
      modifies `buf
      ensures buf == old(buf) + Varint(v)
    {
      var e := EncodeVarint32(v);
      buf := buf + e;
    }

    /** The bytes of one entry. */
    method AppendEntry(key: Bytes, value: Bytes, prefixLen: nat)
      requires prefixLen <= |key| && PairFits(Pair(key, value))
      modifies `buf
      ensures buf == old(buf) + EntryBytes(Pair(key, value), prefixLen)
    {
      ghost var b0 := buf;
      AppendVarint32(prefixLen);
      AppendVarint32(|key| - prefixLen);
      AppendVarint32(|value|);
      buf := buf + key[prefixLen..];
      buf := buf + value;
      Joins(b0, Varint(prefixLen), Varint(|key| - prefixLen), Varint(|value|), key[prefixLen..], value);
    }

    /** Counts one more entry: how much of its key is left out, or a new restart for a whole key. */
    method CountEntry(key: Bytes, ghost n: nat) returns (prefixLen: nat)
      requires restartInterval >= 1 && counter <= restartInterval
      modifies `restarts, `counter
      ensures Shares(lastKey, key, prefixLen) && counter <= restartInterval && (old(Spaced(n)) ==> Spaced(n + 1))
      ensures restarts == old(restarts) || (prefixLen == 0 && restarts == old(restarts) + [|buf|])
    {
      prefixLen := 0;
      if counter >= restartInterval {
        restarts := restarts + [|buf|];
        counter := 0;
      } else {
        prefixLen := DifferenceOffset(key, lastKey);
      }
      counter := counter + 1;
    }

    /** Adds a pair, starting over with a whole key after each `restartInterval` entries. */
    method Add(key: Bytes, value: Bytes, ghost pairs: seq<Pair>, ghost ps: seq<nat>) returns (ghost p: nat)
      requires restartInterval >= 1 && Holds(pairs, ps) && PairFits(Pair(key, value))
      modifies this
      ensures p <= |key| && Holds(pairs + [Pair(key, value)], ps + [p])
      ensures old(Restarted(pairs, ps)) ==> Restarted(pairs + [Pair(key, value)], ps + [p])
      ensures |buf| > |old(buf)|
    {
      var prefixLen := CountEntry(key, |pairs|);
      lastKey := key;
      p := prefixLen;
      var currSz := |buf|;
      BlockDataSnoc(pairs, ps, Pair(key, value), p);
      ReadableSnoc(pairs, ps, Pair(key, value), p);
      if old(Restarted(pairs, ps)) {
        RestartsKept(pairs, ps, old(restarts), Pair(key, value), p);
      }
      AppendEntry(key, value, prefixLen);
      estimate := estimate + (|buf| - currSz);
    }

    method Empty() returns (empty: bool)
      ensures empty <==> buf == []
    {
      empty := |buf| == 0;
    }

    method AppendRestarts()
      modifies `buf
      ensures buf == old(buf) + RestartBytes(restarts)
    {
      var i := 0;
      ghost var b0 := buf;
      while i < |restarts|
        invariant 0 <= i <= |restarts| && buf == b0 + RestartBytes(restarts[..i])
      {
        assert restarts[..i + 1][..i] == restarts[..i];
        Assoc(b0, RestartBytes(restarts[..i]), LE(restarts[i], 4));
        buf := buf + LE(restarts[i], 4);
        i := i + 1;
      }
      assert restarts[..|restarts|] == restarts;
    }

    /** The finished block, with restarts at entries with whole keys; the buffer is left with the restarts
        appended, to be reset. */
    method Finish(ghost pairs: seq<Pair>, ghost ps: seq<nat>) returns (content: Bytes)
      requires Holds(pairs, ps)
      modifies `buf
      ensures content == Content(Block(pairs, ps, restarts))
      ensures Restarted(pairs, ps) && pairs != [] ==>
        (|restarts| - 1) * restartInterval < |pairs| <= |restarts| * restartInterval
    {
      ghost var b0 := buf;
      RunsIs(|restarts| - 1, restartInterval);
      RunsIs(|restarts|, restartInterval);
      AppendRestarts();
      content := buf + LE(|restarts|, 4);
      Assoc(b0, RestartBytes(restarts), LE(|restarts|, 4));
    }

    /** The size of the block after one more pair, estimated. */
    method EstimateSizeAfterKV(key: Bytes, value: Bytes) returns (n: nat)
      ensures n == estimate + |key| + |value| + (if counter >= restartInterval then 16 else 12)
    {
      n := estimate + |key| + |value|;
      if counter >= restartInterval {
        n := n + 4;
      }
      n := n + 4 + 4 + 4;
    }
  }

  /** Any pairs put into a fresh builder: restarts only at whole keys, one for every `interval` entries. */
  method BuildBlock(interval: nat, pairs: seq<Pair>) returns (content: Bytes, ghost b: Block)
    requires interval >= 1 && forall i :: 0 <= i < |pairs| ==> PairFits(pairs[i])
    ensures b.pairs == pairs && Readable(b.pairs, b.ps) && content == Content(b)
    ensures RestartsWhole(b.pairs, b.ps, b.restarts) && |b.restarts| >= 1 && b.restarts[0] == 0
    ensures pairs != [] ==> (|b.restarts| - 1) * interval < |pairs| <= |b.restarts| * interval
  {
    var builder := new BlockBuilder(interval);
    ghost var ps := [];
    var i := 0;
    while i < |pairs|
      invariant 0 <= i <= |pairs| && fresh(builder) && builder.restartInterval == interval
      invariant builder.Holds(pairs[..i], ps) && builder.Restarted(pairs[..i], ps)
    {
      ghost var p := builder.Add(pairs[i].key, pairs[i].value, pairs[..i], ps);
      assert pairs[..i] + [Pair(pairs[i].key, pairs[i].value)] == pairs[..i + 1];
      ps := ps + [p];
      i := i + 1;
    }
    assert pairs[..|pairs|] == pairs;
    b := Block(pairs, ps, builder.restarts);
    content := builder.Finish(pairs, ps);
  }

  lemma Joins(b: Bytes, v1: Bytes, v2: Bytes, v3: Bytes, k: Bytes, v: Bytes)
    ensures b + v1 + v2 + v3 + k + v == b + (v1 + (v2 + (v3 + (k + v))))
  {
  }

  // The iterator

  method ReadVarint(data: Bytes, i: nat, ghost v: nat, ghost rest: Bytes) returns (w: nat, n: nat)
    requires i <= |data| && v < 0x1_0000_0000 && data[i..] == Varint(v) + rest
    ensures w == v && n > 0 && i + n <= |data| && data[i + n..] == rest
  {
    Pow128Values();
    VarintRoundTrip(v, rest, 5);
    TakeOff(data, i, Varint(v), rest);
    w, n := DecodeVarint32(data[i..]);
  }

  /** Rebuilds one entry from the key before it. */
  method ReadEntry(data: Bytes, i: nat, keyBuf: Bytes, ghost e: Pair, ghost p: nat, ghost rest: Bytes)
    returns (ok: bool, key: Bytes, value: Bytes, next: nat)
    requires i <= |data| && PairFits(e) && Shares(keyBuf, e.key, p) && data[i..] == EntryBytes(e, p) + rest
    ensures ok && key == e.key && value == e.value && i < next <= |data| && data[next..] == rest
  {
    ghost var suffix := e.key[p..];
    Peel(Varint(p), Varint(|e.key| - p), Varint(|e.value|), suffix, e.value, rest);
    key, value := keyBuf, [];
    var prefixLen, n := ReadVarint(data, i, p, Varint(|e.key| - p) + (Varint(|e.value|) + (suffix + (e.value + rest))));
    if n <= 0 {
      return false, key, value, i;
    }
    next := i + n;
    var keyLen, m := ReadVarint(data, next, |e.key| - p, Varint(|e.value|) + (suffix + (e.value + rest)));
    if m <= 0 {
      return false, key, value, i;
    }
    next := next + m;
    var valueLen, k := ReadVarint(data, next, |e.value|, suffix + (e.value + rest));
    if k <= 0 {
      return false, key, value, i;
    }
    next := next + k;
    TakeOff(data, next, suffix, e.value + rest);
    key := keyBuf[..prefixLen] + data[next..next + keyLen];
    next := next + keyLen;
    TakeOff(data, next, e.value, rest);
    value := data[next..next + valueLen];
    next := next + valueLen;
    ok := true;
  }

  lemma Peel(a: Bytes, b: Bytes, c: Bytes, d: Bytes, e: Bytes, rest: Bytes)
    ensures (a + (b + (c + (d + e)))) + rest == a + (b + (c + (d + (e + rest))))
  {
  }

  method WithoutRestarts(block: Bytes, ghost b: Block) returns (data: Bytes)
    requires GoodBlock(b) && block == Content(b)
    ensures data == BlockData(b.pairs, b.ps)
  {
    RestartsCut(b);
    var numRestarts := FromLE(block[|block| - 4..]);
    var restartsSz := (numRestarts * 4 + 4) % 0x1_0000_0000;
    data := block[..|block| - restartsSz];
  }

  class BlockIterator {
    var data: Bytes
    var cursor: nat
    var invalid: bool
    var keyBuf: Bytes
    var valueBuf: Bytes

    constructor ()
      ensures data == [] && cursor == 0 && !invalid
    {
      data, cursor, invalid, keyBuf, valueBuf := [], 0, false, [], [];
    }

    /** The cursor stands behind the first `n` pairs, the last of which is in the buffers. */
    ghost predicate At(b: Block, n: nat)
      reads this
    {
      && GoodBlock(b) && n <= |b.pairs| && cursor <= |data|
      && data == BlockData(b.pairs, b.ps)
      && data[cursor..] == BlockData(b.pairs[n..], b.ps[n..])
      && (n > 0 ==> keyBuf == b.pairs[n - 1].key && valueBuf == b.pairs[n - 1].value)
    }

    /** Cuts the restarts off a block and starts at its front. */
    method Reset(block: Bytes, ghost b: Block)
      requires GoodBlock(b) && block == Content(b)
      modifies this
      ensures At(b, 0) && !invalid
    {
      data := WithoutRestarts(block, b);
      cursor, invalid, keyBuf, valueBuf := 0, false, [], [];
      assert data[0..] == data && b.pairs[0..] == b.pairs && b.ps[0..] == b.ps;
    }

    /** Back to the front; the buffers keep the last pair read. */
    method Rewind(ghost b: Block, ghost n: nat)
      requires At(b, n)
      modifies `cursor
      ensures At(b, 0)
    {
      cursor := 0;
      assert data[0..] == data && b.pairs[0..] == b.pairs && b.ps[0..] == b.ps;
    }

    method End(ghost b: Block, ghost n: nat) returns (end: bool)
      requires At(b, n)
      ensures end <==> n == |b.pairs|
    {
      EndMeans(b, n, data, cursor);
      end := cursor == |data|;
    }

    /** The next pair into the buffers, or no longer valid at the end. */
    method Next(ghost b: Block, ghost n: nat)
      requires At(b, n)
      modifies this
      ensures n < |b.pairs| ==> At(b, n + 1) && invalid == old(invalid)
      ensures n == |b.pairs| ==> invalid && At(b, n)
    {
      var end := End(b, n);
      if end {
        invalid := true;
        return;
      }
      Following(b, n, data, cursor, keyBuf);
      var ok, key, value, next :=
        ReadEntry(data, cursor, keyBuf, b.pairs[n], b.ps[n], BlockData(b.pairs[n + 1..], b.ps[n + 1..]));
      invalid := invalid || !ok;
      if ok {
        keyBuf, valueBuf, cursor := key, value, next;
      }
    }
  }

  lemma RestartsCut(b: Block)
    requires GoodBlock(b)
    ensures var block, n := Content(b), |b.restarts|;
      && |block| >= 4 * n + 4
      && FromLE(block[|block| - 4..]) == n && (n * 4 + 4) % 0x1_0000_0000 == 4 * n + 4
      && block[..|block| - (4 * n + 4)] == BlockData(b.pairs, b.ps)
  {
    var block, n, d := Content(b), |b.restarts|, BlockData(b.pairs, b.ps);
    RestartBytesLength(b.restarts);
    assert |block| == |d| + 4 * n + 4;
    assert block[|block| - 4..] == LE(n, 4);
    Widths();
    LERoundTrip(n, 4);
  }

  lemma EndMeans(b: Block, n: nat, data: Bytes, cursor: nat)
    requires GoodBlock(b) && n <= |b.pairs| && cursor <= |data| && data[cursor..] == BlockData(b.pairs[n..], b.ps[n..])
    ensures cursor == |data| <==> n == |b.pairs|
  {
    if n < |b.pairs| {
      assert b.pairs[n..][0] == b.pairs[n];
      assert |EntryBytes(b.pairs[n], b.ps[n])| > 0;
    }
    assert |data[cursor..]| == |data| - cursor;
  }

  /** What the next entry is and how its key follows from the buffered one. */
  lemma Following(b: Block, n: nat, data: Bytes, cursor: nat, keyBuf: Bytes)
    requires GoodBlock(b) && n < |b.pairs| && cursor <= |data| && data[cursor..] == BlockData(b.pairs[n..], b.ps[n..])
    requires n > 0 ==> keyBuf == b.pairs[n - 1].key
    ensures Shares(keyBuf, b.pairs[n].key, b.ps[n]) && PairFits(b.pairs[n])
    ensures data[cursor..] == EntryBytes(b.pairs[n], b.ps[n]) + BlockData(b.pairs[n + 1..], b.ps[n + 1..])
  {
    assert ReadableAt(b.pairs, b.ps, n);
    assert b.pairs[n..][1..] == b.pairs[n + 1..] && b.ps[n..][1..] == b.ps[n + 1..];
  }
}
