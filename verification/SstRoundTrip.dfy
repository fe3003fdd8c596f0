/**
 The SST file writer (rocksdb/sst_file_writer.go), and the round trip: what it writes, the file
 iterator reads back, as often as it is asked to.
 */
module SstRoundTrip {
  import opened Bytes
  import opened Codec
  import opened SstCodec
  import opened SstBlock
  import opened SstTable
  import opened SstBuilder
  import opened SstIterator

  datatype Result = Ok | KeyOrder | Failed | Panicked

  /** A pair as `Put`, `Merge` and `Delete` take it. */
  datatype Record = Record(key: Bytes, value: Bytes, tp: ValueType)

  /** The bytes of a record in a file: the user key, the type, a sequence number of zero; and its value. */
  predicate Holds(p: Pair, r: Record) {
    && p.value == r.value
    && p.key == r.key + [match r.tp case TypeDeletion => 0 case TypeValue => 1 case TypeMerge => 2, 0, 0, 0, 0, 0, 0, 0]
  }

  function Stored(r: Record): Pair {
    Pair(KeyBytes(InternalKey(r.key, 0, TypeNumber(r.tp))), r.value)
  }

  lemma TypeBytes(n: byte)
    ensures LE(n, 8) == [n, 0, 0, 0, 0, 0, 0, 0]
  {
    SmallLE(n, 8);
    assert Zeros(7) == [0, 0, 0, 0, 0, 0, 0];
  }

  /** What the writer hands to the builder for a record. */
  lemma StoredHolds(r: Record)
    ensures Holds(Stored(r), r)
  {
    TypeBytes(TypeNumber(r.tp));
  }

  class SstFileWriter {
    const builder: TableBuilder
    var lastKey: Bytes

    constructor (opts: Options)
      requires opts.blockRestartInterval >= 1 && opts.indexRestartInterval >= 1
      ensures fresh(builder) && fresh(builder.dataBlock) && fresh(builder.indexBlock)
      ensures builder.Valid() && builder.opts == opts && KeysMatch()
      ensures builder.Added() == [] && builder.lastKey == [] && lastKey == []
    {
      builder := new TableBuilder(opts);
      lastKey := [];
    }

    /** The builder's last key is the internal form of the writer's. */
    ghost predicate KeysMatch()
      reads this, builder
    {
      if builder.lastKey == [] then lastKey == [] && builder.Added() == [] else IsInternal(builder.lastKey, lastKey)
    }

    /**
     Adds a pair under a key after the last one; another key is refused. Only a last key that is empty reads
     as none: a second empty key is then taken, or trips the builder's assertion if its type is the larger one.
     With blocks that cannot be aligned, every pair after the first is a panic.
     */
    method Add(key: Bytes, value: Bytes, tp: ValueType) returns (res: Result)
      requires builder.Valid() && KeysMatch() && |builder.Added()| < MAX_PAIRS
      requires |key| + 8 < 0x1_0000_0000 && |value| < 0x1_0000_0000
      modifies this, builder, builder.dataBlock, builder.indexBlock
      ensures res == KeyOrder <==> old(lastKey) != [] && !Less(old(lastKey), key)
      ensures Trips(old(builder.lastKey), old(lastKey), key, tp) ==> res == Panicked
      ensures res == Panicked ==>
        Trips(old(builder.lastKey), old(lastKey), key, tp) || (Unalignable(builder.opts) && old(builder.Added()) != [])
      ensures Unalignable(builder.opts) && old(builder.Added()) != [] ==> res != Ok
      ensures res == KeyOrder ==> builder.Valid() && builder.Added() == old(builder.Added()) && lastKey == old(lastKey)
      ensures res == Ok ==> builder.Valid() && lastKey == key && KeysMatch()
      ensures res == Ok ==> builder.Added() == old(builder.Added()) + [Stored(Record(key, value, tp))]
      ensures res == Failed ==> Budget(old(builder.Added())) > MAX_FILE
    {
      if lastKey != [] && !Less(lastKey, key) {
        return KeyOrder;
      }
      var fault := AddInternal(key, value, tp);
      if fault != Fine {
        return if fault == Panic then Panicked else Failed;
      }
      lastKey := key;
      return Ok;
    }

    /** Hands the internal form of a key to the builder. */
    method AddInternal(key: Bytes, value: Bytes, tp: ValueType) returns (fault: Fault)
      requires builder.Valid() && KeysMatch() && |builder.Added()| < MAX_PAIRS
      requires |key| + 8 < 0x1_0000_0000 && |value| < 0x1_0000_0000 && (lastKey == [] || Less(lastKey, key))
      modifies builder, builder.dataBlock, builder.indexBlock
      ensures Trips(old(builder.lastKey), lastKey, key, tp) ==> fault == Panic
      ensures fault == Panic ==>
        Trips(old(builder.lastKey), lastKey, key, tp) || (Unalignable(builder.opts) && old(builder.Added()) != [])
      ensures Unalignable(builder.opts) && old(builder.Added()) != [] ==> fault != Fine
      ensures fault == Fine ==> builder.Valid() && builder.lastKey != [] && IsInternal(builder.lastKey, key)
      ensures fault == Fine ==> builder.Added() == old(builder.Added()) + [Stored(Record(key, value, tp))]
      ensures fault == WriteError ==> Budget(old(builder.Added())) > MAX_FILE
    {
      var bytes := KeyBytes(InternalKey(key, 0, TypeNumber(tp)));
      NextKey(builder.lastKey, lastKey, key, tp, bytes);
      fault := builder.Add(bytes, value);
    }
  }

  /** `b` is an internal form of `key`, with sequence number zero. */
  predicate IsInternal(b: Bytes, key: Bytes) {
    |b| == |key| + 8 && b[..|key|] == key && FromLE(b[|key|..]) < 256
  }

  /** A second empty key whose type is larger than the first one's. */
  predicate Trips(last: Bytes, lastKey: Bytes, key: Bytes, tp: ValueType)
    requires last != [] ==> |last| >= 8
  {
    last != [] && lastKey == [] && key == [] && DecodeKey(last).tp < TypeNumber(tp)
  }

  lemma InternalOf(ikey: InternalKey)
    requires ikey.sequence == 0 && ikey.tp <= 2
    ensures var b := KeyBytes(ikey);
      IsInternal(b, ikey.userKey) && DecodeKey(b) == ikey && FromLE(b[|ikey.userKey|..]) == ikey.tp
  {
    KeyRoundTrip(ikey);
    var b := KeyBytes(ikey);
    assert b[..|b| - 8] == ikey.userKey && FromLE(b[|b| - 8..]) / 256 == 0;
  }

  /** The builder accepts the internal form of a later user key, and of a second empty one up to its type. */
  lemma WhenFollows(last: Bytes, lastKey: Bytes, b: Bytes, key: Bytes)
    requires lastKey == [] || Less(lastKey, key)
    requires IsInternal(b, key) && (last != [] ==> IsInternal(last, lastKey))
    ensures Follows(last, b) <==>
      !(last != [] && lastKey == [] && key == [] && DecodeKey(last).tp < DecodeKey(b).tp)
  {
    if last != [] {
      assert last[..|last| - 8] == lastKey && b[..|b| - 8] == key;
      LessIrreflexive(key);
    }
  }

  lemma NextKey(last: Bytes, lastKey: Bytes, key: Bytes, tp: ValueType, b: Bytes)
    requires (lastKey == [] || Less(lastKey, key)) && (last != [] ==> IsInternal(last, lastKey))
    requires b == KeyBytes(InternalKey(key, 0, TypeNumber(tp)))
    ensures IsInternal(b, key) && |b| >= 8
    ensures Refused(last, b) <==> Trips(last, lastKey, key, tp)
  {
    InternalOf(InternalKey(key, 0, TypeNumber(tp)));
    WhenFollows(last, lastKey, b, key);
  }

  ghost predicate Increasing(pairs: seq<Record>) {
    forall i, j {:trigger Less(pairs[i].key, pairs[j].key)} :: 0 <= i < j < |pairs| ==>
      Less(pairs[i].key, pairs[j].key)
  }

  ghost predicate SmallPairs(pairs: seq<Record>) {
    forall i :: 0 <= i < |pairs| ==> |pairs[i].key| + 8 < 0x1_0000_0000 && |pairs[i].value| < 0x1_0000_0000
  }

  function AllStored(pairs: seq<Record>): (r: seq<Pair>)
    ensures |r| == |pairs| && forall i :: 0 <= i < |r| ==> r[i] == Stored(pairs[i])
  {
    seq(|pairs|, i requires 0 <= i < |pairs| => Stored(pairs[i]))
  }

  lemma AllHold(pairs: seq<Record>)
    ensures forall i :: 0 <= i < |pairs| ==> Holds(AllStored(pairs)[i], pairs[i])
  {
    forall i | 0 <= i < |pairs| ensures Holds(AllStored(pairs)[i], pairs[i]) { StoredHolds(pairs[i]); }
  }

  /** A first record, or one under a later key, is taken. */
  method AddRecord(w: SstFileWriter, r: Record, ghost before: seq<Pair>) returns (res: Result)
    requires w.builder.Valid() && w.KeysMatch() && w.builder.Added() == before && |before| < MAX_PAIRS
    requires |r.key| + 8 < 0x1_0000_0000 && |r.value| < 0x1_0000_0000
    requires w.builder.lastKey == [] || Less(w.lastKey, r.key)
    modifies w, w.builder, w.builder.dataBlock, w.builder.indexBlock
    ensures res != KeyOrder && (res == Panicked ==> Unalignable(w.builder.opts))
    ensures res == Ok ==> w.builder.Valid() && w.KeysMatch() && w.lastKey == r.key
    ensures res == Ok ==> w.builder.Added() == before + [Stored(r)]
    ensures res == Failed ==> Budget(before) > MAX_FILE
  {
    res := w.Add(r.key, r.value, r.tp);
  }

  lemma StoredJoin(before: seq<Pair>, pairs: seq<Record>)
    requires pairs != []
    ensures (before + [Stored(pairs[0])]) + AllStored(pairs[1..]) == before + AllStored(pairs)
  {
  }

  lemma RestOf(pairs: seq<Record>)
    requires pairs != [] && Increasing(pairs) && SmallPairs(pairs)
    ensures Increasing(pairs[1..]) && SmallPairs(pairs[1..])
    ensures |pairs| > 1 ==> Less(pairs[0].key, pairs[1..][0].key)
  {
    if |pairs| > 1 { assert Less(pairs[0].key, pairs[1].key); }
    forall i, j | 0 <= i < j < |pairs[1..]| ensures Less(pairs[1..][i].key, pairs[1..][j].key) {
      assert Less(pairs[i + 1].key, pairs[j + 1].key);
    }
  }

  /** Adds the pairs behind those added before. */
  method AddAll(w: SstFileWriter, pairs: seq<Record>, ghost before: seq<Pair>) returns (res: Result)
    requires w.builder.Valid() && w.KeysMatch() && w.builder.Added() == before
    requires |before| + |pairs| <= MAX_PAIRS && Increasing(pairs) && SmallPairs(pairs)
    requires pairs != [] ==> w.builder.lastKey == [] || Less(w.lastKey, pairs[0].key)
    modifies w, w.builder, w.builder.dataBlock, w.builder.indexBlock
    ensures res != KeyOrder && (res == Panicked ==> Unalignable(w.builder.opts))
    ensures res == Ok ==> w.builder.Valid() && w.builder.Added() == before + AllStored(pairs)
    ensures res == Failed ==> Budget(before + AllStored(pairs)) > MAX_FILE
    decreases |pairs|
  {
    if |pairs| == 0 {
      assert before + AllStored(pairs) == before;
      return Ok;
    }
    res := AddRecord(w, pairs[0], before);
    if res != Ok {
      BudgetJoin(before, AllStored(pairs));
      return;
    }
    StoredJoin(before, pairs);
    RestOf(pairs);
    res := AddAll(w, pairs[1..], before + [Stored(pairs[0])]);
  }

  /** The pairs and the other blocks stay well below the largest file. */
  ghost predicate Affordable(pairs: seq<Record>, filter: seq<Bytes>, props: Bytes, metaIndex: Bytes) {
    Budget(AllStored(pairs)) + OtherSize(filter, props, metaIndex) + 100 <= MAX_DATA
  }

  /** Writes increasing pairs to a table. */
  method WriteAll(opts: Options, pairs: seq<Record>, filter: seq<Bytes>, props: Bytes, metaIndex: Bytes)
    returns (fault: Fault, file: Bytes, ghost t: Table)
    requires opts.blockRestartInterval >= 1 && opts.indexRestartInterval >= 1 && |filter| <= 1
    requires 0 < |pairs| <= MAX_PAIRS && Increasing(pairs) && SmallPairs(pairs)
    ensures fault == Fine ==> IsTable(file, opts, t) && Flat(t.ws) == AllStored(pairs)
    ensures if Unalignable(opts) then fault != Fine else fault != Panic
    ensures Affordable(pairs, filter, props, metaIndex) ==> fault != WriteError
  {
    file, t := [], Table([], Block([], [], []), Handle(0, 0), Handle(0, 0));
    var w := new SstFileWriter(opts);
    var res := AddAll(w, pairs, []);
    assert [] + AllStored(pairs) == AllStored(pairs);
    if res != Ok {
      fault := if res == Panicked then Panic else WriteError;
      return;
    }
    fault, t := w.builder.Finish(filter, props, metaIndex);
    file := w.builder.out;
  }

  /**
   For increasing pairs, every block size, alignment and restart interval: unless the file would grow past
   the largest file size, reading it back gives exactly those pairs in order, ends without an error,
   and does so again. The one exception are blocks aligned to a block size that is not positive, where writing
   panics.
   */
  method RoundTrip(opts: Options, pairs: seq<Record>, filter: seq<Bytes>, props: Bytes, metaIndex: Bytes)
    returns (fault: Fault, first: seq<Pair>, second: seq<Pair>, e: Error)
    requires opts.blockRestartInterval >= 1 && opts.indexRestartInterval >= 1 && |filter| <= 1
    requires 0 < |pairs| <= MAX_PAIRS && Increasing(pairs) && SmallPairs(pairs)
    ensures fault == Fine ==> e == NoError && first == second && |first| == |pairs|
    ensures fault == Fine ==> forall i :: 0 <= i < |pairs| ==> Holds(first[i], pairs[i])
    ensures if Unalignable(opts) then fault != Fine else fault != Panic
    ensures Affordable(pairs, filter, props, metaIndex) ==> fault == if Unalignable(opts) then Panic else Fine
  {
    first, second, e := [], [], NoError;
    var file;
    ghost var t;
    fault, file, t := WriteAll(opts, pairs, filter, props, metaIndex);
    if fault != Fine {
      return;
    }
    var it := new SstFileIterator(file, opts);
    e := it.LoadIndexBlock(t);
    if e == NoError {
      first := ReadAll(it, t, 0);
      second := ReadAll(it, t, |t.ws|);
      e := it.err;
      AllHold(pairs);
    }
  }

  /** What a stored key decodes to. */
  lemma StoredKeyReads(r: Record)
    ensures |Stored(r).key| >= 8 && DecodeKey(Stored(r).key) == InternalKey(r.key, 0, TypeNumber(r.tp))
  {
    KeyRoundTrip(InternalKey(r.key, 0, TypeNumber(r.tp)));
  }
}
