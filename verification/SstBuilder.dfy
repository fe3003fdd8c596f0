/**
 Writing an SST file: the table builder (rocksdb/block_based_table_builder.go).
 */
module SstBuilder {
  import opened Bytes
  import opened Codec
  import opened SstCodec
  import opened SstBlock
  import opened SstTable

  /** Restart counts of a block are 32-bit numbers of four bytes each. */
  const MAX_PAIRS := 0x3fff_fffd

  /** A quarter of the largest file. */
  const MAX_DATA := 0x2000_0000_0000_0000

  /** Keys are below 2^32 bytes. */
  const MAX_INDEX_ENTRY := 0x1_0000_2000

  class TableBuilder {
    const opts: Options
    const dataBlock: BlockBuilder
    const indexBlock: BlockBuilder
    var out: Bytes
    var offset: nat
    var pendingHandle: Handle
    var lastKey: Bytes
    // What has been written, what waits in the two block builders.
    ghost var ws: seq<Written>
    ghost var pairs: seq<Pair>
    ghost var ps: seq<nat>
    ghost var index: seq<Pair>
    ghost var indexPs: seq<nat>

    constructor (opts: Options)
      requires opts.blockRestartInterval >= 1 && opts.indexRestartInterval >= 1
      ensures Valid() && Added() == [] && this.opts == opts && lastKey == []
      ensures fresh(dataBlock) && fresh(indexBlock)
    {
      this.opts := opts;
      dataBlock := new BlockBuilder(opts.blockRestartInterval);
      indexBlock := new BlockBuilder(opts.indexRestartInterval);
      out, offset, pendingHandle, lastKey := [], 0, Handle(0, 0), [];
      ws, pairs, ps, index, indexPs := [], [], [], [], [];
    }

    /** The pairs added so far. */
    ghost function Added(): seq<Pair>
      reads this
    {
      Flat(ws) + pairs
    }

    /** The parts that a flush and an index entry leave alone. */
    ghost predicate Sound()
      reads this, dataBlock, indexBlock
    {
      && opts.blockRestartInterval >= 1 && opts.indexRestartInterval >= 1 && dataBlock != indexBlock
      && dataBlock.restartInterval == opts.blockRestartInterval &&
        indexBlock.restartInterval == opts.indexRestartInterval
      && dataBlock.Holds(pairs, ps) && indexBlock.Holds(index, indexPs)
      && FileOk() && |lastKey| < 0x1_0000_0000 && Budget(index) <= |index| * MAX_INDEX_ENTRY
    }

    /** What the file holds. */
    ghost predicate FileOk()
      reads this
    {
      && offset == |out| <= MAX_FILE && AllWritten(out, opts, ws)
      && |ws| <= |Flat(ws)| && |out| <= Budget(Flat(ws))
    }

    ghost predicate Valid()
      reads this, dataBlock, indexBlock
    {
      Sound() && Indexes(index, ws) && (pairs == [] ==> ws == [])
    }

    /** Appends to the file; it fails at the largest file size. */
    method Append(b: Bytes) returns (err: bool)
      modifies `out
      ensures err <==> |old(out)| + |b| > MAX_FILE
      ensures out == if err then old(out) else old(out) + b
    {
      err := |out| + |b| > MAX_FILE;
      if !err {
        out := out + b;
      }
    }

    /** Contents, trailer and padding; the handle says where the contents are. */
    method WriteRawBlock(contents: Bytes, isDataBlock: bool) returns (fault: Fault, handle: Handle)
      requires offset == |out|
      modifies `out, `offset
      ensures old(out) <= out
      ensures var size := |old(out)| + |contents| + BLOCK_TRAILER_SIZE;
        fault == if isDataBlock && Unalignable(opts) && size <= MAX_FILE then Panic
                 else if size + PadOf(opts, |contents|, isDataBlock) > MAX_FILE then WriteError
                 else Fine
      ensures fault == Fine ==> offset == |out| <= MAX_FILE && StoredAt(out, opts, handle, contents)
      ensures fault == Fine ==>
        |out| == |old(out)| + |contents| + BLOCK_TRAILER_SIZE + PadOf(opts, |contents|, isDataBlock)
    {
      handle := Handle(offset, |contents|);
      ghost var o := out;
      var err := Append(contents);
      if err {
        return WriteError, handle;
      }
      err := Append(Trailer(opts, contents));
      if err {
        return WriteError, handle;
      }
      offset := offset + |contents| + BLOCK_TRAILER_SIZE;
      JustStored(o, opts, contents);
      fault := Fine;
      if opts.blockAlign && isDataBlock {
        fault := AppendPadding(|contents|, contents, handle);
      }
    }

    method AppendPadding(size: nat, ghost contents: Bytes, ghost handle: Handle) returns (fault: Fault)
      requires opts.blockAlign && offset == |out| <= MAX_FILE
      requires size == |contents| && StoredAt(out, opts, handle, contents)
      modifies `out, `offset
      ensures old(out) <= out
      ensures fault == if opts.blockSize <= 0 then Panic
                       else if |old(out)| + PadOf(opts, size, true) > MAX_FILE then WriteError
                       else Fine
      ensures fault == Fine ==> offset == |out| == |old(out)| + PadOf(opts, size, true) <= MAX_FILE
      ensures fault == Fine ==> StoredAt(out, opts, handle, contents)
    {
      var pad := Pad(Alignment(opts), size + BLOCK_TRAILER_SIZE);
      PadRange(Alignment(opts), size + BLOCK_TRAILER_SIZE);
      if pad < 0 {
        return Panic;
      }
      StoredExtends(out, Zeros(pad), opts, handle, contents);
      var err := Append(Zeros(pad));
      if err {
        return WriteError;
      }
      offset := offset + pad;
      fault := Fine;
    }

    /** Writes the waiting pairs as a block, if there are any; if blocks cannot be aligned this is a panic. */
    method Flush() returns (fault: Fault)
      requires Sound() && |Added()| <= MAX_PAIRS
      modifies this, dataBlock
      ensures fault == Fine ==>
        && Sound() && pairs == [] && Added() == old(Added())
        && index == old(index) && indexPs == old(indexPs) && lastKey == old(lastKey)
        && (if old(pairs) == [] then ws == old(ws)
           else |ws| == |old(ws)| + 1 && ws[..|old(ws)|] == old(ws) && ws[|old(ws)|].handle == pendingHandle)
      ensures fault == WriteError ==> Budget(old(Added())) > MAX_FILE
      ensures fault == Panic ==> Unalignable(opts) && old(pairs) != []
      ensures Unalignable(opts) && old(pairs) != [] ==> fault != Fine
    {
      BufEmpty(pairs, ps, dataBlock.buf);
      var empty := dataBlock.Empty();
      if empty {
        return Fine;
      }
      BudgetJoin(Flat(ws), pairs);
      ghost var b;
      fault, b := FlushBlock();
    }

    /** Moves the waiting pairs from their builder to the file. */
    method WriteDataBlock() returns (fault: Fault, ghost b: Block)
      requires dataBlock.Holds(pairs, ps) && 0 < |pairs| <= MAX_PAIRS && offset == |out|
      modifies `out, `offset, `pendingHandle, dataBlock
      ensures old(out) <= out && b.pairs == pairs
      ensures fault == WriteError ==> |old(out)| + Budget(pairs) > MAX_FILE
      ensures if Unalignable(opts) then fault != Fine else fault != Panic
      ensures fault == Fine ==> dataBlock.Holds([], []) && offset == |out| <= MAX_FILE
      ensures fault == Fine ==> |out| <= |old(out)| + Budget(pairs)
      ensures fault == Fine ==> GoodBlock(b) && StoredAt(out, opts, pendingHandle, Content(b))
    {
      b := Block(pairs, ps, dataBlock.restarts);
      ContentLength(b);
      var contents := dataBlock.Finish(pairs, ps);
      fault, pendingHandle := WriteRawBlock(contents, true);
      if fault == Fine {
        dataBlock.Reset();
      }
    }

    method FlushBlock() returns (fault: Fault, ghost b: Block)
      requires dataBlock.Holds(pairs, ps) && FileOk() && 0 < |pairs| <= MAX_PAIRS
      modifies `out, `offset, `pendingHandle, `ws, `pairs, `ps, dataBlock
      ensures fault == Fine ==> dataBlock.Holds([], []) && FileOk() && pairs == [] && ps == []
      ensures fault == Fine ==> Added() == old(Added()) && ws == old(ws) + [Written(b, pendingHandle)]
      ensures fault == WriteError ==> |old(out)| + Budget(old(pairs)) > MAX_FILE
      ensures if Unalignable(opts) then fault != Fine else fault != Panic
    {
      fault, b := WriteDataBlock();
      if fault != Fine {
        return;
      }
      OneMoreWritten(old(out), out, opts, ws, b, pendingHandle);
      ws, pairs, ps := ws + [Written(b, pendingHandle)], [], [];
    }

    /** Enters the block just written into the index. */
    method AddIndexEntry()
      requires Sound() && |Added()| <= MAX_PAIRS && pairs == []
      requires |ws| == |index| + 1 && Indexes(index, ws[..|index|]) && ws[|index|].handle == pendingHandle
      modifies indexBlock, `index, `indexPs
      ensures Sound() && Indexes(index, ws)
    {
      assert WrittenIn(out, opts, ws[|index|]);
      HandleShort(pendingHandle);
      BudgetJoin(index, [Pair(lastKey, HandleBytes(pendingHandle))]);
      BudgetOne(Pair(lastKey, HandleBytes(pendingHandle)));
      ghost var p := indexBlock.Add(lastKey, HandleBytes(pendingHandle), index, indexPs);
      index, indexPs := index + [Pair(lastKey, HandleBytes(pendingHandle))], indexPs + [p];
      forall i | 0 <= i < |ws| ensures index[i].value == HandleBytes(ws[i].handle) {
        if i < |ws| - 1 { assert ws[..|ws| - 1][i] == ws[i]; }
      }
    }

    /** Whether the block is full, or would be with one more pair. A block goes on only below the block size. */
    method ShouldFlush(key: Bytes, value: Bytes) returns (flush: bool)
      requires Sound()
      ensures flush ==> pairs != []
      ensures !flush ==> pairs == [] || |dataBlock.buf| < opts.blockSize
    {
      BufEmpty(pairs, ps, dataBlock.buf);
      var currSz := dataBlock.estimate;
      if currSz == 0 {
        return false;
      }
      if currSz >= opts.blockSize {
        return true;
      }
      var newEstimatedSz := dataBlock.EstimateSizeAfterKV(key, value);
      if opts.blockAlign {
        newEstimatedSz := newEstimatedSz + BLOCK_TRAILER_SIZE;
        return newEstimatedSz > opts.blockSize;
      }
      var limit := Quotient(opts.blockSize * (100 - opts.blockSizeDeviation) + 99, 100);
      return newEstimatedSz > opts.blockSize && currSz > limit;
    }

    method FlushIfFull(key: Bytes, value: Bytes) returns (fault: Fault)
      requires Valid() && |Added()| <= MAX_PAIRS
      modifies this, dataBlock, indexBlock
      ensures fault == Fine ==> Sound() && Indexes(index, ws) && Added() == old(Added()) && lastKey == old(lastKey)
      ensures fault == WriteError ==> Budget(old(Added())) > MAX_FILE
      ensures fault == Panic ==> Unalignable(opts) && old(pairs) != []
      ensures Unalignable(opts) && old(pairs) != [] ==> fault != Fine
    {
      var flush := ShouldFlush(key, value);
      if flush {
        fault := Flush();
        if fault != Fine {
          return;
        }
        AddIndexEntry();
      }
      fault := Fine;
    }

    method AddPair(key: Bytes, value: Bytes)
      requires Sound() && Indexes(index, ws) && PairFits(Pair(key, value))
      modifies `pairs, `ps, `lastKey, dataBlock
      ensures Valid() && lastKey == key && Added() == old(Added()) + [Pair(key, value)]
    {
      ghost var p := dataBlock.Add(key, value, pairs, ps);
      assert Flat(ws) + (pairs + [Pair(key, value)]) == Flat(ws) + pairs + [Pair(key, value)];
      pairs, ps := pairs + [Pair(key, value)], ps + [p];
      lastKey := key;
    }

    /** Adds a pair whose key is an internal key not before the last one. */
    method Add(key: Bytes, value: Bytes) returns (fault: Fault)
      requires Valid() && |Added()| < MAX_PAIRS && PairFits(Pair(key, value)) && |key| >= 8
      modifies this, dataBlock, indexBlock
      ensures Refused(old(lastKey), key) ==> fault == Panic
      ensures fault == Panic ==> Refused(old(lastKey), key) || (Unalignable(opts) && old(Added()) != [])
      ensures Unalignable(opts) && old(Added()) != [] ==> fault != Fine
      ensures fault == WriteError ==> Budget(old(Added())) > MAX_FILE
      ensures fault == Fine ==> Valid() && lastKey == key && Added() == old(Added()) + [Pair(key, value)]
    {
      if Refused(lastKey, key) {
        return Panic;
      }
      assert pairs == [] <==> Added() == [];
      fault := FlushIfFull(key, value);
      if fault == Fine {
        AddPair(key, value);
      }
    }

    /** The last block and its index entry. */
    method FinishData() returns (fault: Fault)
      requires Valid() && 0 < |Added()| <= MAX_PAIRS
      modifies this, dataBlock, indexBlock
      ensures fault == Fine ==> Sound() && Indexes(index, ws) && pairs == [] && Added() == old(Added()) && ws != []
      ensures fault == WriteError ==> Budget(old(Added())) > MAX_FILE
      ensures if Unalignable(opts) then fault != Fine else fault != Panic
    {
      assert pairs != [];
      fault := Flush();
      if fault != Fine {
        return;
      }
      BufEmpty(pairs, ps, dataBlock.buf);
      var empty := dataBlock.Empty();
      if empty {
        AddIndexEntry();
      }
    }

    /** The blocks after the data, of which reading only needs the index; their own contents are left open. */
    method WriteMetaBlocks(filter: seq<Bytes>, indexContents: Bytes, props: Bytes, metaIndex: Bytes)
      returns (fault: Fault, indexHandle: Handle, metaHandle: Handle)
      requires offset == |out| <= MAX_FILE && |filter| <= 1
      modifies `out, `offset
      ensures old(out) <= out && fault != Panic
      ensures fault == Fine ==>
        && offset == |out| <= MAX_FILE && StoredAt(out, opts, indexHandle, indexContents)
        && metaHandle.offset <= MAX_FILE && metaHandle.size <= MAX_FILE
        && |out| <= |old(out)| + OtherSize(filter, props, metaIndex) + |indexContents|
      ensures |old(out)| + OtherSize(filter, props, metaIndex) + |indexContents| <= MAX_FILE ==> fault == Fine
    {
      fault, indexHandle, metaHandle := Fine, Handle(0, 0), Handle(0, 0);
      if |filter| == 1 {
        fault, metaHandle := WriteRawBlock(filter[0], false);
        if fault != Fine {
          return;
        }
      }
      fault, indexHandle := WriteRawBlock(indexContents, false);
      if fault != Fine {
        return;
      }
      ghost var o := out;
      fault, metaHandle := WriteRawBlock(props, false);
      if fault != Fine {
        return;
      }
      fault, metaHandle := WriteRawBlock(metaIndex, false);
      if fault != Fine {
        return;
      }
      assert out == o + out[|o|..];
      StoredExtends(o, out[|o|..], opts, indexHandle, indexContents);
    }

    /** The finished index block. */
    method FinishIndex() returns (contents: Bytes, ghost b: Block)
      requires indexBlock.Holds(index, indexPs) && 0 < |index| <= MAX_PAIRS &&
        Budget(index) <= |index| * MAX_INDEX_ENTRY
      modifies indexBlock
      ensures b.pairs == index && GoodBlock(b) && contents == Content(b) && |contents| <= 2 * MAX_DATA + MAX_DATA / 2
    {
      b := Block(index, indexPs, indexBlock.restarts);
      ContentLength(b);
      assert |index| * MAX_INDEX_ENTRY <= MAX_PAIRS * MAX_INDEX_ENTRY;
      contents := indexBlock.Finish(index, indexPs);
    }

    method AppendFooter(metaHandle: Handle, indexHandle: Handle) returns (err: bool, ghost footer: Bytes)
      requires metaHandle.offset <= MAX_FILE && metaHandle.size <= MAX_FILE
      requires indexHandle.offset <= MAX_FILE && indexHandle.size <= MAX_FILE
      modifies `out, `offset
      ensures footer == FooterBytes(opts.checksum, metaHandle, indexHandle) && |footer| == FOOTER_LENGTH
      ensures err <==> |old(out)| + FOOTER_LENGTH > MAX_FILE
      ensures !err ==> out == old(out) + footer
    {
      var buf := [ChecksumByte(opts.checksum)] + (HandleBytes(metaHandle) + HandleBytes(indexHandle));
      FooterLength(opts.checksum, metaHandle, indexHandle);
      buf := buf + Zeros(FOOTER_LENGTH - 12 - |buf|);
      buf := buf + LE(2, 4) + LE(0x85f4cff7, 4) + LE(0x88e241b7, 4);
      footer := buf;
      err := Append(buf);
      if !err {
        offset := offset + |buf|;
      }
    }

    /** Closes the file; it is then a table of the pairs added. */
    method Finish(filter: seq<Bytes>, props: Bytes, metaIndex: Bytes) returns (fault: Fault, ghost t: Table)
      requires Valid() && 0 < |Added()| <= MAX_PAIRS && |filter| <= 1
      modifies this, dataBlock, indexBlock
      ensures fault == Fine ==> IsTable(out, opts, t) && Flat(t.ws) == old(Added())
      ensures if Unalignable(opts) then fault != Fine else fault != Panic
      ensures Budget(old(Added())) + OtherSize(filter, props, metaIndex) + 100 <= MAX_DATA ==> fault != WriteError
    {
      t := Table([], Block([], [], []), Handle(0, 0), Handle(0, 0));
      fault := FinishData();
      if fault != Fine {
        return;
      }
      assert Flat(ws) + [] == Flat(ws);
      fault, t := CloseFile(filter, props, metaIndex);
    }

    /** Everything behind the data blocks: the index, the other blocks and the footer. */
    method CloseFile(filter: seq<Bytes>, props: Bytes, metaIndex: Bytes) returns (fault: Fault, ghost t: Table)
      requires indexBlock.Holds(index, indexPs) && 0 < |index| <= MAX_PAIRS && |filter| <= 1
      requires Budget(index) <= |index| * MAX_INDEX_ENTRY && offset == |out| <= MAX_FILE
      requires AllWritten(out, opts, ws) && Indexes(index, ws) && ws != []
      modifies `out, `offset, indexBlock
      ensures fault == Fine ==> IsTable(out, opts, t) && t.ws == ws
      ensures fault != Panic
      ensures |old(out)| + OtherSize(filter, props, metaIndex) + 2 * MAX_DATA + MAX_DATA / 2 + FOOTER_LENGTH <= MAX_FILE
        ==> fault == Fine
    {
      t := Table([], Block([], [], []), Handle(0, 0), Handle(0, 0));
      ghost var o := out;
      ghost var b, footer;
      var indexContents, indexHandle, metaHandle, err;
      indexContents, b := FinishIndex();
      fault, indexHandle, metaHandle := WriteMetaBlocks(filter, indexContents, props, metaIndex);
      if fault != Fine {
        return;
      }
      ghost var o' := out;
      err, footer := AppendFooter(metaHandle, indexHandle);
      if err {
        return WriteError, t;
      }
      t := Table(ws, b, indexHandle, metaHandle);
      Closed(o, o', out, opts, t, footer);
    }
  }

  /** With the footer in place the file is a table. */
  lemma Closed(o: Bytes, o': Bytes, out: Bytes, opts: Options, t: Table, footer: Bytes)
    requires o <= o' && out == o' + footer && |out| <= MAX_FILE && t.ws != []
    requires AllWritten(o, opts, t.ws) && Indexes(t.index.pairs, t.ws)
    requires GoodBlock(t.index) && StoredAt(o', opts, t.indexHandle, Content(t.index))
    requires t.metaHandle.offset <= MAX_FILE && t.metaHandle.size <= MAX_FILE
    requires footer == FooterBytes(opts.checksum, t.metaHandle, t.indexHandle) && |footer| == FOOTER_LENGTH
    ensures IsTable(out, opts, t)
  {
    AllExtend(o, out, opts, t.ws);
    StoredExtends(o', footer, opts, t.indexHandle, Content(t.index));
  }

  /** The bytes of the other blocks, with trailers. */
  function OtherSize(filter: seq<Bytes>, props: Bytes, metaIndex: Bytes): nat {
    (if |filter| == 1 then |filter[0]| else 0) + |props| + |metaIndex| + 20
  }

  lemma OneMoreWritten(out: Bytes, out': Bytes, opts: Options, ws: seq<Written>, b: Block, h: Handle)
    requires AllWritten(out, opts, ws) && out <= out' && |ws| <= |Flat(ws)|
    requires GoodBlock(b) && b.pairs != [] && StoredAt(out', opts, h, Content(b))
    requires |out'| <= Budget(Flat(ws)) + Budget(b.pairs)
    ensures var ws' := ws + [Written(b, h)];
      && AllWritten(out', opts, ws') && Flat(ws') + [] == Flat(ws) + b.pairs && |ws'| <= |Flat(ws')|
      && |out'| <= Budget(Flat(ws'))
  {
    BudgetJoin(Flat(ws), b.pairs);
    AllExtend(out, out', opts, ws);
    FlatSnoc(ws, Written(b, h));
  }

  lemma BufEmpty(pairs: seq<Pair>, ps: seq<nat>, buf: Bytes)
    requires Prefixes(pairs, ps) && buf == BlockData(pairs, ps)
    ensures buf == [] <==> pairs == []
  {
    if pairs != [] { assert |EntryBytes(pairs[0], ps[0])| > 0; }
  }

  /** Division as Go does it, towards zero. */
  function Quotient(a: int, b: nat): int
    requires b > 0
  {
    if a < 0 then -(-a / b) else a / b
  }

  /** What the assertions on a key refuse: an unknown type, or an internal key before the last one. */
  predicate Refused(lastKey: Bytes, key: Bytes)
    requires |key| >= 8
  {
    DecodeKey(key).tp > 2 || !Follows(lastKey, key)
  }

  predicate Follows(lastKey: Bytes, key: Bytes)
    requires |key| >= 8
  {
    lastKey != [] ==> |lastKey| >= 8 && CompareInternalKey(lastKey, key) <= 0
  }

  /** By user key upwards, then by sequence number and type downwards. */
  function CompareInternalKey(a: Bytes, b: Bytes): int
    requires |a| >= 8 && |b| >= 8
  {
    var ka, kb := a[..|a| - 8], b[..|b| - 8];
    if Less(ka, kb) then -1
    else if ka != kb then 1
    else
      var na, nb := FromLE(a[|a| - 8..]), FromLE(b[|b| - 8..]);
      if na > nb then -1 else if na < nb then 1 else 0
  }

  lemma JustStored(o: Bytes, opts: Options, contents: Bytes)
    ensures StoredAt(o + contents + Trailer(opts, contents), opts, Handle(|o|, |contents|), contents)
  {
    var file := o + contents + Trailer(opts, contents);
    assert file[|o|..] == contents + Trailer(opts, contents);
    assert |o| + |contents| + BLOCK_TRAILER_SIZE == |file|;
  }
}
