/**
 Reading an SST file from the first pair on (rocksdb/sst_file_iterator.go), and the round trip from
 the writer to the reader.
 */
module SstIterator {
  import opened Bytes
  import opened Codec
  import opened SstCodec
  import opened SstBlock
  import opened SstTable

  datatype Error = NoError | EndOfBlock | ReadError | ChecksumMismatch | MagicNumberMismatch | Compressed

  /** Reads `size` bytes at an offset, or fails at the end of the file. */
  method ReadAt(file: Bytes, offset: int, size: nat) returns (err: Error, data: Bytes)
    ensures 0 <= offset && offset + size <= |file| ==> err == NoError && data == file[offset..offset + size]
    ensures !(0 <= offset && offset + size <= |file|) ==> err == ReadError
  {
    if 0 <= offset && offset + size <= |file| {
      return NoError, file[offset..offset + size];
    }
    return ReadError, [];
  }

  /** The checksum in the trailer is the one of the bytes before it. */
  predicate SumMatches(crc: Bytes -> nat, raw: Bytes)
    requires |raw| >= BLOCK_TRAILER_SIZE
  {
    FromLEBelow(raw[|raw| - 4..]);
    UnmaskCrc32(FromLE(raw[|raw| - 4..])) == CrcOf(crc, raw[..|raw| - 4])
  }

  lemma FromLEBelow(b: Bytes)
    requires |b| == 4
    ensures FromLE(b) < 0x1_0000_0000
  {
    Widths();
  }

  /** Checks the trailer of any block and takes it off; a compressed block is left to others. */
  method DecompressBlock(opts: Options, checksumType: Checksum, raw: Bytes) returns (err: Error, data: Bytes)
    requires |raw| >= BLOCK_TRAILER_SIZE
    ensures err == ChecksumMismatch <==> checksumType == ChecksumCRC32 && !SumMatches(opts.crc, raw)
    ensures err != ChecksumMismatch ==> err == (if raw[|raw| - 5] == 0 then NoError else Compressed)
    ensures err == NoError ==> data == raw[..|raw| - 5]
  {
    var trailerPos := |raw| - BLOCK_TRAILER_SIZE;
    data := raw[..trailerPos];
    err := if raw[trailerPos] == 0 then NoError else Compressed;
    if checksumType == ChecksumCRC32 {
      FromLEBelow(raw[trailerPos + 1..]);
      var sum := CrcOf(opts.crc, raw[..trailerPos + 1]);
      var expected := UnmaskCrc32(FromLE(raw[trailerPos + 1..]));
      if expected != sum {
        err := ChecksumMismatch;
      }
    }
  }

  lemma TrailerReads(opts: Options, content: Bytes, raw: Bytes)
    requires raw == content + Trailer(opts, content)
    ensures |raw| == |content| + 5 && raw[..|content|] == content && raw[|content|] == 0
    ensures opts.checksum == ChecksumCRC32 ==> SumMatches(opts.crc, raw)
  {
    Widths();
    var sum := CrcOf(opts.crc, content + [0]);
    var field := if opts.checksum == ChecksumNone then 0 else MaskCrc32(sum);
    assert raw[|content| + 1..] == LE(field, 4) && raw[..|content| + 1] == content + [0];
    LERoundTrip(field, 4);
    MaskRoundTrip(sum);
  }

  lemma FooterSlices(c: Bytes, m: Bytes, x: Bytes, z: Bytes, v: Bytes, lo: Bytes, hi: Bytes)
    requires |c| == 1 && |m| + |x| + |z| == 40 && |v| == |lo| == |hi| == 4
    ensures var f, tail := c + (m + x) + z + v + lo + hi, z + v + lo + hi;
      && |f| == 53 && f[0] == c[0] && f[45..49] == lo && f[49..53] == hi
      && f[1..] == m + (x + tail) && f[1 + |m|..] == x + tail
  {
  }

  /** The two handles of a footer, with whatever follows them. */
  lemma FooterHandles(c: Checksum, meta: Handle, index: Handle, f: Bytes)
    requires meta.offset <= MAX_FILE && meta.size <= MAX_FILE && index.offset <= MAX_FILE && index.size <= MAX_FILE
    requires f == FooterBytes(c, meta, index)
    ensures |f| == FOOTER_LENGTH && f[0] == ChecksumByte(c)
    ensures DecodeHandle(f[1..]) == (meta, |HandleBytes(meta)|)
    ensures 1 + |HandleBytes(meta)| <= |f| && DecodeHandle(f[1 + |HandleBytes(meta)|..]).0 == index
  {
    HandleShort(meta);
    HandleShort(index);
    var m, x := HandleBytes(meta), HandleBytes(index);
    var z, v, lo, hi := Zeros(40 - |m + x|), LE(2, 4), LE(0x85f4cff7, 4), LE(0x88e241b7, 4);
    FooterSlices([ChecksumByte(c)], m, x, z, v, lo, hi);
    HandleRoundTrip(meta, x + (z + v + lo + hi));
    HandleRoundTrip(index, z + v + lo + hi);
  }

  lemma FooterMagic(c: Checksum, meta: Handle, index: Handle, f: Bytes)
    requires meta.offset <= MAX_FILE && meta.size <= MAX_FILE && index.offset <= MAX_FILE && index.size <= MAX_FILE
    requires f == FooterBytes(c, meta, index)
    ensures |f| == FOOTER_LENGTH && HasMagic(f)
  {
    HandleShort(meta);
    HandleShort(index);
    var m, x := HandleBytes(meta), HandleBytes(index);
    FooterSlices([ChecksumByte(c)], m, x, Zeros(40 - |m + x|), LE(2, 4), LE(0x85f4cff7, 4), LE(0x88e241b7, 4));
    Widths();
    LERoundTrip(0x85f4cff7, 4);
    LERoundTrip(0x88e241b7, 4);
  }

  /** `checkMagicNumber`. */
  predicate HasMagic(footer: Bytes)
    requires |footer| == FOOTER_LENGTH
  {
    FromLE(footer[45..49]) == 0x85f4cff7 && FromLE(footer[49..53]) == 0x88e241b7
  }

  class SstFileIterator {
    const file: Bytes
    const opts: Options
    const indexBlockIter: BlockIterator
    const dataBlockIter: BlockIterator
    var invalid: bool
    var err: Error
    var checksumType: Checksum

    /** Of `opts` only the checksum function is used; the checksum type comes from the footer. */
    constructor (file: Bytes, opts: Options)
      ensures this.file == file && this.opts == opts && fresh(indexBlockIter) && fresh(dataBlockIter)
      ensures indexBlockIter != dataBlockIter && !invalid && err == NoError
    {
      this.file, this.opts := file, opts;
      indexBlockIter := new BlockIterator();
      dataBlockIter := new BlockIterator();
      invalid, err, checksumType := false, NoError, ChecksumNone;
    }

    /** Some index entries have been read, and no error met. */
    ghost predicate Open(t: Table, m: nat)
      reads this, indexBlockIter
    {
      && indexBlockIter != dataBlockIter
      && indexBlockIter.At(t.index, m) && err == NoError && checksumType == opts.checksum
    }

    /** The iterator stands on the `n`-th pair of block `j`, counted from one. */
    ghost predicate On(t: Table, j: nat, n: nat)
      reads this, indexBlockIter, dataBlockIter
    {
      && j < |t.ws| && Open(t, j + 1) && n <= |t.ws[j].block.pairs|
      && dataBlockIter.At(t.ws[j].block, n)
    }

    method LoadBlock(h: Handle, ghost content: Bytes) returns (e: Error, data: Bytes)
      requires StoredAt(file, opts, h, content) && checksumType == opts.checksum
      ensures e == NoError && data == content
    {
      var raw;
      e, raw := ReadAt(file, h.offset, h.size + BLOCK_TRAILER_SIZE);
      if e != NoError {
        return e, [];
      }
      TrailerReads(opts, content, raw);
      e, data := DecompressBlock(opts, checksumType, raw);
    }

    /** The footer of any file, if the file has one with the magic number, and the checksum type it names. */
    method LoadFooter() returns (e: Error, footer: Bytes)
      modifies `checksumType
      ensures e ==
        if |file| < FOOTER_LENGTH then ReadError
        else if !HasMagic(file[|file| - FOOTER_LENGTH..]) then MagicNumberMismatch
        else NoError
      ensures e == NoError ==> footer == file[|file| - FOOTER_LENGTH..]
      ensures e == NoError && footer[0] <= 1 ==> footer[0] == ChecksumByte(checksumType)
    {
      e, footer := ReadAt(file, |file| - FOOTER_LENGTH, FOOTER_LENGTH);
      if e != NoError {
        return e, [];
      }
      assert footer == file[|file| - FOOTER_LENGTH..];
      if !HasMagic(footer) {
        return MagicNumberMismatch, [];
      }
      checksumType := if footer[0] == 0 then ChecksumNone else ChecksumCRC32;
    }

    method GetIndexBlockHandle(ghost t: Table) returns (e: Error, handle: Handle)
      requires IsTable(file, opts, t)
      modifies `checksumType
      ensures e == NoError && handle == t.indexHandle && checksumType == opts.checksum
    {
      handle := Handle(0, 0);
      var footer;
      FooterMagic(opts.checksum, t.metaHandle, t.indexHandle, file[|file| - FOOTER_LENGTH..]);
      FooterHandles(opts.checksum, t.metaHandle, t.indexHandle, file[|file| - FOOTER_LENGTH..]);
      e, footer := LoadFooter();
      if e != NoError {
        return;
      }
      var n := DecodeHandle(footer[1..]).1;
      handle := DecodeHandle(footer[1 + n..]).0;
    }

    /** Reads the footer and the index block. */
    method LoadIndexBlock(ghost t: Table) returns (e: Error)
      requires IsTable(file, opts, t) && indexBlockIter != dataBlockIter && err == NoError
      modifies indexBlockIter, `checksumType
      ensures e == NoError && Open(t, 0)
    {
      var handle, data;
      e, handle := GetIndexBlockHandle(t);
      if e != NoError {
        return;
      }
      e, data := LoadBlock(handle, Content(t.index));
      if e == NoError {
        indexBlockIter.Reset(data, t.index);
      }
    }

    /** The next data block, or the end of the index. */
    method LoadNextDataBlk(ghost t: Table, ghost j: nat) returns (e: Error)
      requires Listed(file, opts, t) && Open(t, j)
      modifies indexBlockIter, dataBlockIter
      ensures j < |t.ws| ==> e == NoError && On(t, j, 0)
      ensures j == |t.ws| ==> e == EndOfBlock && Open(t, j) && unchanged(dataBlockIter)
    {
      var end := indexBlockIter.End(t.index, j);
      if end {
        return EndOfBlock;
      }
      indexBlockIter.Next(t.index, j);
      HandleOf(file, opts, t, j);
      var handle := DecodeHandle(indexBlockIter.valueBuf).0;
      var data;
      e, data := LoadBlock(handle, Content(t.ws[j].block));
      if e == NoError {
        dataBlockIter.Reset(data, t.ws[j].block);
      }
    }

    /** Loads the next data block and takes note if there is none. */
    method LoadOrEnd(ghost t: Table, ghost j: nat) returns (failed: bool)
      requires Listed(file, opts, t) && Open(t, j)
      modifies this, indexBlockIter, dataBlockIter
      ensures failed <==> j == |t.ws|
      ensures !failed ==> On(t, j, 0) && invalid == old(invalid)
      ensures failed ==> Open(t, j) && invalid && unchanged(dataBlockIter)
    {
      var e := LoadNextDataBlk(t, j);
      failed := SetErr(e);
    }

    /** To the first pair of the file. */
    method SeekToFirst(ghost t: Table, ghost m: nat)
      requires Listed(file, opts, t) && Open(t, m)
      modifies this, indexBlockIter, dataBlockIter
      ensures On(t, 0, 1) && !invalid
    {
      indexBlockIter.Rewind(t.index, m);
      invalid := false;
      var failed := LoadOrEnd(t, 0);
      if failed {
        return;
      }
      NotEmpty(file, opts, t, 0);
      Next(t, 0, 0);
    }

    /** To the next pair, in this block or at the start of the next one; past the last the iterator is invalid. */
    method Next(ghost t: Table, ghost j: nat, ghost n: nat)
      requires Listed(file, opts, t) && On(t, j, n) && !invalid
      modifies this, indexBlockIter, dataBlockIter
      ensures n < |t.ws[j].block.pairs| ==> On(t, j, n + 1) && !invalid
      ensures n == |t.ws[j].block.pairs| && j + 1 < |t.ws| ==> On(t, j + 1, 1) && !invalid
      ensures n == |t.ws[j].block.pairs| && j + 1 == |t.ws| ==> On(t, j, n) && invalid
    {
      ghost var j', n' := j, n;
      var end := dataBlockIter.End(t.ws[j].block, n);
      if end {
        var failed := LoadOrEnd(t, j + 1);
        if failed {
          return;
        }
        j', n' := j + 1, 0;
        NotEmpty(file, opts, t, j + 1);
      }
      dataBlockIter.Next(t.ws[j'].block, n');
    }

    /** Takes note of an error, if there is one; the end of the blocks is not reported. */
    method SetErr(e: Error) returns (failed: bool)
      modifies `err, `invalid
      ensures failed <==> e != NoError
      ensures invalid == (old(invalid) || failed)
      ensures err == if failed && e != EndOfBlock then e else old(err)
    {
      failed := e != NoError;
      if failed {
        if e != EndOfBlock {
          err := e;
        }
        invalid := true;
      }
    }
  }

  lemma NotEmpty(file: Bytes, opts: Options, t: Table, j: nat)
    requires Listed(file, opts, t) && j < |t.ws|
    ensures t.ws[j].block.pairs != []
  {
    assert WrittenIn(file, opts, t.ws[j]);
  }

  /** The handle of a data block, read back from its index entry. */
  lemma HandleOf(file: Bytes, opts: Options, t: Table, j: nat)
    requires Listed(file, opts, t) && j < |t.ws|
    ensures DecodeHandle(t.index.pairs[j].value).0 == t.ws[j].handle
    ensures WrittenIn(file, opts, t.ws[j])
  {
    assert WrittenIn(file, opts, t.ws[j]);
    var h := t.ws[j].handle;
    assert HandleBytes(h) + [] == HandleBytes(h);
    HandleRoundTrip(h, []);
  }

  // Reading a whole file

  /** The pairs up to the `n`-th of block `j`. */
  ghost function Upto(t: Table, j: nat, n: nat): seq<Pair>
    requires j < |t.ws| && n <= |t.ws[j].block.pairs|
  {
    Flat(t.ws[..j]) + t.ws[j].block.pairs[..n]
  }

  lemma UptoNext(t: Table, j: nat, n: nat)
    requires j < |t.ws| && n < |t.ws[j].block.pairs|
    ensures Upto(t, j, n + 1) == Upto(t, j, n) + [t.ws[j].block.pairs[n]]
  {
  }

  lemma UptoBlock(t: Table, j: nat)
    requires j < |t.ws|
    ensures Upto(t, j, |t.ws[j].block.pairs|) == Flat(t.ws[..j + 1])
    ensures j + 1 < |t.ws| ==> Upto(t, j + 1, 0) == Flat(t.ws[..j + 1])
  {
    assert t.ws[..j + 1][..j] == t.ws[..j];
  }

  lemma {:induction false} FlatLonger(ws: seq<Written>, j: nat)
    requires j <= |ws|
    ensures |Flat(ws[..j])| <= |Flat(ws)|
    decreases |ws| - j
  {
    if j < |ws| {
      FlatLonger(ws, j + 1);
      assert ws[..j + 1][..j] == ws[..j];
    } else {
      assert ws[..j] == ws;
    }
  }

  /** With one pair more, the collection matches the place that `Next` leads to. */
  lemma OneMore(t: Table, j: nat, n: nat, got: seq<Pair>, got': seq<Pair>)
    requires j < |t.ws| && 1 <= n <= |t.ws[j].block.pairs| && got == Upto(t, j, n - 1)
    requires got' == got + [t.ws[j].block.pairs[n - 1]]
    ensures got' == Upto(t, j, n) && |got'| <= |Flat(t.ws)|
    ensures n == |t.ws[j].block.pairs| && j + 1 < |t.ws| ==> got' == Upto(t, j + 1, 0)
    ensures n == |t.ws[j].block.pairs| && j + 1 == |t.ws| ==> got' == Flat(t.ws)
  {
    UptoNext(t, j, n - 1);
    UptoBlock(t, j);
    FlatLonger(t.ws, j + 1);
    if j + 1 == |t.ws| { assert t.ws[..j + 1] == t.ws; }
  }

  /** Takes the current pair and moves on. */
  method TakeOne(it: SstFileIterator, ghost t: Table, ghost j: nat, ghost n: nat, got: seq<Pair>)
    returns (got': seq<Pair>, ghost j': nat, ghost n': nat)
    requires Listed(it.file, it.opts, t) && it.On(t, j, n) && !it.invalid && n >= 1 && got == Upto(t, j, n - 1)
    modifies it, it.indexBlockIter, it.dataBlockIter
    ensures it.On(t, j', n') && |got| < |got'| <= |Flat(t.ws)|
    ensures if it.invalid then j' + 1 == |t.ws| && got' == Flat(t.ws) else n' >= 1 && got' == Upto(t, j', n' - 1)
  {
    got' := got + [Pair(it.dataBlockIter.keyBuf, it.dataBlockIter.valueBuf)];
    OneMore(t, j, n, got, got');
    it.Next(t, j, n);
    j', n' := j, n;
    if n < |t.ws[j].block.pairs| {
      n' := n + 1;
    } else if j + 1 < |t.ws| {
      j', n' := j + 1, 1;
    }
  }

  /** From `SeekToFirst` on: every pair of the table in order, then invalid without an error, ready to seek again. */
  method ReadAll(it: SstFileIterator, ghost t: Table, ghost m: nat) returns (got: seq<Pair>)
    requires Listed(it.file, it.opts, t) && it.Open(t, m)
    modifies it, it.indexBlockIter, it.dataBlockIter
    ensures got == Flat(t.ws) && it.invalid && it.Open(t, |t.ws|)
  {
    it.SeekToFirst(t, m);
    got := [];
    ghost var j: nat, n: nat := 0, 1;
    FirstPair(it.file, it.opts, t);
    while !it.invalid
      invariant it.On(t, j, n) && |got| <= |Flat(t.ws)|
      invariant if it.invalid then j + 1 == |t.ws| && got == Flat(t.ws) else n >= 1 && got == Upto(t, j, n - 1)
      decreases |Flat(t.ws)| - |got|, !it.invalid
    {
      got, j, n := TakeOne(it, t, j, n, got);
    }
  }

  lemma FirstPair(file: Bytes, opts: Options, t: Table)
    requires Listed(file, opts, t)
    ensures t.ws[0].block.pairs != [] && Upto(t, 0, 0) == []
  {
    NotEmpty(file, opts, t, 0);
    assert t.ws[..0] == [];
  }
}
