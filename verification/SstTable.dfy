/**
 A whole SST file: data blocks, meta blocks, an index block of handles, and a footer
 (rocksdb/block_based_table_builder.go), and what it takes for a file to be readable as one.
 */
module SstTable {
  import opened Bytes
  import opened Bits
  import opened Codec
  import opened SstCodec
  import opened SstBlock

  datatype Checksum = ChecksumNone | ChecksumCRC32

  /** `crc` is the checksum function. */
  datatype Options = Options(
    blockSize: int,
    blockSizeDeviation: int,
    blockRestartInterval: nat,
    indexRestartInterval: nat,
    blockAlign: bool,
    checksum: Checksum,
    crc: Bytes -> nat
  )

  /** How a call ends that writes to the file. */
  datatype Fault = Fine | WriteError | Panic

  const BLOCK_TRAILER_SIZE := 5
  const FOOTER_LENGTH := 53
  const MAX_FILE := 0x7fff_ffff_ffff_ffff

  function CrcOf(crc: Bytes -> nat, data: Bytes): (c: nat)
    ensures c < 0x1_0000_0000
  {
    crc(data) % 0x1_0000_0000
  }

  /** The compression type, which is none, and the checksum over the contents and that byte. */
  function Trailer(opts: Options, content: Bytes): (t: Bytes)
    ensures |t| == BLOCK_TRAILER_SIZE
  {
    [0] + LE(if opts.checksum == ChecksumNone then 0 else MaskCrc32(CrcOf(opts.crc, content + [0])), 4)
  }

  function ChecksumByte(c: Checksum): byte {
    if c == ChecksumNone then 0 else 1
  }

  /** Checksum type, the handles of the meta index and of the index, padding, version 2, magic number. */
  function FooterBytes(c: Checksum, meta: Handle, index: Handle): Bytes {
    var handles := HandleBytes(meta) + HandleBytes(index);
    [ChecksumByte(c)] + handles + Zeros(if |handles| <= 40 then 40 - |handles| else 0)
    + LE(2, 4) + LE(0x85f4cff7, 4) + LE(0x88e241b7, 4)
  }

  /** A file ends with version 2 and the magic number of block-based tables. */
  lemma FooterEnds(c: Checksum, meta: Handle, index: Handle)
    requires |HandleBytes(meta) + HandleBytes(index)| <= 40
    ensures FooterBytes(c, meta, index)[41..] == [2, 0, 0, 0] + [0xf7, 0xcf, 0xf4, 0x85] + [0xb7, 0x41, 0xe2, 0x88]
  {
    var handles, version, low, high := HandleBytes(meta) + HandleBytes(index), LE(2, 4),
      LE(0x85f4cff7, 4), LE(0x88e241b7, 4);
    Behind([ChecksumByte(c)] + handles + Zeros(40 - |handles|), version, low, high);
    MagicBytes(version, low, high);
  }

  lemma Behind(front: Bytes, x: Bytes, y: Bytes, z: Bytes)
    ensures (front + x + y + z)[|front|..] == x + y + z
  {
  }

  lemma MagicBytes(version: Bytes, low: Bytes, high: Bytes)
    requires version == LE(2, 4) && low == LE(0x85f4cff7, 4) && high == LE(0x88e241b7, 4)
    ensures version == [2, 0, 0, 0] && low == [0xf7, 0xcf, 0xf4, 0x85] && high == [0xb7, 0x41, 0xe2, 0x88]
  {
    FourBytes(2);
    FourBytes(0x85f4cff7);
    FourBytes(0x88e241b7);
  }

  lemma FourBytes(n: nat)
    ensures LE(n, 4) == [n % 256, n / 256 % 256, n / 256 / 256 % 256, n / 256 / 256 / 256 % 256]
  {
    assert LE(n / 256 / 256 / 256, 1) == [n / 256 / 256 / 256 % 256];
    assert LE(n / 256 / 256, 2) == [n / 256 / 256 % 256] + LE(n / 256 / 256 / 256, 1);
    assert LE(n / 256, 3) == [n / 256 % 256] + LE(n / 256 / 256, 2);
  }

  // Files

  ghost predicate StoredAt(file: Bytes, opts: Options, h: Handle, content: Bytes) {
    && h.size == |content| && h.offset + h.size + BLOCK_TRAILER_SIZE <= |file|
    && file[h.offset..h.offset + h.size + BLOCK_TRAILER_SIZE] == content + Trailer(opts, content)
  }

  datatype Written = Written(block: Block, handle: Handle)

  /** A data block that is in the file, holds something and can be read back. */
  ghost predicate WrittenIn(file: Bytes, opts: Options, w: Written) {
    GoodBlock(w.block) && w.block.pairs != [] && StoredAt(file, opts, w.handle, Content(w.block))
  }

  ghost predicate AllWritten(file: Bytes, opts: Options, ws: seq<Written>) {
    forall i {:trigger WrittenIn(file, opts, ws[i])} :: 0 <= i < |ws| ==> WrittenIn(file, opts, ws[i])
  }

  /** The index has one entry per block, with its handle. */
  ghost predicate Indexes(index: seq<Pair>, ws: seq<Written>) {
    |index| == |ws| && forall i :: 0 <= i < |ws| ==> index[i].value == HandleBytes(ws[i].handle)
  }

  ghost function Flat(ws: seq<Written>): seq<Pair>
    decreases |ws|
  {
    if ws == [] then [] else Flat(ws[..|ws| - 1]) + ws[|ws| - 1].block.pairs
  }

  datatype Table = Table(ws: seq<Written>, index: Block, indexHandle: Handle, metaHandle: Handle)

  /** The data blocks of a table are in the file, and its index lists them. */
  ghost predicate Listed(file: Bytes, opts: Options, t: Table) {
    && |file| <= MAX_FILE && t.ws != []
    && AllWritten(file, opts, t.ws) && Indexes(t.index.pairs, t.ws)
  }

  /** The file is a finished table. */
  ghost predicate IsTable(file: Bytes, opts: Options, t: Table) {
    && Listed(file, opts, t)
    && GoodBlock(t.index) && StoredAt(file, opts, t.indexHandle, Content(t.index))
    && t.metaHandle.offset <= MAX_FILE && t.metaHandle.size <= MAX_FILE
    && |file| >= FOOTER_LENGTH &&
      file[|file| - FOOTER_LENGTH..] == FooterBytes(opts.checksum, t.metaHandle, t.indexHandle)
  }

  // Appending keeps what is stored

  lemma StoredExtends(file: Bytes, more: Bytes, opts: Options, h: Handle, content: Bytes)
    requires StoredAt(file, opts, h, content)
    ensures StoredAt(file + more, opts, h, content)
  {
    var e := h.offset + h.size + BLOCK_TRAILER_SIZE;
    assert (file + more)[h.offset..e] == file[h.offset..e];
  }

  lemma AllExtend(file: Bytes, file': Bytes, opts: Options, ws: seq<Written>)
    requires AllWritten(file, opts, ws) && file <= file'
    ensures AllWritten(file', opts, ws)
  {
    var more := file'[|file|..];
    assert file' == file + more;
    forall i | 0 <= i < |ws| ensures WrittenIn(file', opts, ws[i]) {
      assert WrittenIn(file, opts, ws[i]);
      StoredExtends(file, more, opts, ws[i].handle, Content(ws[i].block));
    }
  }

  lemma HandleShort(h: Handle)
    requires h.offset <= MAX_FILE && h.size <= MAX_FILE
    ensures |HandleBytes(h)| <= 20
  {
    Pow128Values();
    VarintLength(h.offset, 10);
    VarintLength(h.size, 10);
  }

  lemma FooterLength(c: Checksum, meta: Handle, index: Handle)
    requires meta.offset <= MAX_FILE && meta.size <= MAX_FILE && index.offset <= MAX_FILE && index.size <= MAX_FILE
    ensures |FooterBytes(c, meta, index)| == FOOTER_LENGTH
  {
    HandleShort(meta);
    HandleShort(index);
  }

  lemma FlatSnoc(ws: seq<Written>, w: Written)
    ensures Flat(ws + [w]) == Flat(ws) + w.block.pairs
  {
    assert (ws + [w])[..|ws|] == ws;
  }

  // Padding

  /** The smaller of a page and a block. */
  function Alignment(opts: Options): int {
    if opts.blockSize < 4096 then opts.blockSize else 4096
  }

  /** The zeros asked for behind `n` bytes. */
  function Pad(alignment: int, n: nat): int {
    And(alignment - And(n, alignment - 1), alignment - 1)
  }

  /** Less than the alignment if that is positive, and otherwise a negative number. */
  lemma PadRange(alignment: int, n: nat)
    requires n > 0
    ensures if alignment > 0 then 0 <= Pad(alignment, n) < alignment else Pad(alignment, n) < 0
  {
    if alignment > 0 {
      AndBelow(alignment - And(n, alignment - 1), alignment - 1);
    } else {
      AndAtMost(n, alignment - 1);
      AndNegative(alignment - And(n, alignment - 1), alignment - 1);
    }
  }

  /** Padding reaches the next multiple of an alignment that is a power of two. */
  lemma PadAligns(k: nat, n: nat)
    ensures (n + Pad(Pow2(k), n)) % Pow2(k) == 0
  {
    PadRemainder(k, n);
    NextMultiple(n, Pow2(k));
  }

  lemma PadRemainder(k: nat, n: nat)
    ensures Pad(Pow2(k), n) == (Pow2(k) - n % Pow2(k)) % Pow2(k)
  {
    AndLowBits(n, k);
    AndLowBits(Pow2(k) - n % Pow2(k), k);
  }

  /** For another alignment it need not. */
  lemma PadMisses()
    ensures (5 + Pad(100, 5)) % 100 != 0
  {
    assert And(5, 99) == 1 by { assert And(2, 49) == 0 by { assert And(1, 24) == 0 by { assert And(0, 12) == 0; } } }
  }

  /** Blocks cannot be aligned to nothing: asking for a negative number of zeros panics. */
  predicate Unalignable(opts: Options) {
    opts.blockAlign && opts.blockSize <= 0
  }

  // How large a file can get

  function PadOf(opts: Options, size: nat, isDataBlock: bool): (n: nat)
    ensures n < 4096
  {
    if opts.blockAlign && isDataBlock && opts.blockSize > 0 then
      PadRange(Alignment(opts), size + BLOCK_TRAILER_SIZE);
      Pad(Alignment(opts), size + BLOCK_TRAILER_SIZE)
    else 0
  }

  /** More than the bytes that pairs take up in a file, whatever the options. */
  function Budget(pairs: seq<Pair>): nat
    decreases |pairs|
  {
    if pairs == [] then 0
    else Budget(pairs[..|pairs| - 1]) + |pairs[|pairs| - 1].key| + |pairs[|pairs| - 1].value| + 5000
  }

  lemma {:induction false} BudgetJoin(a: seq<Pair>, b: seq<Pair>)
    ensures Budget(a + b) == Budget(a) + Budget(b)
    decreases |b|
  {
    if b == [] {
      assert a + b == a;
    } else {
      BudgetJoin(a, b[..|b| - 1]);
      assert (a + b)[..|a + b| - 1] == a + b[..|b| - 1];
    }
  }

  lemma BudgetOne(e: Pair)
    ensures Budget([e]) == |e.key| + |e.value| + 5000
  {
    assert [e][..0] == [];
  }

  lemma EntryLength(e: Pair, p: nat)
    requires PairFits(e) && p <= |e.key|
    ensures |EntryBytes(e, p)| <= |e.key| + |e.value| + 15
  {
    Pow128Values();
    VarintLength(p, 5);
    VarintLength(|e.key| - p, 5);
    VarintLength(|e.value|, 5);
  }

  lemma {:induction false} BlockDataLength(pairs: seq<Pair>, ps: seq<nat>)
    requires Prefixes(pairs, ps) && forall i :: 0 <= i < |pairs| ==> PairFits(pairs[i])
    ensures |BlockData(pairs, ps)| + 4985 * |pairs| <= Budget(pairs)
    decreases |pairs|
  {
    if pairs != [] {
      EntryLength(pairs[0], ps[0]);
      BlockDataLength(pairs[1..], ps[1..]);
      BudgetOne(pairs[0]);
      BudgetJoin([pairs[0]], pairs[1..]);
      assert [pairs[0]] + pairs[1..] == pairs;
    }
  }

  /** A block with trailer and padding stays within the budget of its pairs. */
  lemma ContentLength(b: Block)
    requires Readable(b.pairs, b.ps) && b.pairs != [] && |b.restarts| <= |b.pairs| + 1
    ensures |Content(b)| + BLOCK_TRAILER_SIZE + 4096 <= Budget(b.pairs)
  {
    forall i | 0 <= i < |b.pairs| ensures PairFits(b.pairs[i]) {
      assert ReadableAt(b.pairs, b.ps, i);
    }
    BlockDataLength(b.pairs, b.ps);
    RestartBytesLength(b.restarts);
  }
}
