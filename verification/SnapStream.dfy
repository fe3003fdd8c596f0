/**
 The byte stream of a snapshot (raftstore/snap.go, raftstore/snapRunner.go): the sender reads
 its column family files one after the other, the stream is cut into chunks, and the receiver
 distributes the chunks over files of the announced sizes.
 */
module SnapStream {
  import opened Bytes

  // ---------------------------------------------------------------------------
  // Flattened lists of files
  // ---------------------------------------------------------------------------

  function Flatten(files: seq<seq<byte>>): seq<byte> {
    if files == [] then [] else Flatten(files[..|files| - 1]) + files[|files| - 1]
  }

  function Total(sizes: seq<nat>): nat {
    if sizes == [] then 0 else Total(sizes[..|sizes| - 1]) + sizes[|sizes| - 1]
  }

  ghost predicate Sized(files: seq<seq<byte>>, sizes: seq<nat>) {
    |files| == |sizes| && forall i :: 0 <= i < |files| ==> |files[i]| == sizes[i]
  }

  lemma {:induction false} FlattenLength(files: seq<seq<byte>>, sizes: seq<nat>)
    requires Sized(files, sizes)
    ensures |Flatten(files)| == Total(sizes)
  {
    if files != [] { FlattenLength(files[..|files| - 1], sizes[..|sizes| - 1]); }
  }

  lemma {:induction false} FlattenEmpty(files: seq<seq<byte>>)
    requires forall i :: 0 <= i < |files| ==> files[i] == []
    ensures Flatten(files) == []
  {
    if files != [] { FlattenEmpty(files[..|files| - 1]); }
  }

  /** Appending to a file behind which everything is empty appends to the stream. */
  lemma {:induction false} FlattenAppend(files: seq<seq<byte>>, k: nat, x: seq<byte>)
    requires k < |files| && forall i :: k < i < |files| ==> files[i] == []
    ensures Flatten(files[k := files[k] + x]) == Flatten(files) + x
  {
    var n := |files| - 1;
    if k < n {
      FlattenAppend(files[..n], k, x);
      assert files[k := files[k] + x][..n] == files[..n][k := files[k] + x];
    } else {
      assert files[k := files[k] + x][..n] == files[..n];
      assert Flatten(files[..n]) + (files[n] + x) == (Flatten(files[..n]) + files[n]) + x;
    }
  }

  lemma FlattenSnoc(files: seq<seq<byte>>, x: seq<byte>)
    ensures Flatten(files + [x]) == Flatten(files) + x
  {
    assert (files + [x])[..|files|] == files;
  }

  /** Dropping a prefix of the first non-empty file drops a prefix of the stream. */
  lemma {:induction false} FlattenDrop(files: seq<seq<byte>>, k: nat, n: nat)
    requires k < |files| && n <= |files[k]| && forall i :: 0 <= i < k ==> files[i] == []
    ensures n <= |Flatten(files)| && files[k][..n] == Flatten(files)[..n]
    ensures Flatten(files[k := files[k][n..]]) == Flatten(files)[n..]
  {
    var last := |files| - 1;
    if k < last {
      FlattenDrop(files[..last], k, n);
      assert files[k := files[k][n..]][..last] == files[..last][k := files[k][n..]];
    } else {
      FlattenEmpty(files[..last]);
      assert files[k := files[k][n..]][..last] == files[..last];
    }
  }

  /** The sizes of the files determine where the stream is cut. */
  lemma {:induction false} FlattenInjective(a: seq<seq<byte>>, b: seq<seq<byte>>, sizes: seq<nat>)
    requires Sized(a, sizes) && Sized(b, sizes) && Flatten(a) == Flatten(b)
    ensures a == b
  {
    if a != [] {
      var n := |a| - 1;
      FlattenLength(a[..n], sizes[..n]);
      FlattenLength(b[..n], sizes[..n]);
      assert Flatten(a)[..Total(sizes[..n])] == Flatten(a[..n]);
      assert Flatten(b)[..Total(sizes[..n])] == Flatten(b[..n]);
      assert Flatten(a)[Total(sizes[..n])..] == a[n];
      assert Flatten(b)[Total(sizes[..n])..] == b[n];
      FlattenInjective(a[..n], b[..n], sizes[..n]);
      assert a == a[..n] + [a[n]] && b == b[..n] + [b[n]];
    }
  }

  lemma Advance(received: seq<byte>, b: seq<byte>, taken: nat, k: nat)
    requires taken + k <= |b|
    ensures (received + b[..taken]) + b[taken..][..k] == received + b[..taken + k]
    ensures b[taken..][k..] == b[taken + k..]
    ensures taken + k == |b| ==> b[taken..][..k] == b[taken..]
  {
  }

  /** Filled front to back: full before `idx`, empty behind it. */
  ghost predicate FrontFilled(files: seq<seq<byte>>, sizes: seq<nat>, idx: nat) {
    && |files| == |sizes| && idx <= |files|
    && (forall i :: 0 <= i < idx ==> |files[i]| == sizes[i])
    && (idx < |files| ==> |files[idx]| <= sizes[idx])
    && (forall i :: idx < i < |files| ==> files[i] == [])
  }

  lemma {:induction false} FrontFilledLength(files: seq<seq<byte>>, sizes: seq<nat>, idx: nat)
    requires FrontFilled(files, sizes, idx)
    ensures |Flatten(files)| <= Total(sizes)
    ensures |Flatten(files)| == Total(sizes) ==> Sized(files, sizes)
  {
    if files != [] {
      var n := |files| - 1;
      FrontFilledLength(files[..n], sizes[..n], if idx <= n then idx else n);
    }
  }

  // ---------------------------------------------------------------------------
  // Files and snapshots
  // ---------------------------------------------------------------------------

  /** A column family file: `data` with the read position `pos`, and the receiver's counters. The
      running digest is the sequence of bytes fed to it. */
  datatype CFFile = CFFile(size: nat, checksum: nat, data: seq<byte>, pos: nat, writtenSize: nat,
    writeDigest: seq<byte>)

  function Contents(files: seq<CFFile>): (r: seq<seq<byte>>)
    ensures |r| == |files|
  {
    seq(|files|, i requires 0 <= i < |files| => files[i].data)
  }

  function Sizes(files: seq<CFFile>): (r: seq<nat>)
    ensures |r| == |files|
  {
    seq(|files|, i requires 0 <= i < |files| => files[i].size)
  }

  /** What every file still has to give. */
  function Unread(files: seq<CFFile>): (r: seq<seq<byte>>)
    ensures |r| == |files|
  {
    seq(|files|, i requires 0 <= i < |files| =>
      if files[i].pos <= |files[i].data| then files[i].data[files[i].pos..] else [])
  }

  /** Opened for sending: files have their announced size and are read in order. */
  ghost predicate Sending(files: seq<CFFile>, cfIndex: nat) {
    && cfIndex <= |files|
    && Sized(Contents(files), Sizes(files))
    && (forall i :: 0 <= i < |files| ==> files[i].pos <= |files[i].data|)
    && (forall i :: 0 <= i < cfIndex ==> files[i].pos == |files[i].data|)
  }

  /** Opened for receiving: files fill up front to back. */
  ghost predicate Receiving(files: seq<CFFile>, cfIndex: nat) {
    && FrontFilled(Contents(files), Sizes(files), cfIndex)
    && (forall i :: 0 <= i < |files| ==>
          files[i].writtenSize == |files[i].data| && files[i].writeDigest == files[i].data)
  }

  /** Sizes and checksums are as announced before. */
  ghost predicate SameMeta(files: seq<CFFile>, before: seq<CFFile>) {
    && |files| == |before| && Sizes(files) == Sizes(before)
    && (forall i :: 0 <= i < |files| ==> files[i].checksum == before[i].checksum)
  }

  class Snap {
    var cfFiles: seq<CFFile>
    var cfIndex: nat

    constructor (cfFiles: seq<CFFile>)
      ensures this.cfFiles == cfFiles && cfIndex == 0
    {
      this.cfFiles, cfIndex := cfFiles, 0;
    }

    method TotalSize() returns (total: nat)
      ensures total == Total(Sizes(cfFiles))
    {
      total := 0;
      ghost var sizes := Sizes(cfFiles);
      for k := 0 to |cfFiles|
        invariant total == Total(sizes[..k])
      {
        assert sizes[..k + 1][..k] == sizes[..k];
        total := total + cfFiles[k].size;
      }
      assert sizes[..|cfFiles|] == sizes;
    }

    /** `os.File.Read` on the current file: may return fewer bytes than asked for, none only at its end. */
    method ReadFile(n: nat) returns (b: seq<byte>)
      requires cfIndex < |cfFiles| && Sending(cfFiles, cfIndex)
      modifies this`cfFiles
      ensures Sending(cfFiles, cfIndex) && |cfFiles| == |old(cfFiles)|
      ensures Contents(cfFiles) == Contents(old(cfFiles)) && Sizes(cfFiles) == Sizes(old(cfFiles))
      ensures |b| <= n && |b| <= |Unread(old(cfFiles))[cfIndex]| && b == Unread(old(cfFiles))[cfIndex][..|b|]
      ensures Unread(cfFiles) == Unread(old(cfFiles))[cfIndex := Unread(old(cfFiles))[cfIndex][|b|..]]
      ensures b == [] <==> n == 0 || Unread(old(cfFiles))[cfIndex] == []
    {
      var f := cfFiles[cfIndex];
      var k: nat :| k <= n && f.pos + k <= |f.data| && (k == 0 <==> n == 0 || f.pos == |f.data|) by {
        if n != 0 && f.pos != |f.data| { assert 1 <= n && f.pos + 1 <= |f.data|; } else { assert 0 <= n; }
      }
      b := f.data[f.pos..f.pos + k];
      cfFiles := cfFiles[cfIndex := f.(pos := f.pos + k)];
      assert Contents(cfFiles) == Contents(old(cfFiles)) && Sizes(cfFiles) == Sizes(old(cfFiles));
    }

    /** Yields the next bytes of the concatenated files, whatever the file boundaries. */
    method Read(n: nat) returns (b: seq<byte>, eof: bool)
      requires Sending(cfFiles, cfIndex)
      modifies this
      ensures Sending(cfFiles, cfIndex)
      ensures Contents(cfFiles) == Contents(old(cfFiles)) && Sizes(cfFiles) == Sizes(old(cfFiles))
      ensures var stream := Flatten(Unread(old(cfFiles)));
        && |b| <= n && |b| <= |stream| && b == stream[..|b|]
        && Flatten(Unread(cfFiles)) == stream[|b|..]
        && (eof <==> n > 0 && stream == [])
      ensures b == [] <==> n == 0 || eof
    {
      if n == 0 {
        return [], false;
      }
      ghost var unread := Unread(cfFiles);
      while cfIndex < |cfFiles|
        invariant Sending(cfFiles, cfIndex) && |cfFiles| == |old(cfFiles)|
        invariant Contents(cfFiles) == Contents(old(cfFiles)) && Sizes(cfFiles) == Sizes(old(cfFiles))
        invariant Unread(cfFiles) == unread && forall i :: 0 <= i < cfIndex ==> unread[i] == []
      {
        if cfFiles[cfIndex].size == 0 {
          assert Contents(cfFiles)[cfIndex] == [];
          cfIndex := cfIndex + 1;
          continue;
        }
        b := ReadFile(n);
        if |b| > 0 {
          FlattenDrop(unread, cfIndex, |b|);
          eof := false;
          return;
        }
        assert unread == unread[cfIndex := unread[cfIndex][|b|..]];
        cfIndex := cfIndex + 1;
      }
      FlattenEmpty(unread);
      b, eof := [], true;
    }

    /** One round of the loop of `Write`: the current file takes the first `k` bytes, and the next file
        becomes current unless the buffer is used up. */
    method WriteRound(nextBuf: seq<byte>) returns (k: nat)
      requires Receiving(cfFiles, cfIndex) && cfIndex < |cfFiles| && nextBuf != []
      modifies this
      ensures Receiving(cfFiles, cfIndex) && k <= |nextBuf|
      ensures SameMeta(cfFiles, old(cfFiles))
      ensures Flatten(Contents(cfFiles)) == Flatten(Contents(old(cfFiles))) + nextBuf[..k]
      ensures k < |nextBuf| ==> cfIndex == old(cfIndex) + 1
    {
      var f := cfFiles[cfIndex];
      ghost var contents := Contents(cfFiles);
      assert f.data == contents[cfIndex] && f.size == Sizes(cfFiles)[cfIndex];
      var left := f.size - f.writtenSize;
      if f.size == 0 || left == 0 {
        cfIndex := cfIndex + 1;
        return 0;
      }
      k := if |nextBuf| > left then left else |nextBuf|;
      var part := nextBuf[..k];
      FlattenAppend(contents, cfIndex, part);
      cfFiles := cfFiles[cfIndex :=
        f.(data := f.data + part, writeDigest := f.writeDigest + part, writtenSize := f.writtenSize + k)];
      assert Contents(cfFiles) == contents[cfIndex := contents[cfIndex] + part];
      assert Sizes(cfFiles) == Sizes(old(cfFiles));
      if |nextBuf| > left {
        cfIndex := cfIndex + 1;
      }
    }

    /** Distributes a chunk over the files; only what no file has room for is left over. */
    method Write(b: seq<byte>) returns (n: nat)
      requires Receiving(cfFiles, cfIndex)
      modifies this
      ensures Receiving(cfFiles, cfIndex)
      ensures SameMeta(cfFiles, old(cfFiles))
      ensures n <= |b| && Flatten(Contents(cfFiles)) == Flatten(Contents(old(cfFiles))) + b[..n]
      ensures n < |b| ==> |Flatten(Contents(cfFiles))| == Total(Sizes(cfFiles))
    {
      n := 0;
      while n < |b| && cfIndex < |cfFiles|
        invariant Receiving(cfFiles, cfIndex) && n <= |b|
        invariant SameMeta(cfFiles, old(cfFiles))
        invariant Flatten(Contents(cfFiles)) == Flatten(Contents(old(cfFiles))) + b[..n]
        decreases n < |b|, |cfFiles| - cfIndex
      {
        var k := WriteRound(b[n..]);
        Advance(Flatten(Contents(old(cfFiles))), b, n, k);
        n := n + k;
      }
      if n < |b| {
        FlattenLength(Contents(cfFiles), Sizes(cfFiles));
      }
    }

    /** The completeness check of `Save`; `crc` stands for CRC32. */
    method Save(crc: seq<byte> -> nat) returns (ok: bool)
      requires Receiving(cfFiles, cfIndex)
      ensures ok <==> Complete(cfFiles, crc)
    {
      for k := 0 to |cfFiles|
        invariant Complete(cfFiles[..k], crc)
      {
        var f := cfFiles[k];
        if f.size == 0 { continue; }
        if f.writtenSize != f.size || crc(f.writeDigest) != f.checksum {
          assert !Complete(cfFiles, crc);
          return false;
        }
      }
      assert cfFiles[..|cfFiles|] == cfFiles;
      ok := true;
    }
  }

  /** Every non-empty file arrived in full and matches its checksum. */
  ghost predicate Complete(files: seq<CFFile>, crc: seq<byte> -> nat) {
    forall i :: 0 <= i < |files| && files[i].size != 0 ==>
      |files[i].data| == files[i].size && crc(files[i].data) == files[i].checksum
  }

  // ---------------------------------------------------------------------------
  // Sending and receiving
  // ---------------------------------------------------------------------------

  /** `io.ReadFull`: repeats `Read` until `n` bytes arrived or the stream ends. */
  method ReadFull(snap: Snap, n: nat) returns (b: seq<byte>, ok: bool)
    requires Sending(snap.cfFiles, snap.cfIndex)
    modifies snap
    ensures Sending(snap.cfFiles, snap.cfIndex)
    ensures Contents(snap.cfFiles) == Contents(old(snap.cfFiles)) && Sizes(snap.cfFiles) == Sizes(old(snap.cfFiles))
    ensures var stream := Flatten(Unread(old(snap.cfFiles)));
      && (ok <==> n <= |stream|)
      && (ok ==> b == stream[..n] && Flatten(Unread(snap.cfFiles)) == stream[n..])
  {
    b, ok := [], true;
    ghost var stream := Flatten(Unread(snap.cfFiles));
    while |b| < n
      invariant Sending(snap.cfFiles, snap.cfIndex)
      invariant Contents(snap.cfFiles) == Contents(old(snap.cfFiles)) && Sizes(snap.cfFiles) == Sizes(old(snap.cfFiles))
      invariant |b| <= n && |b| <= |stream|
      invariant b == stream[..|b|] && Flatten(Unread(snap.cfFiles)) == stream[|b|..]
    {
      var more, eof := snap.Read(n - |b|);
      if eof {
        return b, false;
      }
      assert stream[..|b|] + stream[|b|..][..|more|] == stream[..|b| + |more|];
      b := b + more;
    }
  }

  ghost predicate Bounded(chunks: seq<seq<byte>>, chunkLen: nat) {
    chunks == [] || (Bounded(chunks[..|chunks| - 1], chunkLen) && 0 < |chunks[|chunks| - 1]| <= chunkLen)
  }

  /** The first `sent` bytes of the stream are in the chunks, the rest is unread. */
  ghost predicate Streaming(unread: seq<seq<byte>>, stream: seq<byte>, sent: nat, chunks: seq<seq<byte>>,
    chunkLen: nat) {
    && sent <= |stream| && Flatten(chunks) == stream[..sent] && Flatten(unread) == stream[sent..]
    && Bounded(chunks, chunkLen)
  }

  lemma StreamOn(unread: seq<seq<byte>>, stream: seq<byte>, sent: nat, n: nat,
                 chunks: seq<seq<byte>>, buf: seq<byte>, unread': seq<seq<byte>>, chunkLen: nat)
    requires Streaming(unread, stream, sent, chunks, chunkLen) && sent + n <= |stream| && 0 < n <= chunkLen
    requires buf == stream[sent..][..n] && Flatten(unread') == stream[sent..][n..]
    ensures Streaming(unread', stream, sent + n, chunks + [buf], chunkLen)
  {
    FlattenSnoc(chunks, buf);
    Advance([], stream, sent, n);
    assert (chunks + [buf])[..|chunks|] == chunks;
  }

  /** One chunk of the sending loop. */
  method SendChunk(snap: Snap, n: nat, ghost stream: seq<byte>, ghost sent: nat, ghost chunks: seq<seq<byte>>,
    ghost chunkLen: nat)
    returns (buf: seq<byte>)
    requires Sending(snap.cfFiles, snap.cfIndex) && Streaming(Unread(snap.cfFiles), stream, sent, chunks, chunkLen)
    requires sent + n <= |stream| && 0 < n <= chunkLen
    modifies snap
    ensures Sending(snap.cfFiles, snap.cfIndex)
    ensures Streaming(Unread(snap.cfFiles), stream, sent + n, chunks + [buf], chunkLen)
  {
    var ok;
    ghost var unread := Unread(snap.cfFiles);
    buf, ok := ReadFull(snap, n);
    StreamOn(unread, stream, sent, n, chunks, buf, Unread(snap.cfFiles), chunkLen);
  }

  /** The sending loop, with `total` bytes to go. */
  method SendAll(snap: Snap, chunkLen: nat, total: nat, ghost stream: seq<byte>) returns (chunks: seq<seq<byte>>)
    requires Sending(snap.cfFiles, snap.cfIndex) && chunkLen > 0 && total == |stream|
    requires Streaming(Unread(snap.cfFiles), stream, 0, [], chunkLen)
    modifies snap
    ensures Flatten(chunks) == stream && Bounded(chunks, chunkLen)
  {
    var remain := total;
    chunks := [];
    while remain > 0
      invariant remain <= |stream| && Sending(snap.cfFiles, snap.cfIndex)
      invariant Streaming(Unread(snap.cfFiles), stream, |stream| - remain, chunks, chunkLen)
    {
      var n := if remain < chunkLen then remain else chunkLen;
      var buf := SendChunk(snap, n, stream, |stream| - remain, chunks, chunkLen);
      chunks := chunks + [buf];
      remain := remain - n;
    }
    assert stream[..|stream|] == stream;
  }

  /** The chunks sent, put together, are the files put together. */
  method Send(snap: Snap, chunkLen: nat) returns (chunks: seq<seq<byte>>)
    requires Sending(snap.cfFiles, snap.cfIndex) && Unread(snap.cfFiles) == Contents(snap.cfFiles) && chunkLen > 0
    modifies snap
    ensures Flatten(chunks) == Flatten(Contents(old(snap.cfFiles)))
    ensures Bounded(chunks, chunkLen)
  {
    ghost var stream := Flatten(Contents(snap.cfFiles));
    FlattenLength(Contents(snap.cfFiles), Sizes(snap.cfFiles));
    var total := snap.TotalSize();
    assert stream[..0] == [] && stream[0..] == stream;
    chunks := SendAll(snap, chunkLen, total, stream);
  }

  /** The first `k` chunks, none of them empty, have been written. */
  ghost predicate Fed(files: seq<CFFile>, chunks: seq<seq<byte>>, k: nat) {
    && k <= |chunks| && Flatten(Contents(files)) == Flatten(chunks[..k])
    && (forall i :: 0 <= i < k ==> chunks[i] != [])
  }

  method WriteChunk(snap: Snap, chunks: seq<seq<byte>>, k: nat) returns (ok: bool)
    requires k < |chunks| && Receiving(snap.cfFiles, snap.cfIndex) && Fed(snap.cfFiles, chunks, k)
    modifies snap
    ensures Receiving(snap.cfFiles, snap.cfIndex) && SameMeta(snap.cfFiles, old(snap.cfFiles))
    ensures ok ==> Fed(snap.cfFiles, chunks, k + 1)
    ensures !ok ==> chunks[k] == [] || |Flatten(chunks)| > Total(Sizes(snap.cfFiles))
  {
    FlattenPrefix(chunks, k + 1);
    assert chunks[..k + 1][..k] == chunks[..k];
    if |chunks[k]| == 0 {
      return false;
    }
    var n := snap.Write(chunks[k]);
    ok := n == |chunks[k]|;
    if ok {
      assert chunks[k][..n] == chunks[k];
    }
  }

  /** Feeds the chunks to `Write`; `ok` fails on an empty chunk and on a chunk not consumed whole. */
  method WriteChunks(snap: Snap, chunks: seq<seq<byte>>) returns (ok: bool)
    requires Receiving(snap.cfFiles, snap.cfIndex) && Flatten(Contents(snap.cfFiles)) == []
    modifies snap
    ensures Receiving(snap.cfFiles, snap.cfIndex)
    ensures SameMeta(snap.cfFiles, old(snap.cfFiles))
    ensures ok ==> Flatten(Contents(snap.cfFiles)) == Flatten(chunks)
    ensures ok <==> |Flatten(chunks)| <= Total(Sizes(snap.cfFiles)) && forall i :: 0 <= i < |chunks| ==> chunks[i] != []
  {
    for k := 0 to |chunks|
      invariant Receiving(snap.cfFiles, snap.cfIndex) && SameMeta(snap.cfFiles, old(snap.cfFiles))
      invariant Fed(snap.cfFiles, chunks, k)
    {
      ok := WriteChunk(snap, chunks, k);
      if !ok {
        return;
      }
    }
    assert chunks[..|chunks|] == chunks;
    FrontFilledLength(Contents(snap.cfFiles), Sizes(snap.cfFiles), snap.cfIndex);
    ok := true;
  }

  lemma {:induction false} FlattenPrefix(files: seq<seq<byte>>, k: nat)
    requires k <= |files|
    ensures |Flatten(files[..k])| <= |Flatten(files)|
  {
    if k < |files| {
      FlattenPrefix(files[..|files| - 1], k);
      assert files[..|files| - 1][..k] == files[..k];
    } else {
      assert files[..k] == files;
    }
  }

  /** Receiving a stream cut at any places: chunks cut from the stream of `source` are consumed whole
      and leave every file equal to its source, with `WrittenSize` equal to `Size`; what is received
      is accepted exactly when the chunks are non-empty, have the announced total size and match the
      checksums. */
  method Receive(snap: Snap, chunks: seq<seq<byte>>, crc: seq<byte> -> nat, ghost source: seq<seq<byte>>)
    returns (ok: bool)
    requires Receiving(snap.cfFiles, snap.cfIndex) && Flatten(Contents(snap.cfFiles)) == []
    requires Sized(source, Sizes(snap.cfFiles))
    modifies snap
    ensures Receiving(snap.cfFiles, snap.cfIndex)
    ensures ok ==> |Flatten(chunks)| == Total(Sizes(old(snap.cfFiles)))
    ensures Flatten(chunks) == Flatten(source) && (forall i :: 0 <= i < |chunks| ==> chunks[i] != []) ==>
      && Contents(snap.cfFiles) == source
      && (forall i :: 0 <= i < |snap.cfFiles| ==> snap.cfFiles[i].writtenSize == snap.cfFiles[i].size)
      && (ok <==> forall i :: 0 <= i < |source| && source[i] != [] ==> crc(source[i]) == old(snap.cfFiles)[i].checksum)
  {
    FlattenLength(source, Sizes(snap.cfFiles));
    ok := WriteChunks(snap, chunks);
    if !ok {
      return;
    }
    ghost var contents, sizes := Contents(snap.cfFiles), Sizes(snap.cfFiles);
    FrontFilledLength(contents, sizes, snap.cfIndex);
    if Flatten(chunks) == Flatten(source) {
      FlattenInjective(contents, source, sizes);
      assert forall i :: 0 <= i < |source| ==> snap.cfFiles[i].data == source[i] && snap.cfFiles[i].size == sizes[i];
    }
    ok := snap.Save(crc);
    if ok {
      assert Sized(contents, sizes) by {
        assert forall i :: 0 <= i < |sizes| ==> sizes[i] == snap.cfFiles[i].size && contents[i] == snap.cfFiles[i].data;
      }
      FlattenLength(contents, sizes);
    }
  }

  lemma {:induction false} BoundedNonEmpty(chunks: seq<seq<byte>>, chunkLen: nat, i: nat)
    requires Bounded(chunks, chunkLen) && i < |chunks|
    ensures chunks[i] != []
  {
    if i < |chunks| - 1 { BoundedNonEmpty(chunks[..|chunks| - 1], chunkLen, i); }
  }

  /** Sender to receiver: the copy is accepted and equal, for every chunk length. */
  method Replicate(from: Snap, to: Snap, chunkLen: nat, crc: seq<byte> -> nat) returns (ok: bool)
    requires from != to && chunkLen > 0
    requires Sending(from.cfFiles, from.cfIndex) && Unread(from.cfFiles) == Contents(from.cfFiles)
    requires Receiving(to.cfFiles, to.cfIndex) && Flatten(Contents(to.cfFiles)) == []
    requires Sizes(to.cfFiles) == Sizes(from.cfFiles)
    requires forall i :: 0 <= i < |to.cfFiles| ==> to.cfFiles[i].checksum == crc(Contents(from.cfFiles)[i])
    modifies from, to
    ensures ok && Contents(to.cfFiles) == Contents(old(from.cfFiles))
  {
    ghost var source := Contents(from.cfFiles);
    var chunks := Send(from, chunkLen);
    forall i | 0 <= i < |chunks| ensures chunks[i] != [] {
      BoundedNonEmpty(chunks, chunkLen, i);
    }
    ok := Receive(to, chunks, crc, source);
  }
}
