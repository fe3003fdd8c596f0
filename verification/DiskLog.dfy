/**
 Size-limited reads of a peer's raft log on disk (`fetchEntriesTo` in raftstore/peer_storage.go).
 */
module DiskLog {
  import opened RaftLog

  const RAFT_LOG_MULTI_GET_CNT := 8

  datatype Error = InvalidRange | Compacted | OutOfBound | Unavailable

  datatype Result<+T> = Ok(value: T) | Err(error: Error)

  /** The raft engine's log keys of one region. */
  type Disk = map<nat, Entry>

  ghost predicate Keyed(disk: Disk) {
    forall i :: i in disk ==> disk[i].index == i && disk[i].size > 0
  }

  ghost predicate Present(disk: Disk, low: nat, high: nat) {
    forall i :: low <= i < high ==> i in disk
  }

  function Slice(disk: Disk, low: nat, high: nat): (s: seq<Entry>)
    requires low <= high && Present(disk, low, high)
    ensures |s| == high - low
  {
    seq(high - low, k requires 0 <= k < high - low => disk[low + k])
  }

  // ---------------------------------------------------------------------------
  // Reading entries from disk
  // ---------------------------------------------------------------------------

  /** Where a read of [low, high) stops: at `high`, or behind the entry that exceeds the limit. */
  ghost predicate StopsAt(disk: Disk, low: nat, high: nat, maxSize: nat, n: nat) {
    && low < n <= high && Present(disk, low, n)
    && (n == high || Size(Slice(disk, low, n)) > maxSize)
    && Size(Slice(disk, low, n - 1)) <= maxSize
  }

  /** What `fetchEntriesTo` promises for any disk contents: it succeeds exactly when no entry is missing
      before it may stop, and then returns the limited prefix and the size it looked at. */
  ghost predicate Fetched(disk: Disk, low: nat, high: nat, maxSize: nat, r: Result<seq<Entry>>, total: nat)
    requires low < high
  {
    && (r.Ok? <==> exists n: nat :: StopsAt(disk, low, high, maxSize, n))
    && (r.Err? ==> r.error == Unavailable)
    && (r.Ok? ==> exists n: nat ::
          && StopsAt(disk, low, high, maxSize, n)
          && total == Size(Slice(disk, low, n))
          && IsLimited(Slice(disk, low, n), maxSize, r.value))
  }

  lemma SliceSnoc(disk: Disk, low: nat, i: nat)
    requires low <= i && Present(disk, low, i + 1)
    ensures Slice(disk, low, i + 1) == Slice(disk, low, i) + [disk[i]]
    ensures Size(Slice(disk, low, i + 1)) == Size(Slice(disk, low, i)) + disk[i].size
  {
    SizeSnoc(Slice(disk, low, i), disk[i]);
    assert Slice(disk, low, i + 1) == Slice(disk, low, i) + [disk[i]];
  }

  /** One entry of the fetch loop: keep it when it is the first or still fits. */
  function Take(buf: seq<Entry>, total: nat, maxSize: nat, e: Entry): seq<Entry> {
    if buf == [] || total + e.size <= maxSize then buf + [e] else buf
  }

  /** The state of a fetch loop that looked at the entries of [low, i). */
  ghost predicate Fetching(disk: Disk, low: nat, i: nat, maxSize: nat, buf: seq<Entry>, total: nat) {
    && low <= i && Present(disk, low, i)
    && total == Size(Slice(disk, low, i))
    && (i > low ==> Size(Slice(disk, low, i - 1)) <= maxSize)
    && IsLimited(Slice(disk, low, i), maxSize, buf)
    && (total <= maxSize ==> buf == Slice(disk, low, i))
  }

  lemma FetchOne(disk: Disk, low: nat, i: nat, maxSize: nat, buf: seq<Entry>, total: nat)
    requires Fetching(disk, low, i, maxSize, buf, total) && total <= maxSize && i in disk
    ensures Fetching(disk, low, i + 1, maxSize, Take(buf, total, maxSize, disk[i]), total + disk[i].size)
  {
    SliceSnoc(disk, low, i);
    assert (buf + [disk[i]])[..|buf|] == buf;
    assert (buf + [disk[i]])[..|buf| + 1] == buf + [disk[i]];
  }

  lemma FetchStart(disk: Disk, low: nat, maxSize: nat)
    ensures Fetching(disk, low, low, maxSize, [], 0)
  {
    assert Slice(disk, low, low) == [];
  }

  lemma FetchStop(disk: Disk, low: nat, high: nat, i: nat, maxSize: nat, buf: seq<Entry>, total: nat)
    requires Fetching(disk, low, i, maxSize, buf, total) && low < i <= high && (i == high || total > maxSize)
    ensures Fetched(disk, low, high, maxSize, Ok(buf), total)
  {
    assert StopsAt(disk, low, high, maxSize, i);
  }

  /** A missing entry before the limit is exceeded leaves nowhere to stop. */
  lemma FetchGap(disk: Disk, low: nat, high: nat, i: nat, maxSize: nat, buf: seq<Entry>, total: nat)
    requires Fetching(disk, low, i, maxSize, buf, total) && total <= maxSize && i < high && i !in disk
    ensures Fetched(disk, low, high, maxSize, Err(Unavailable), 0)
  {
    forall n | low < n <= high && Present(disk, low, n)
      ensures n < high && Size(Slice(disk, low, n)) <= maxSize
    {
      assert n <= i;
      assert Slice(disk, low, n) == Slice(disk, low, i)[..n - low];
      SizePrefix(Slice(disk, low, i), n - low);
    }
  }

  /** Few entries: one point lookup each. */
  method FetchByGets(disk: Disk, low: nat, high: nat, maxSize: nat) returns (r: Result<seq<Entry>>, total: nat)
    requires low < high && Keyed(disk)
    ensures Fetched(disk, low, high, maxSize, r, total)
  {
    total := 0;
    var buf, i := [], low;
    FetchStart(disk, low, maxSize);
    while i < high && total <= maxSize
      invariant i <= high && Fetching(disk, low, i, maxSize, buf, total)
    {
      if i !in disk {
        FetchGap(disk, low, high, i, maxSize, buf, total);
        return Err(Unavailable), 0;
      }
      FetchOne(disk, low, i, maxSize, buf, total);
      buf := Take(buf, total, maxSize, disk[i]);
      total := total + disk[i].size;
      i := i + 1;
    }
    FetchStop(disk, low, high, i, maxSize, buf, total);
    r := Ok(buf);
  }

  ghost predicate IsFirstKey(disk: Disk, from: nat, k: nat) {
    k in disk && from <= k && forall j :: j in disk && from <= j ==> k <= j
  }

  lemma {:induction false} FirstKeyExists(disk: Disk, from: nat, k: nat)
    requires k in disk && from <= k
    ensures exists m :: IsFirstKey(disk, from, m)
    decreases k
  {
    if j: nat :| j in disk && from <= j < k {
      FirstKeyExists(disk, from, j);
    } else {
      assert IsFirstKey(disk, from, k);
    }
  }

  /** `Seek`/`Next` of the engine's iterator: the first key not before `from`. */
  method SeekKey(disk: Disk, from: nat) returns (valid: bool, key: nat)
    ensures valid <==> exists k :: k in disk && from <= k
    ensures valid ==> IsFirstKey(disk, from, key)
    ensures from in disk <==> valid && key == from
  {
    valid := exists k :: k in disk && from <= k;
    key := 0;
    if valid {
      ghost var k :| k in disk && from <= k;
      FirstKeyExists(disk, from, k);
      key :| key in disk && from <= key && forall j :: j in disk && from <= j ==> key <= j;
    }
  }

  /** Many entries: one scan, which stops at the first gap. */
  method FetchByScan(disk: Disk, low: nat, high: nat, maxSize: nat) returns (r: Result<seq<Entry>>, total: nat)
    requires low < high && Keyed(disk)
    ensures Fetched(disk, low, high, maxSize, r, total)
  {
    total := 0;
    var buf, nextIndex, exceeded := [], low, false;
    FetchStart(disk, low, maxSize);
    var valid: bool, key: nat := SeekKey(disk, low);
    while valid
      invariant nextIndex <= high && total <= maxSize && !exceeded
      invariant Fetching(disk, low, nextIndex, maxSize, buf, total)
      invariant valid ==> key in disk
      invariant nextIndex in disk <==> valid && key == nextIndex
      decreases high - nextIndex, valid
    {
      if key >= high || disk[key].index != nextIndex {
        break;
      }
      FetchOne(disk, low, nextIndex, maxSize, buf, total);
      buf := Take(buf, total, maxSize, disk[key]);
      total := total + disk[key].size;
      exceeded := total > maxSize;
      nextIndex := nextIndex + 1;
      if exceeded {
        break;
      }
      valid, key := SeekKey(disk, nextIndex);
    }
    if |buf| == high - low || exceeded {
      FetchStop(disk, low, high, nextIndex, maxSize, buf, total);
      r := Ok(buf);
    } else {
      FetchGap(disk, low, high, nextIndex, maxSize, buf, total);
      return Err(Unavailable), 0;
    }
  }

  method FetchEntriesTo(disk: Disk, low: nat, high: nat, maxSize: nat) returns (r: Result<seq<Entry>>, total: nat)
    requires low < high && Keyed(disk)
    ensures Fetched(disk, low, high, maxSize, r, total)
  {
    if high - low <= RAFT_LOG_MULTI_GET_CNT {
      r, total := FetchByGets(disk, low, high, maxSize);
    } else {
      r, total := FetchByScan(disk, low, high, maxSize);
    }
  }
}
