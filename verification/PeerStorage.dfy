/**
 The storage of one peer: the raft log on disk, the entry cache, the term lookup and log compaction
 (raftstore/peer_storage.go, raftstore/worker.go).
 */
module PeerStorage {
  import opened RaftLog
  import opened DiskLog
  import opened Cache

  // ---------------------------------------------------------------------------
  // The storage of one peer and everything that happens to it
  // ---------------------------------------------------------------------------

  /** A queued log GC: delete [start, end), where start 0 means "from the first key". */
  datatype GcTask = GcTask(start: nat, end: nat)

  datatype Storage = Storage(
    disk: Disk,
    cache: seq<Entry>,
    lastIndex: nat,
    lastTerm: nat,
    appliedIndex: nat,
    truncatedIndex: nat,
    truncatedTerm: nat,
    lastCompactedIdx: nat,
    gcTasks: seq<GcTask>)

  datatype Op =
    | Append(entries: seq<Entry>)
    | ApplyTo(index: nat)
    | CompactLog(compactIndex: nat, compactTerm: nat)
    | GcBatch(firstKey: nat, upTo: nat)
    | GcFailed
    | CompactCache(idx: nat)
    | MaybeGCCache(replicatedIdx: nat, appliedIdx: nat)

  ghost function TermAt(s: Storage, i: nat): nat {
    if i == s.truncatedIndex || i !in s.disk then s.truncatedTerm else s.disk[i].term
  }

  ghost predicate LogPresent(s: Storage) {
    && Keyed(s.disk)
    && s.truncatedIndex <= s.appliedIndex <= s.lastIndex
    && Present(s.disk, s.truncatedIndex + 1, s.lastIndex + 1)
    && (forall i :: i in s.disk ==> i <= s.lastIndex)
  }

  /** The cache is empty or a suffix of the log, of bounded length. */
  ghost predicate CacheIsSuffix(s: Storage) {
    && |s.cache| <= MAX_CACHE_CAPACITY && s.truncatedIndex + |s.cache| <= s.lastIndex
    && (forall k :: 0 <= k < |s.cache| ==> CachedRight(s, k))
  }

  ghost predicate CachedRight(s: Storage, k: nat)
    requires k < |s.cache| <= s.lastIndex
  {
    var i := s.lastIndex + 1 - |s.cache| + k;
    i in s.disk && s.cache[k] == s.disk[i]
  }

  ghost predicate TermsOrdered(s: Storage) {
    && (forall i, j :: s.truncatedIndex <= i <= j <= s.lastIndex ==> TermAt(s, i) <= TermAt(s, j))
    && s.lastTerm == TermAt(s, s.lastIndex)
  }

  ghost predicate GcBehind(s: Storage) {
    forall k :: 0 <= k < |s.gcTasks| ==> s.gcTasks[k].end <= s.truncatedIndex + 1
  }

  ghost predicate Inv(s: Storage) {
    LogPresent(s) && CacheIsSuffix(s) && TermsOrdered(s) && GcBehind(s)
  }

  /** What the raft library and the leader guarantee about an operation. */
  ghost predicate Legal(s: Storage, op: Op) {
    match op
    case Append(entries) => entries != [] ==>
      && Contiguous(entries) && Positive(entries)
      && s.appliedIndex < entries[0].index <= s.lastIndex + 1
      && (forall i, j :: 0 <= i <= j < |entries| ==> entries[i].term <= entries[j].term)
      && TermAt(s, entries[0].index - 1) <= entries[0].term
    case ApplyTo(index) => s.appliedIndex <= index <= s.lastIndex
    case CompactLog(i, term) => s.truncatedIndex < i <= s.appliedIndex ==> term == 0 || term == TermAt(s, i)
    case _ => true
  }

  function PutAll(disk: Disk, entries: seq<Entry>): Disk {
    if entries == [] then disk
    else PutAll(disk, entries[..|entries| - 1])[entries[|entries| - 1].index := entries[|entries| - 1]]
  }

  function DeleteRange(disk: Disk, low: nat, high: nat): Disk {
    map i | i in disk && !(low <= i < high) :: disk[i]
  }

  lemma {:induction false} PutAllContents(disk: Disk, entries: seq<Entry>, i: nat)
    requires Contiguous(entries) && entries != []
    ensures var first := entries[0].index; var d := PutAll(disk, entries);
      if first <= i < first + |entries| then i in d && d[i] == entries[i - first]
      else (i in d <==> i in disk) && (i in d ==> d[i] == disk[i])
  {
    if |entries| > 1 {
      PutAllContents(disk, entries[..|entries| - 1], i);
    }
  }

  /** `Append` persisted: set the new keys, delete the keys of the old tail. */
  function DoAppend(s: Storage, entries: seq<Entry>): Storage {
    if entries == [] then s
    else
      var back := entries[|entries| - 1];
      s.(disk := DeleteRange(PutAll(s.disk, entries), back.index + 1, s.lastIndex + 1),
        cache := Newest(Kept(s.cache, entries[0].index) + entries),
         lastIndex := back.index, lastTerm := back.term)
  }

  /** `execCompactLog`, `CompactRaftLog` and `onReadyCompactLog`. */
  function DoCompact(s: Storage, compactIndex: nat, compactTerm: nat): Storage {
    var firstIndex := s.truncatedIndex + 1;
    if compactIndex <= firstIndex || compactTerm == 0 || compactIndex > s.appliedIndex then s
    else
      s.(truncatedIndex := compactIndex, truncatedTerm := compactTerm,
         lastCompactedIdx := compactIndex + 1,
         cache := CompactedCache(s.cache, compactIndex + 1),
         gcTasks := s.gcTasks + [GcTask(s.lastCompactedIdx, compactIndex + 1)])
  }

  function GcFirst(task: GcTask, firstKey: nat): nat {
    if task.start == 0 then firstKey else task.start
  }

  /**
   One batch of the oldest queued GC, up to `upTo`; `firstKey` is where the seek for the first key lands when
   asked to. The rest of the range stays queued, so that anything may happen before the next batch.
   */
  function DoGcBatch(s: Storage, firstKey: nat, upTo: nat): Storage {
    if s.gcTasks == [] then s
    else
      var task := s.gcTasks[0];
      var first := GcFirst(task, firstKey);
      if first >= task.end || upTo >= task.end then
        s.(disk := DeleteRange(s.disk, first, task.end), gcTasks := s.gcTasks[1..])
      else if first < upTo then
        s.(disk := DeleteRange(s.disk, first, upTo), gcTasks := [GcTask(upTo, task.end)] + s.gcTasks[1..])
      else s
  }

  /** A failed write gives up the rest of the oldest task. */
  function DoGcFailed(s: Storage): Storage {
    if s.gcTasks == [] then s else s.(gcTasks := s.gcTasks[1..])
  }

  function DoCompactCache(s: Storage, idx: nat): Storage {
    s.(cache := CompactedCache(s.cache, idx))
  }

  function DoMaybeGCCache(s: Storage, replicatedIdx: nat, appliedIdx: nat): Storage {
    if replicatedIdx == appliedIdx || (s.cache != [] && s.cache[0].index > replicatedIdx + 1)
    then DoCompactCache(s, appliedIdx + 1) else s
  }

  function Step(s: Storage, op: Op): Storage {
    match op
    case Append(entries) => DoAppend(s, entries)
    case ApplyTo(index) => s.(appliedIndex := index)
    case CompactLog(i, term) => DoCompact(s, i, term)
    case GcBatch(firstKey, upTo) => DoGcBatch(s, firstKey, upTo)
    case GcFailed => DoGcFailed(s)
    case CompactCache(idx) => DoCompactCache(s, idx)
    case MaybeGCCache(replicatedIdx, appliedIdx) => DoMaybeGCCache(s, replicatedIdx, appliedIdx)
  }

  /** Compacting the cache to `idx` leaves the suffix of the log from `idx` on. */
  lemma CompactedCacheSuffix(s: Storage, idx: nat, s': Storage)
    requires Inv(s) && s'.cache == CompactedCache(s.cache, idx) && s'.lastIndex == s.lastIndex
    requires s.truncatedIndex <= s'.truncatedIndex <= s.lastIndex &&
      (s'.truncatedIndex == s.truncatedIndex || idx == s'.truncatedIndex + 1)
    requires forall i :: s'.truncatedIndex < i <= s.lastIndex ==> i in s'.disk && s'.disk[i] == s.disk[i]
    ensures CacheIsSuffix(s')
  {
    if s.cache != [] {
      assert CachedRight(s, 0);
    }
    forall k | 0 <= k < |s'.cache| ensures CachedRight(s', k) {
      assert CachedRight(s, |s.cache| - |s'.cache| + k);
    }
  }

  /** Terms stay ordered when the kept part of the log keeps its terms. */
  lemma TermsKept(s: Storage, s': Storage)
    requires TermsOrdered(s) && s'.lastIndex == s.lastIndex && s'.lastTerm == s.lastTerm
    requires s.truncatedIndex <= s'.truncatedIndex <= s.lastIndex
    requires forall i :: s'.truncatedIndex <= i <= s.lastIndex ==> TermAt(s', i) == TermAt(s, i)
    ensures TermsOrdered(s')
  {
  }

  lemma CompactedCacheInv(s: Storage, idx: nat)
    requires Inv(s)
    ensures Inv(DoCompactCache(s, idx))
  {
    var s' := DoCompactCache(s, idx);
    TermsKept(s, s');
    CompactedCacheSuffix(s, idx, s');
  }

  lemma CompactInv(s: Storage, i: nat, term: nat)
    requires Inv(s) && Legal(s, CompactLog(i, term))
    ensures Inv(DoCompact(s, i, term))
  {
    var s' := DoCompact(s, i, term);
    if s' != s {
      TermsKept(s, s');
      CompactedCacheSuffix(s, i + 1, s');
    }
  }

  /** Only compacted entries are gone, and the queued tasks are no later than before. */
  lemma OnlyCompactedGone(s: Storage, s': Storage)
    requires Inv(s) && GcBehind(s')
    requires s' == s.(disk := s'.disk, gcTasks := s'.gcTasks)
    requires forall i :: i in s'.disk ==> i in s.disk && s'.disk[i] == s.disk[i]
    requires forall i :: i in s.disk && s.truncatedIndex < i ==> i in s'.disk
    ensures Inv(s')
  {
    TermsKept(s, s');
    CompactedCacheSuffix(s, 0, s');
  }

  lemma GcInv(s: Storage, firstKey: nat, upTo: nat)
    requires Inv(s)
    ensures Inv(DoGcBatch(s, firstKey, upTo))
  {
    var s' := DoGcBatch(s, firstKey, upTo);
    if s.gcTasks != [] {
      assert s.gcTasks[0].end <= s.truncatedIndex + 1;
      OnlyCompactedGone(s, s');
    }
  }

  /** However a range is cut into batches, with nothing in between they delete what one batch would. */
  lemma BatchesJoin(s: Storage, firstKey: nat, mid: nat, anyKey: nat, upTo: nat)
    requires s.gcTasks != [] && GcFirst(s.gcTasks[0], firstKey) < mid < s.gcTasks[0].end && mid <= upTo
    ensures DoGcBatch(DoGcBatch(s, firstKey, mid), anyKey, upTo) == DoGcBatch(s, firstKey, upTo)
  {
    var task, rest := s.gcTasks[0], s.gcTasks[1..];
    assert ([GcTask(mid, task.end)] + rest)[1..] == rest;
    if mid < upTo {
      DeleteRangeJoin(s.disk, GcFirst(task, firstKey), mid, if upTo < task.end then upTo else task.end);
    }
  }

  /** Key `i` after an append: new entries from the first new index on, and nothing behind them. */
  ghost predicate AppendedAt(s: Storage, entries: seq<Entry>, d: Disk, i: nat)
    requires entries != []
  {
    var first := entries[0].index;
    if i >= first then (i in d <==> i < first + |entries|) && (i in d ==> d[i] == entries[i - first])
    else (i in d <==> i in s.disk) && (i in d ==> d[i] == s.disk[i])
  }

  lemma AppendDisk(s: Storage, entries: seq<Entry>, s': Storage)
    requires LogPresent(s) && entries != [] && Contiguous(entries) && entries[0].index <= s.lastIndex + 1
    requires s' == DoAppend(s, entries)
    ensures forall i: nat :: AppendedAt(s, entries, s'.disk, i)
    ensures s'.lastIndex == entries[0].index + |entries| - 1
  {
    forall i: nat ensures AppendedAt(s, entries, s'.disk, i) {
      PutAllContents(s.disk, entries, i);
    }
  }

  lemma AppendLog(s: Storage, entries: seq<Entry>, s': Storage)
    requires LogPresent(s) && entries != [] && Legal(s, Append(entries))
    requires s'.lastIndex == entries[0].index + |entries| - 1 && s'.truncatedIndex == s.truncatedIndex &&
      s'.appliedIndex == s.appliedIndex
    requires forall i: nat :: AppendedAt(s, entries, s'.disk, i)
    ensures LogPresent(s')
  {
    forall i: nat ensures i in s'.disk ==> s'.disk[i].index == i && s'.disk[i].size > 0 && i <= s'.lastIndex {
      assert AppendedAt(s, entries, s'.disk, i);
    }
    forall i | s.truncatedIndex + 1 <= i < s'.lastIndex + 1 ensures i in s'.disk {
      assert AppendedAt(s, entries, s'.disk, i);
    }
  }

  lemma AppendTerms(s: Storage, entries: seq<Entry>, s': Storage)
    requires Inv(s) && entries != [] && Legal(s, Append(entries))
    requires s'.lastIndex == entries[0].index + |entries| - 1 && s'.lastTerm == entries[|entries| - 1].term
    requires s'.truncatedIndex == s.truncatedIndex && s'.truncatedTerm == s.truncatedTerm
    requires forall i: nat :: AppendedAt(s, entries, s'.disk, i)
    ensures TermsOrdered(s')
  {
    var first := entries[0].index;
    forall i: nat | i <= s'.lastIndex
      ensures TermAt(s', i) == if first <= i then entries[i - first].term else TermAt(s, i)
    {
      assert AppendedAt(s, entries, s'.disk, i);
    }
  }

  /** What stays of the cache ends right before the new entries. */
  lemma KeptEnds(s: Storage, entries: seq<Entry>)
    requires Inv(s) && entries != [] && Legal(s, Append(entries))
    ensures var kept := Kept(s.cache, entries[0].index);
      |kept| <= |s.cache| && kept == s.cache[..|kept|] && s.truncatedIndex + |kept| < entries[0].index
    ensures var kept := Kept(s.cache, entries[0].index);
      kept != [] ==> s.lastIndex + 1 - |s.cache| == entries[0].index - |kept|
  {
    if s.cache != [] {
      assert CachedRight(s, 0);
    }
  }

  lemma AppendCachedRight(s: Storage, entries: seq<Entry>, s': Storage, kept: seq<Entry>, k: nat)
    requires CacheIsSuffix(s) && entries != [] && |kept| <= |s.cache| && kept == s.cache[..|kept|]
    requires kept != [] ==> s.lastIndex + 1 - |s.cache| == entries[0].index - |kept|
    requires s'.lastIndex == entries[0].index + |entries| - 1
    requires s'.cache == Newest(kept + entries) && k < |s'.cache| <= s'.lastIndex
    requires AppendedAt(s, entries, s'.disk, s'.lastIndex + 1 - |s'.cache| + k)
    ensures CachedRight(s', k)
  {
    var j := |kept + entries| - |s'.cache| + k;
    assert s'.cache[k] == (kept + entries)[j];
    if j < |kept| {
      assert CachedRight(s, j);
    }
  }

  lemma AppendCache(s: Storage, entries: seq<Entry>, s': Storage)
    requires Inv(s) && entries != [] && Legal(s, Append(entries))
    requires s'.lastIndex == entries[0].index + |entries| - 1 && s'.truncatedIndex == s.truncatedIndex
    requires s'.cache == Newest(Kept(s.cache, entries[0].index) + entries)
    requires forall i: nat :: AppendedAt(s, entries, s'.disk, i)
    ensures CacheIsSuffix(s')
  {
    var kept := Kept(s.cache, entries[0].index);
    KeptEnds(s, entries);
    assert s'.truncatedIndex + |s'.cache| <= s'.lastIndex;
    forall k | 0 <= k < |s'.cache| ensures CachedRight(s', k) {
      assert AppendedAt(s, entries, s'.disk, s'.lastIndex + 1 - |s'.cache| + k);
      AppendCachedRight(s, entries, s', kept, k);
    }
  }

  lemma AppendInv(s: Storage, entries: seq<Entry>)
    requires Inv(s) && Legal(s, Append(entries))
    ensures Inv(DoAppend(s, entries))
  {
    if entries != [] {
      var s' := DoAppend(s, entries);
      AppendDisk(s, entries, s');
      AppendLog(s, entries, s');
      AppendTerms(s, entries, s');
      AppendCache(s, entries, s');
    }
  }

  ghost predicate LegalRun(s: Storage, ops: seq<Op>)
    decreases |ops|
  {
    ops == [] || (Legal(s, ops[0]) && LegalRun(Step(s, ops[0]), ops[1..]))
  }

  function Run(s: Storage, ops: seq<Op>): Storage
    decreases |ops|
  {
    if ops == [] then s else Run(Step(s, ops[0]), ops[1..])
  }

  /** A freshly bootstrapped or split-off peer: an empty log behind the initial index and term. */
  function Initial(): Storage {
    Storage(map[], [], 5, 5, 5, 5, 5, 0, [])
  }

  lemma StepInv(s: Storage, op: Op)
    requires Inv(s) && Legal(s, op)
    ensures Inv(Step(s, op))
    ensures s.truncatedIndex <= Step(s, op).truncatedIndex <= Step(s, op).appliedIndex
  {
    match op
    case Append(entries) => AppendInv(s, entries);
    case ApplyTo(index) => TermsKept(s, Step(s, op)); CompactedCacheSuffix(s, 0, Step(s, op));
    case CompactLog(i, term) => CompactInv(s, i, term);
    case GcBatch(firstKey, upTo) => GcInv(s, firstKey, upTo);
    case GcFailed => OnlyCompactedGone(s, Step(s, op));
    case CompactCache(idx) => CompactedCacheInv(s, idx);
    case MaybeGCCache(_, appliedIdx) => CompactedCacheInv(s, appliedIdx + 1);
  }

  /** Outside of appends only entries up to the truncated index go. */
  lemma StepDeletes(s: Storage, op: Op, i: nat)
    requires Inv(s) && !op.Append? && i in s.disk && i !in Step(s, op).disk
    ensures i <= s.truncatedIndex
  {
    assert s.gcTasks != [] ==> s.gcTasks[0].end <= s.truncatedIndex + 1;
  }

  /** Over every run of appends, applies, compactions, single batches of log GC and cache compactions: the
      truncated index never decreases and never passes the applied index, every entry behind it is on disk,
      and the cache is a bounded suffix of the log. */
  lemma {:induction false} RunInv(s: Storage, ops: seq<Op>)
    requires Inv(s) && LegalRun(s, ops)
    ensures var e := Run(s, ops);
      Inv(e) && s.truncatedIndex <= e.truncatedIndex <= e.appliedIndex <= e.lastIndex
    decreases |ops|
  {
    if ops != [] {
      StepInv(s, ops[0]);
      RunInv(Step(s, ops[0]), ops[1..]);
    }
  }

  // ---------------------------------------------------------------------------
  // What the log holds, and what the operations do to it
  // ---------------------------------------------------------------------------

  /** The log told by the appends alone: a later append replaces everything from its first index on. */
  function LogTold(log: Disk, ops: seq<Op>): Disk
    decreases |ops|
  {
    if ops == [] then log
    else
      var front, last := LogTold(log, ops[..|ops| - 1]), ops[|ops| - 1];
      if !last.Append? || last.entries == [] then front
      else PutAll(map i | i in front && i < last.entries[0].index :: front[i], last.entries)
  }

  ghost predicate HoldsLog(s: Storage, log: Disk) {
    forall i :: s.truncatedIndex < i <= s.lastIndex ==> i in s.disk && i in log && s.disk[i] == log[i]
  }

  lemma AppendHoldsLog(s: Storage, entries: seq<Entry>, log: Disk, s': Storage)
    requires Inv(s) && Legal(s, Append(entries)) && HoldsLog(s, log) && entries != []
    requires s' == Step(s, Append(entries))
    ensures HoldsLog(s', PutAll(map i | i in log && i < entries[0].index :: log[i], entries))
  {
    var before := map i | i in log && i < entries[0].index :: log[i];
    AppendDisk(s, entries, s');
    forall i | s'.truncatedIndex < i <= s'.lastIndex
      ensures i in s'.disk && i in PutAll(before, entries) && s'.disk[i] == PutAll(before, entries)[i]
    {
      assert AppendedAt(s, entries, s'.disk, i);
      PutAllContents(before, entries, i);
    }
  }

  lemma QuietHoldsLog(s: Storage, op: Op, log: Disk)
    requires Inv(s) && Legal(s, op) && HoldsLog(s, log) && !op.Append?
    ensures HoldsLog(Step(s, op), log)
  {
    forall i | i in s.disk && s.truncatedIndex < i ensures i in Step(s, op).disk {
      if i !in Step(s, op).disk { StepDeletes(s, op, i); }
    }
  }

  lemma {:induction false} RunSnocInv(s: Storage, ops: seq<Op>)
    requires Inv(s) && LegalRun(s, ops) && ops != []
    ensures var front, last := ops[..|ops| - 1], ops[|ops| - 1];
      LegalRun(s, front) && Legal(Run(s, front), last) && Run(s, ops) == Step(Run(s, front), last)
    decreases |ops|
  {
    if |ops| > 1 {
      StepInv(s, ops[0]);
      RunSnocInv(Step(s, ops[0]), ops[1..]);
      assert ops[..|ops| - 1][1..] == ops[1..][..|ops| - 2];
    }
  }

  /** Over every run: behind the truncated index the log holds what was appended there last. */
  lemma {:induction false} RunHoldsLog(s: Storage, ops: seq<Op>, log: Disk)
    requires Inv(s) && LegalRun(s, ops) && HoldsLog(s, log)
    ensures HoldsLog(Run(s, ops), LogTold(log, ops))
    decreases |ops|
  {
    if ops != [] {
      var front, last := ops[..|ops| - 1], ops[|ops| - 1];
      RunSnocInv(s, ops);
      RunInv(s, front);
      RunHoldsLog(s, front, log);
      if last.Append? && last.entries != [] {
        AppendHoldsLog(Run(s, front), last.entries, LogTold(log, front), Run(s, ops));
      } else if !last.Append? {
        QuietHoldsLog(Run(s, front), last, LogTold(log, front));
      }
    }
  }

  /** A compaction past the first entry and up to the applied index moves the truncated position, takes the
      compacted entries out of the cache and queues their deletion; any other is ignored. */
  lemma CompactionMeaning(s: Storage, index: nat, term: nat)
    requires Inv(s)
    ensures var s', accepted := Step(s, CompactLog(index, term)),
        s.truncatedIndex + 1 < index <= s.appliedIndex && term != 0;
      && (s'.truncatedIndex, s'.truncatedTerm) ==
        (if accepted then (index, term) else (s.truncatedIndex, s.truncatedTerm))
      && s'.gcTasks == s.gcTasks + (if accepted then [GcTask(s.lastCompactedIdx, index + 1)] else [])
      && s'.lastCompactedIdx == (if accepted then index + 1 else s.lastCompactedIdx)
      && s'.disk == s.disk && s'.appliedIndex == s.appliedIndex && s'.lastIndex == s.lastIndex
      && (forall e :: e in s'.cache <==> e in s.cache && (accepted ==> e.index > index))
  {
    CompactedFrom(s, index + 1);
  }

  /** The cached entries from an index on. */
  lemma CompactedFrom(s: Storage, idx: nat)
    requires Inv(s)
    ensures forall e :: e in CompactedCache(s.cache, idx) <==> e in s.cache && e.index >= idx
  {
    CacheContiguous(s);
    var c := CompactedCache(s.cache, idx);
    forall e | e in s.cache && e.index >= idx ensures e in c {
      var k :| 0 <= k < |s.cache| && s.cache[k] == e;
      assert c[k - (|s.cache| - |c|)] == e;
    }
  }

  /** Cached entries go once every follower has them, or has gone past what is cached. */
  lemma CacheGcMeaning(s: Storage, replicatedIdx: nat, appliedIdx: nat)
    requires Inv(s)
    ensures var s', goes := Step(s, MaybeGCCache(replicatedIdx, appliedIdx)),
        replicatedIdx == appliedIdx || (s.cache != [] && s.lastIndex + 1 - |s.cache| > replicatedIdx + 1);
      && s' == s.(cache := s'.cache)
      && (forall e :: e in s'.cache <==> e in s.cache && (goes ==> e.index > appliedIdx))
  {
    CompactedFrom(s, appliedIdx + 1);
    CacheContiguous(s);
  }

  ghost predicate InQueue(s: Storage, i: nat) {
    exists k :: 0 <= k < |s.gcTasks| && s.gcTasks[k].start <= i < s.gcTasks[k].end
  }

  /** Every compacted entry that is still on disk waits for a queued deletion. */
  ghost predicate NoneForgotten(s: Storage) {
    && (s.lastCompactedIdx == 0 || s.lastCompactedIdx == s.truncatedIndex + 1)
    && (forall i :: i in s.disk && i < s.lastCompactedIdx ==> InQueue(s, i))
  }

  /** The deletions are written, and a seek for the first key finds it. */
  ghost predicate Collects(s: Storage, op: Op) {
    && !op.GcFailed?
    && (op.GcBatch? && s.gcTasks != [] && s.gcTasks[0].start == 0 ==> forall i :: i in s.disk ==> op.firstKey <= i)
  }

  ghost predicate CollectingRun(s: Storage, ops: seq<Op>)
    decreases |ops|
  {
    ops == [] || (Collects(s, ops[0]) && CollectingRun(Step(s, ops[0]), ops[1..]))
  }

  lemma BatchForgetsNone(s: Storage, op: Op)
    requires Inv(s) && NoneForgotten(s) && op.GcBatch? && Collects(s, op)
    ensures NoneForgotten(Step(s, op))
  {
    var s' := Step(s, op);
    forall i | i in s'.disk && i < s'.lastCompactedIdx ensures InQueue(s', i) {
      assert InQueue(s, i);
      var k :| 0 <= k < |s.gcTasks| && s.gcTasks[k].start <= i < s.gcTasks[k].end;
      var shift := |s.gcTasks| - |s'.gcTasks|;
      if k > 0 {
        assert s'.gcTasks[k - shift] == s.gcTasks[k];
      } else {
        assert s'.gcTasks[0].start <= i < s'.gcTasks[0].end;
      }
    }
  }

  lemma CompactForgetsNone(s: Storage, op: Op)
    requires Inv(s) && NoneForgotten(s) && op.CompactLog?
    ensures NoneForgotten(Step(s, op))
  {
    var s' := Step(s, op);
    if s' != s {
      forall i | i in s'.disk && i < s'.lastCompactedIdx ensures InQueue(s', i) {
        if i < s.lastCompactedIdx {
          assert InQueue(s, i);
          var k :| 0 <= k < |s.gcTasks| && s.gcTasks[k].start <= i < s.gcTasks[k].end;
          assert s'.gcTasks[k] == s.gcTasks[k];
        } else {
          assert s'.gcTasks[|s.gcTasks|].start <= i < s'.gcTasks[|s.gcTasks|].end;
        }
      }
    }
  }

  lemma AppendForgetsNone(s: Storage, op: Op)
    requires Inv(s) && NoneForgotten(s) && op.Append? && Legal(s, op)
    ensures NoneForgotten(Step(s, op))
  {
    var s' := Step(s, op);
    if op.entries != [] {
      AppendDisk(s, op.entries, s');
      forall i | i in s'.disk && i < s'.lastCompactedIdx ensures InQueue(s', i) {
        assert AppendedAt(s, op.entries, s'.disk, i);
        assert InQueue(s, i);
      }
    }
  }

  lemma QueueKept(s: Storage, s': Storage)
    requires NoneForgotten(s) && s'.gcTasks == s.gcTasks && s'.disk == s.disk
    requires s'.lastCompactedIdx == s.lastCompactedIdx && s'.truncatedIndex == s.truncatedIndex
    ensures NoneForgotten(s')
  {
    forall i | InQueue(s, i) ensures InQueue(s', i) {}
  }

  lemma StepForgetsNone(s: Storage, op: Op)
    requires Inv(s) && Legal(s, op) && NoneForgotten(s) && Collects(s, op)
    ensures NoneForgotten(Step(s, op))
  {
    match op
    case Append(_) => AppendForgetsNone(s, op);
    case CompactLog(_, _) => CompactForgetsNone(s, op);
    case GcBatch(_, _) => BatchForgetsNone(s, op);
    case _ => if !op.GcFailed? { QueueKept(s, Step(s, op)); }
  }

  /** Over every run whose deletions are written: a compacted entry is gone or waits for its deletion, so once
      the queue is empty nothing before the last compaction is left on disk. */
  lemma {:induction false} RunForgetsNone(s: Storage, ops: seq<Op>)
    requires Inv(s) && LegalRun(s, ops) && NoneForgotten(s) && CollectingRun(s, ops)
    ensures NoneForgotten(Run(s, ops))
    ensures var e := Run(s, ops);
      e.gcTasks == [] && e.lastCompactedIdx != 0 ==>
        forall i :: i in e.disk <==> e.truncatedIndex < i <= e.lastIndex
    decreases |ops|
  {
    if ops != [] {
      StepInv(s, ops[0]);
      StepForgetsNone(s, ops[0]);
      RunForgetsNone(Step(s, ops[0]), ops[1..]);
    } else {
      assert s.gcTasks == [] ==> forall i :: !InQueue(s, i);
    }
  }

  lemma InitialInv()
    ensures Inv(Initial())
  {
  }

  // ---------------------------------------------------------------------------
  // Reads
  // ---------------------------------------------------------------------------

  lemma CacheContiguous(s: Storage)
    requires Inv(s)
    ensures Contiguous(s.cache) && Positive(s.cache)
    ensures s.cache != [] ==> s.cache[0].index == s.lastIndex + 1 - |s.cache|
  {
    forall k | 0 <= k < |s.cache| ensures s.cache[k].index == s.lastIndex + 1 - |s.cache| + k && s.cache[k].size > 0 {
      assert CachedRight(s, k);
    }
  }

  /** The cache holds the end of any slice that starts in it. */
  lemma CacheSlice(s: Storage, low: nat, high: nat)
    requires Inv(s) && s.cache != [] &&
      s.cache[0].index == s.lastIndex + 1 - |s.cache| <= low <= high <= s.lastIndex + 1
    ensures Present(s.disk, low, high)
    ensures s.cache[low - s.cache[0].index..high - s.cache[0].index] == Slice(s.disk, low, high)
  {
    var part := s.cache[low - s.cache[0].index..high - s.cache[0].index];
    forall k | 0 <= k < |part| ensures part[k] == Slice(s.disk, low, high)[k] {
      assert CachedRight(s, low - s.cache[0].index + k);
    }
  }

  ghost predicate Fits(s: Storage, entries: seq<Entry>) {
    entries == [] || s.cache == [] || entries[0].index <= s.cache[0].index + |s.cache|
  }

  /** A legal append starts inside the cache or right behind it. */
  lemma NoHole(s: Storage, entries: seq<Entry>)
    requires Inv(s) && Legal(s, Append(entries)) && entries != []
    ensures Contiguous(s.cache) && Contiguous(entries) && Fits(s, entries)
  {
    CacheContiguous(s);
  }

  lemma SliceJoin(disk: Disk, low: nat, mid: nat, high: nat)
    requires low <= mid <= high && Present(disk, low, high)
    ensures Slice(disk, low, mid) + Slice(disk, mid, high) == Slice(disk, low, high)
  {
  }

  /** A disk read whose entries are all present stops within the limit. */
  lemma FetchedPresent(disk: Disk, low: nat, high: nat, maxSize: nat, r: Result<seq<Entry>>, total: nat)
    requires Keyed(disk) && low < high && Present(disk, low, high) && Fetched(disk, low, high, maxSize, r, total)
    ensures r.Ok? && IsLimited(Slice(disk, low, high), maxSize, r.value)
    ensures total <= maxSize ==> r.value == Slice(disk, low, high) && total == Size(r.value)
    ensures total > maxSize ==> Size(Slice(disk, low, high)) > maxSize
  {
    StopExists(disk, low, high, high, maxSize);
    var n: nat :| StopsAt(disk, low, high, maxSize, n) && total == Size(Slice(disk, low, n)) &&
      IsLimited(Slice(disk, low, n), maxSize, r.value);
    var s := Slice(disk, low, n);
    if total > maxSize {
      SliceJoin(disk, low, n, high);
      LimitedExtends(s, maxSize, r.value, Slice(disk, n, high));
      SizePrefix(Slice(disk, low, high), n - low);
      assert Slice(disk, low, high)[..n - low] == s;
    } else {
      LimitedWhole(s, maxSize, r.value);
    }
  }

  lemma {:induction false} StopExists(disk: Disk, low: nat, high: nat, n: nat, maxSize: nat)
    requires low < n <= high && Present(disk, low, n)
    requires n == high || Size(Slice(disk, low, n)) > maxSize
    ensures exists m: nat :: StopsAt(disk, low, high, maxSize, m)
    decreases n
  {
    if Size(Slice(disk, low, n - 1)) <= maxSize {
      assert StopsAt(disk, low, high, maxSize, n);
    } else {
      assert Slice(disk, low, low) == [];
      StopExists(disk, low, high, n - 1, maxSize);
    }
  }

  /** The wanted range lies before the cache. */
  method ReadDisk(ghost s: Storage, disk: Disk, low: nat, high: nat, maxSize: nat) returns (r: Result<seq<Entry>>)
    requires Inv(s) && disk == s.disk && s.truncatedIndex < low < high <= s.lastIndex + 1
    ensures r.Ok? && IsLimited(Slice(s.disk, low, high), maxSize, r.value)
  {
    var total;
    r, total := FetchEntriesTo(disk, low, high, maxSize);
    FetchedPresent(disk, low, high, maxSize, r, total);
  }

  /** The part of a read before the cache: either it exceeds the limit, or it is complete. */
  method ReadFront(ghost s: Storage, disk: Disk, low: nat, cacheLow: nat, ghost high: nat, maxSize: nat)
    returns (ents: seq<Entry>, fetchedSize: nat)
    requires Inv(s) && disk == s.disk && s.truncatedIndex < low < cacheLow < high <= s.lastIndex + 1
    ensures fetchedSize > maxSize ==> IsLimited(Slice(s.disk, low, high), maxSize, ents)
    ensures fetchedSize <= maxSize ==> ents == Slice(s.disk, low, cacheLow) && fetchedSize == Size(ents)
  {
    var fetched;
    fetched, fetchedSize := FetchEntriesTo(disk, low, cacheLow, maxSize);
    FetchedPresent(disk, low, cacheLow, maxSize, fetched, fetchedSize);
    ents := fetched.value;
    if fetchedSize > maxSize {
      SliceJoin(disk, low, cacheLow, high);
      LimitedExtends(Slice(disk, low, cacheLow), maxSize, ents, Slice(disk, cacheLow, high));
    }
  }

  lemma TailLimited(s: Storage, low: nat, beginIdx: nat, high: nat, maxSize: nat, ents: seq<Entry>, r: seq<Entry>)
    requires Inv(s) && s.truncatedIndex < low <= beginIdx < high <= s.lastIndex + 1
    requires s.cache != [] && s.cache[0].index == s.lastIndex + 1 - |s.cache| <= beginIdx
    requires ents == Slice(s.disk, low, beginIdx)
    requires IsLimited(ents + s.cache[beginIdx - s.cache[0].index..high - s.cache[0].index], maxSize, r)
    ensures IsLimited(Slice(s.disk, low, high), maxSize, r)
  {
    CacheSlice(s, beginIdx, high);
    SliceJoin(s.disk, low, beginIdx, high);
  }

  lemma SlicePositive(disk: Disk, low: nat, high: nat)
    requires Keyed(disk) && low <= high && Present(disk, low, high)
    ensures Positive(Slice(disk, low, high))
  {
  }

  /** The wanted range reaches into the cache. */
  method ReadAcross(ghost s: Storage, disk: Disk, entryCache: EntryCache, low: nat, high: nat, maxSize: nat)
    returns (ents: seq<Entry>)
    requires Inv(s) && disk == s.disk && s.truncatedIndex < low < high <= s.lastIndex + 1
    requires entryCache.cache == s.cache && s.cache != [] && Contiguous(s.cache) && Positive(s.cache)
    requires s.cache[0].index == s.lastIndex + 1 - |s.cache| < high
    ensures IsLimited(Slice(s.disk, low, high), maxSize, ents)
  {
    var cacheLow := entryCache.cache[0].index;
    var fetchedSize: nat, beginIdx := 0, low;
    ents := [];
    if low < cacheLow {
      ents, fetchedSize := ReadFront(s, disk, low, cacheLow, high, maxSize);
      if fetchedSize > maxSize {
        return;
      }
      beginIdx := cacheLow;
    }
    SlicePositive(disk, low, beginIdx);
    var r := entryCache.FetchEntriesTo(beginIdx, high, maxSize, fetchedSize, ents);
    TailLimited(s, low, beginIdx, high, maxSize, ents, r);
    ents := r;
  }

  // ---------------------------------------------------------------------------
  // The storage object
  // ---------------------------------------------------------------------------

  class PeerStore {
    var disk: Disk
    const entryCache: EntryCache
    var lastIndex: nat
    var lastTerm: nat
    var appliedIndex: nat
    var truncatedIndex: nat
    var truncatedTerm: nat
    var lastCompactedIdx: nat
    var gcTasks: seq<GcTask>

    ghost function View(): Storage
      reads this, entryCache
    {
      Storage(disk, entryCache.cache, lastIndex, lastTerm, appliedIndex, truncatedIndex, truncatedTerm,
        lastCompactedIdx, gcTasks)
    }

    constructor ()
      ensures View() == Initial() && fresh(entryCache)
    {
      disk := map[];
      entryCache := new EntryCache();
      lastIndex, lastTerm, appliedIndex, truncatedIndex, truncatedTerm := 5, 5, 5, 5, 5;
      lastCompactedIdx, gcTasks := 0, [];
    }

    function CheckRange(low: nat, high: nat): Result<()>
      reads this
    {
      if low > high then Err(InvalidRange)
      else if low <= truncatedIndex then Err(Compacted)
      else if high > lastIndex + 1 then Err(OutOfBound)
      else Ok(())
    }

    /** A read of [low, high) fails exactly for ranges outside the log, and otherwise returns the longest
        prefix within `maxSize`, at least one entry, wherever the entries come from. */
    method Entries(low: nat, high: nat, maxSize: nat) returns (r: Result<seq<Entry>>)
      requires Inv(View())
      ensures r.Err? <==> low > high || low <= truncatedIndex || high > lastIndex + 1
      ensures r.Err? ==> r.error == CheckRange(low, high).error
      ensures r.Ok? ==> IsLimited(Slice(disk, low, high), maxSize, r.value)
    {
      var check := CheckRange(low, high);
      if check.Err? {
        return Err(check.error);
      }
      if low == high {
        return Ok([]);
      }
      CacheContiguous(View());
      if |entryCache.cache| == 0 || high <= entryCache.cache[0].index {
        r := ReadDisk(View(), disk, low, high, maxSize);
      } else {
        var ents := ReadAcross(View(), disk, entryCache, low, high, maxSize);
        r := Ok(ents);
      }
    }

    /** The term lookup agrees with the log everywhere, including where it reads no entry. */
    method Term(idx: nat) returns (r: Result<nat>)
      requires Inv(View())
      ensures truncatedIndex <= idx <= lastIndex ==> r == Ok(TermAt(View(), idx))
      ensures idx < truncatedIndex ==> r == Err(Compacted)
      ensures idx > lastIndex ==> r == Err(OutOfBound)
    {
      if idx == truncatedIndex {
        return Ok(truncatedTerm);
      }
      var check := CheckRange(idx, idx + 1);
      if check.Err? {
        return Err(check.error);
      }
      assert TermAt(View(), truncatedIndex) <= TermAt(View(), idx) <= TermAt(View(), lastIndex);
      if truncatedTerm == lastTerm || idx == lastIndex {
        return Ok(lastTerm);
      }
      var entries := Entries(idx, idx + 1, 0xffff_ffff_ffff_ffff);
      r := Ok(entries.value[0].term);
    }

    /** `Append` followed by the successful write of its batch; it fails exactly when it leaves a hole
        behind the cache, which `NoHole` rules out. */
    method Append(entries: seq<Entry>) returns (ok: bool)
      requires Contiguous(entryCache.cache) && Contiguous(entries)
      modifies this, entryCache
      ensures ok <==> Fits(old(View()), entries)
      ensures ok ==> View() == Step(old(View()), Op.Append(entries))
    {
      if |entries| == 0 {
        return true;
      }
      var back := entries[|entries| - 1];
      ok := entryCache.Append(entries);
      if ok {
        disk := DeleteRange(PutAll(disk, entries), back.index + 1, lastIndex + 1);
        lastIndex, lastTerm := back.index, back.term;
      }
    }

    method CompactTo(idx: nat)
      requires Contiguous(entryCache.cache)
      modifies entryCache
      ensures View() == DoCompactCache(old(View()), idx)
    {
      entryCache.CompactTo(idx);
    }

    method MaybeGCCache(replicatedIdx: nat, appliedIdx: nat)
      requires Contiguous(entryCache.cache)
      modifies entryCache
      ensures View() == DoMaybeGCCache(old(View()), replicatedIdx, appliedIdx)
    {
      if replicatedIdx == appliedIdx {
        CompactTo(appliedIdx + 1);
      } else {
        if |entryCache.cache| == 0 {
          return;
        }
        if entryCache.cache[0].index > replicatedIdx + 1 {
          CompactTo(appliedIdx + 1);
        }
      }
    }

    /** A CompactLog command taking effect: `CompactRaftLog` on the apply state, then the cache and a GC task. */
    method CompactLog(compactIndex: nat, compactTerm: nat)
      requires Contiguous(entryCache.cache)
      modifies this, entryCache
      ensures View() == Step(old(View()), Op.CompactLog(compactIndex, compactTerm))
    {
      var firstIndex := truncatedIndex + 1;
      if compactIndex <= firstIndex || compactTerm == 0 {
        return;
      }
      if compactIndex <= truncatedIndex || compactIndex > appliedIndex {
        return;
      }
      truncatedIndex, truncatedTerm := compactIndex, compactTerm;
      gcTasks := gcTasks + [GcTask(lastCompactedIdx, truncatedIndex + 1)];
      lastCompactedIdx := truncatedIndex + 1;
      entryCache.CompactTo(truncatedIndex + 1);
    }

    /** The GC worker writes one batch of its task and is then free to be interrupted. */
    method WriteGcBatch(firstKey: nat, maxBatchSize: nat) returns (ghost upTo: nat)
      requires gcTasks != []
      modifies `disk, `gcTasks
      ensures View() == Step(old(View()), GcBatch(firstKey, upTo))
      ensures var task := old(gcTasks[0]);
        var first := GcFirst(task, firstKey);
        first < task.end ==> IsBatch(first, task.end, maxBatchSize, upTo)
    {
      var task := gcTasks[0];
      var first := GcFirst(task, firstKey);
      upTo := task.end;
      var next := task.end;
      if first < task.end {
        next := FillBatch(first, task.end, maxBatchSize);
        upTo := next;
      }
      disk := DeleteRange(disk, first, next);
      gcTasks := if next < task.end then [GcTask(next, task.end)] + gcTasks[1..] else gcTasks[1..];
    }

    /**
     `gcRaftLog`: the oldest task as a run of batches, with nothing in between. Whatever the threshold, they delete
     exactly its range. `firstKey` is where the seek for the first log key lands, if anywhere.
     */
    method GcRaftLog(firstKey: nat, maxBatchSize: nat) returns (collected: nat, ghost ops: seq<Op>)
      requires gcTasks != []
      modifies `disk, `gcTasks
      ensures View() == Run(old(View()), ops) && forall k :: 0 <= k < |ops| ==> ops[k].GcBatch?
      ensures gcTasks == old(gcTasks[1..])
      ensures var task := old(gcTasks[0]);
        var first := GcFirst(task, firstKey);
        && disk == DeleteRange(old(disk), first, task.end)
        && collected == if first >= task.end then 0 else task.end - first
    {
      var task, left := gcTasks[0], |gcTasks| - 1;
      var first := GcFirst(task, firstKey);
      ghost var idx := first;
      ops := [];
      assert DeleteRange(disk, first, first) == disk;
      var more := true;
      while more
        invariant first <= idx && (idx < task.end || idx == first)
        invariant if more then InTask(gcTasks, old(gcTasks), firstKey, idx) else gcTasks == old(gcTasks[1..])
        invariant disk == DeleteRange(old(disk), first, if more then idx else task.end)
        invariant View() == Run(old(View()), ops) && forall k :: 0 <= k < |ops| ==> ops[k].GcBatch?
        decreases more, task.end - idx
      {
        ghost var upTo := WriteGcBatch(firstKey, maxBatchSize);
        RunSnoc(old(View()), ops, GcBatch(firstKey, upTo));
        DeletedUpTo(old(disk), first, idx, upTo, task.end);
        ops := ops + [GcBatch(firstKey, upTo)];
        more := |gcTasks| > left;
        if more { idx := upTo; }
      }
      collected := if first >= task.end then 0 else task.end - first;
    }
  }

  /** The first task is what is left of the first one before, from `idx` on. */
  ghost predicate InTask(now: seq<GcTask>, before: seq<GcTask>, firstKey: nat, idx: nat) {
    && |now| == |before| > 0 && now[1..] == before[1..]
    && now[0].end == before[0].end && GcFirst(now[0], firstKey) == idx
  }

  lemma DeletedUpTo(d: Disk, first: nat, idx: nat, upTo: nat, end: nat)
    requires first <= idx && (idx < end || idx == first) && (idx < end ==> idx < upTo <= end)
    ensures idx < end ==> DeleteRange(DeleteRange(d, first, idx), idx, upTo) == DeleteRange(d, first, upTo)
    ensures idx >= end ==> DeleteRange(DeleteRange(d, first, idx), idx, end) == DeleteRange(d, first, end)
  {
  }

  lemma {:induction false} RunSnoc(s: Storage, ops: seq<Op>, op: Op)
    ensures Run(s, ops + [op]) == Step(Run(s, ops), op)
    decreases |ops|
  {
    if ops == [] {
      assert ops + [op] == [op] && [op][1..] == [];
    } else {
      RunSnoc(Step(s, ops[0]), ops[1..], op);
      assert (ops + [op])[1..] == ops[1..] + [op];
    }
  }

  // ---------------------------------------------------------------------------
  // Batched log GC
  // ---------------------------------------------------------------------------

  const LOG_KEY_LEN := 27  // prefix, region, suffix and index, plus the version

  lemma DeleteRangeJoin(d: Disk, low: nat, mid: nat, high: nat)
    requires low <= mid <= high
    ensures DeleteRange(DeleteRange(d, low, mid), mid, high) == DeleteRange(d, low, high)
  {
  }

  /** Where a batch that starts at `first` ends: at its first key that fills it, or with the range. */
  ghost predicate IsBatch(first: nat, endIdx: nat, maxBatchSize: nat, upTo: nat) {
    && first < upTo <= endIdx
    && (upTo == endIdx || (upTo - first) * LOG_KEY_LEN >= maxBatchSize)
    && (upTo == first + 1 || (upTo - 1 - first) * LOG_KEY_LEN < maxBatchSize)
  }

  /** Fills one batch with deletions. */
  method FillBatch(first: nat, endIdx: nat, maxBatchSize: nat) returns (upTo: nat)
    requires first < endIdx
    ensures IsBatch(first, endIdx, maxBatchSize, upTo)
  {
    var size := LOG_KEY_LEN;
    upTo := first + 1;
    while upTo < endIdx && size < maxBatchSize
      invariant first < upTo <= endIdx && size == (upTo - first) * LOG_KEY_LEN
      invariant upTo == first + 1 || (upTo - 1 - first) * LOG_KEY_LEN < maxBatchSize
    {
      upTo, size := upTo + 1, size + LOG_KEY_LEN;
    }
  }
}
