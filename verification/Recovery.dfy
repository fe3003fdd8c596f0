/**
 Crash recovery of a peer whose state is spread over two engines that are written one after the other
 (raftstore/peer_storage.go, raftstore/peer_worker.go). The region is initialized and already has a
 raft state record.
 */
module Recovery {
  import opened Options
  import opened RaftLog
  import opened DiskLog
  import opened PeerStorage

  datatype RaftState = RaftState(term: nat, vote: nat, commit: nat, lastIndex: nat)

  datatype ApplyState = ApplyState(appliedIndex: nat, truncatedIndex: nat, truncatedTerm: nat)

  datatype PeerStatus = Normal | Applying

  /** The region's keys in the kv engine and in the raft engine. */
  datatype Kv = Kv(region: Option<PeerStatus>, apply: Option<ApplyState>, snapRaftState: Option<RaftState>)

  datatype RaftDb = RaftDb(state: Option<RaftState>, log: Disk)

  // ---------------------------------------------------------------------------
  // Write batches
  // ---------------------------------------------------------------------------

  datatype KvPut = SetRegion(PeerStatus) | DelRegion | SetApply(ApplyState) | DelApply | SetSnapRaftState(RaftState)

  datatype RaftPut = SetEntry(e: Entry) | DelEntry(index: nat) | SetState(RaftState) | DelState

  function PutKv(kv: Kv, p: KvPut): Kv {
    match p
    case SetRegion(status) => kv.(region := Some(status))
    case DelRegion => kv.(region := None)
    case SetApply(a) => kv.(apply := Some(a))
    case DelApply => kv.(apply := None)
    case SetSnapRaftState(r) => kv.(snapRaftState := Some(r))
  }

  function WriteKv(kv: Kv, wb: seq<KvPut>): Kv {
    if wb == [] then kv else PutKv(WriteKv(kv, wb[..|wb| - 1]), wb[|wb| - 1])
  }

  function PutRaft(db: RaftDb, p: RaftPut): RaftDb {
    match p
    case SetEntry(e) => db.(log := db.log[e.index := e])
    case DelEntry(i) => db.(log := db.log - {i})
    case SetState(r) => db.(state := Some(r))
    case DelState => db.(state := None)
  }

  function WriteRaft(db: RaftDb, wb: seq<RaftPut>): RaftDb {
    if wb == [] then db else PutRaft(WriteRaft(db, wb[..|wb| - 1]), wb[|wb| - 1])
  }

  lemma WriteKvSnoc(kv: Kv, wb: seq<KvPut>, p: KvPut)
    ensures WriteKv(kv, wb + [p]) == PutKv(WriteKv(kv, wb), p)
  {
    assert (wb + [p])[..|wb|] == wb;
  }

  lemma WriteRaftSnoc(db: RaftDb, wb: seq<RaftPut>, p: RaftPut)
    ensures WriteRaft(db, wb + [p]) == PutRaft(WriteRaft(db, wb), p)
  {
    assert (wb + [p])[..|wb|] == wb;
  }

  lemma {:induction false} WriteRaftJoin(db: RaftDb, a: seq<RaftPut>, b: seq<RaftPut>)
    ensures WriteRaft(db, a + b) == WriteRaft(WriteRaft(db, a), b)
  {
    if b == [] {
      assert a + b == a;
    } else {
      WriteRaftJoin(db, a, b[..|b| - 1]);
      assert (a + b)[..|a + b| - 1] == a + b[..|b| - 1];
    }
  }

  /** Deletions of [low, high), in order. */
  function DelEntries(low: nat, high: nat): seq<RaftPut>
  {
    if low >= high then [] else DelEntries(low, high - 1) + [DelEntry(high - 1)]
  }

  function SetEntries(entries: seq<Entry>): seq<RaftPut> {
    if entries == [] then [] else SetEntries(entries[..|entries| - 1]) + [SetEntry(entries[|entries| - 1])]
  }

  lemma DeleteRangeSnoc(d: Disk, low: nat, high: nat)
    requires low <= high
    ensures DeleteRange(d, low, high) - {high} == DeleteRange(d, low, high + 1)
  {
  }

  lemma DeleteNothing(d: Disk, low: nat, high: nat)
    requires low >= high
    ensures DeleteRange(d, low, high) == d
  {
  }

  lemma {:induction false} WriteDelEntries(db: RaftDb, low: nat, high: nat)
    ensures WriteRaft(db, DelEntries(low, high)) == db.(log := DeleteRange(db.log, low, high))
  {
    if low < high {
      WriteDelEntries(db, low, high - 1);
      WriteRaftSnoc(db, DelEntries(low, high - 1), DelEntry(high - 1));
      DeleteRangeSnoc(db.log, low, high - 1);
    } else {
      DeleteNothing(db.log, low, high);
    }
  }

  lemma {:induction false} WriteSetEntries(db: RaftDb, entries: seq<Entry>)
    ensures WriteRaft(db, SetEntries(entries)) == db.(log := PutAll(db.log, entries))
  {
    if entries != [] {
      WriteSetEntries(db, entries[..|entries| - 1]);
      WriteRaftSnoc(db, SetEntries(entries[..|entries| - 1]), SetEntry(entries[|entries| - 1]));
    }
  }

  // ---------------------------------------------------------------------------
  // Saving a Ready
  // ---------------------------------------------------------------------------

  datatype Snapshot = Snapshot(index: nat, term: nat)

  datatype HardState = HardState(term: nat, vote: nat, commit: nat)

  datatype Ready = Ready(snapshot: Option<Snapshot>, entries: seq<Entry>, hardState: Option<HardState>)

  /** The in-memory part of `PeerStorage`, and `InvokeContext`. */
  datatype Mem = Mem(raft: RaftState, apply: ApplyState, lastTerm: nat)

  datatype Saved = Saved(ctx: Mem, kvWB: seq<KvPut>, raftWB: seq<RaftPut>)

  /** `ClearMeta`: `firstIndex` is the first log key found in the engine. */
  function ClearMetaRaft(firstIndex: nat, lastIndex: nat): seq<RaftPut> {
    DelEntries(firstIndex, lastIndex + 1) + [DelState]
  }

  function SnapshotSaved(ctx: Mem, snap: Snapshot, firstIndex: nat): Saved {
    Saved(ctx.(raft := ctx.raft.(lastIndex := snap.index), lastTerm := snap.term,
               apply := ApplyState(snap.index, snap.index, snap.term)),
          [DelRegion, DelApply, SetRegion(Applying)],
          ClearMetaRaft(firstIndex, ctx.raft.lastIndex))
  }

  function AppendEntries(saved: Saved, entries: seq<Entry>): Saved {
    if entries == [] then saved
    else
      var back := entries[|entries| - 1];
      saved.(raftWB := saved.raftWB + SetEntries(entries) + DelEntries(back.index + 1, saved.ctx.raft.lastIndex + 1),
             ctx := saved.ctx.(raft := saved.ctx.raft.(lastIndex := back.index), lastTerm := back.term))
  }

  function SaveHardState(saved: Saved, hs: Option<HardState>): Saved {
    if saved.ctx.raft.lastIndex > 0 && hs.Some?
    then
      var raft := saved.ctx.raft.(commit := hs.value.commit, term := hs.value.term, vote := hs.value.vote);
      saved.(ctx := saved.ctx.(raft := raft))
    else saved
  }

  /** `SaveReadyState` up to the hard state: snapshot, entries, hard state. */
  function Prepare(mem: Mem, ready: Ready, firstIndex: nat): Saved {
    var s0 := if ready.snapshot.Some? then SnapshotSaved(mem, ready.snapshot.value, firstIndex) else Saved(mem, [], []);
    SaveHardState(AppendEntries(s0, ready.entries), ready.hardState)
  }

  /** `SaveReadyState`: fills the two batches, changes nothing else. */
  function ReadySaved(mem: Mem, ready: Ready, firstIndex: nat): Saved {
    var s1 := Prepare(mem, ready, firstIndex);
    var snapshotIdx := if ready.snapshot.Some? then ready.snapshot.value.index else 0;
    var s2 :=
      if s1.ctx.raft != mem.raft then
        s1.(raftWB := s1.raftWB + [SetState(s1.ctx.raft)],
            kvWB := if snapshotIdx > 0
                    then s1.kvWB + [SetSnapRaftState(s1.ctx.raft.(commit := snapshotIdx, lastIndex := snapshotIdx))]
                    else s1.kvWB)
      else s1;
    if s2.ctx.apply != mem.apply then s2.(kvWB := s2.kvWB + [SetApply(s2.ctx.apply)]) else s2
  }

  // ---------------------------------------------------------------------------
  // Recovery
  // ---------------------------------------------------------------------------

  /** `recoverFromApplyingState`, run for regions whose persisted status is Applying. */
  function RecoverApplying(kv: Kv, db: RaftDb): RaftDb {
    if kv.region == Some(Applying) && kv.snapRaftState.Some? && db.state.Some?
       && kv.snapRaftState.value.lastIndex > db.state.value.lastIndex
    then WriteRaft(db, [SetState(kv.snapRaftState.value)])
    else db
  }

  datatype Opened = Opened(mem: Mem) | Panicked | LostEntry

  const RAFT_INIT_LOG_INDEX := 5
  const RAFT_INIT_LOG_TERM := 5

  /** `NewPeerStorage` with `initLastTerm`. */
  function Open(kv: Kv, db: RaftDb): Opened
    requires kv.apply.Some? && db.state.Some?
  {
    var raft, apply := db.state.value, kv.apply.value;
    if raft.lastIndex < apply.appliedIndex then Panicked
    else if raft.lastIndex == 0 then Opened(Mem(raft, apply, 0))
    else if raft.lastIndex == RAFT_INIT_LOG_INDEX then Opened(Mem(raft, apply, RAFT_INIT_LOG_TERM))
    else if raft.lastIndex == apply.truncatedIndex then Opened(Mem(raft, apply, apply.truncatedTerm))
    else if raft.lastIndex < RAFT_INIT_LOG_INDEX then Panicked
    else if raft.lastIndex !in db.log then LostEntry
    else Opened(Mem(raft, apply, db.log[raft.lastIndex].term))
  }

  // ---------------------------------------------------------------------------
  // What holds on disk
  // ---------------------------------------------------------------------------

  /** Index bookkeeping and log agree: nothing of (truncatedIndex, lastIndex] is missing. */
  ghost predicate Consistent(apply: ApplyState, lastIndex: nat, log: Disk) {
    && Keyed(log)
    && RAFT_INIT_LOG_INDEX <= apply.truncatedIndex <= apply.appliedIndex <= lastIndex
    && (apply.truncatedIndex == RAFT_INIT_LOG_INDEX ==> apply.truncatedTerm == RAFT_INIT_LOG_TERM)
    && Present(log, apply.truncatedIndex + 1, lastIndex + 1)
    && (forall i :: i in log ==> i <= lastIndex)
  }

  /** The snapshot's records are in the kv engine, the raft engine still lags behind the snapshot. */
  ghost predicate SnapshotAhead(kv: Kv, lastIndex: nat, log: Disk)
    requires kv.apply.Some? && kv.snapRaftState.Some?
  {
    var snapIndex := kv.snapRaftState.value.lastIndex;
    && lastIndex < snapIndex && RAFT_INIT_LOG_INDEX < snapIndex
    && kv.apply.value.appliedIndex == kv.apply.value.truncatedIndex == snapIndex
    && Keyed(log) && (forall i :: i in log ==> i <= snapIndex)
  }

  /** What a crash may leave on disk. */
  ghost predicate Recoverable(kv: Kv, db: RaftDb) {
    && kv.region.Some? && kv.apply.Some? && db.state.Some?
    && (kv.region == Some(Applying) ==> kv.snapRaftState.Some?)
    && var lastIndex := db.state.value.lastIndex;
       || (Consistent(kv.apply.value, lastIndex, db.log)
           && (kv.region == Some(Applying) ==> kv.snapRaftState.value.lastIndex <= lastIndex))
       || (kv.region == Some(Applying) && SnapshotAhead(kv, lastIndex, db.log))
  }

  /** A running peer: memory mirrors the raft engine; its apply state may lag behind the kv engine. */
  datatype World = World(kv: Kv, db: RaftDb, mem: Mem)

  ghost function TermOfLast(apply: ApplyState, lastIndex: nat, log: Disk): nat {
    if lastIndex == apply.truncatedIndex || lastIndex !in log then apply.truncatedTerm else log[lastIndex].term
  }

  ghost predicate Good(w: World) {
    && w.kv.region.Some? && w.kv.apply.Some? && w.db.state == Some(w.mem.raft)
    && Consistent(w.kv.apply.value, w.mem.raft.lastIndex, w.db.log)
    && (w.kv.region == Some(Applying) ==>
          w.kv.snapRaftState.Some? && w.kv.snapRaftState.value.lastIndex <= w.mem.raft.lastIndex
          && w.kv.snapRaftState.value.lastIndex <= w.kv.apply.value.appliedIndex)
    && w.mem.apply.truncatedIndex <= w.kv.apply.value.truncatedIndex
    && w.mem.lastTerm == TermOfLast(w.kv.apply.value, w.mem.raft.lastIndex, w.db.log)
  }

  /** Recovering succeeds: the index check passes, no entry is lost, memory is right. */
  lemma RecoverySucceeds(kv: Kv, db: RaftDb)
    requires Recoverable(kv, db)
    ensures var db' := RecoverApplying(kv, db);
      && db'.state.Some?
      && Open(kv, db').Opened?
      && Open(kv, db').mem.raft == db'.state.value
      && Consistent(kv.apply.value, db'.state.value.lastIndex, db'.log)
      && Open(kv, db').mem.apply == kv.apply.value
      && Open(kv, db').mem.lastTerm == TermOfLast(kv.apply.value, db'.state.value.lastIndex, db'.log)
      && (kv.region == Some(Applying) ==> kv.snapRaftState.value.lastIndex <= db'.state.value.lastIndex)
  {
    if kv.snapRaftState.Some? {
      WriteRaftSnoc(db, [], SetState(kv.snapRaftState.value));
      assert [] + [SetState(kv.snapRaftState.value)] == [SetState(kv.snapRaftState.value)];
    }
  }

  // ---------------------------------------------------------------------------
  // Everything that happens to a peer
  // ---------------------------------------------------------------------------

  datatype CrashPoint = BeforeWrites | BetweenWrites | AfterWrites

  datatype Event =
    | Persist(ready: Ready, firstIndex: nat)
    | CrashDuring(ready: Ready, firstIndex: nat, point: CrashPoint)
    | Crash
    | ApplyProgress(apply: ApplyState)
    | PostApply
    | SnapshotApplied
    | LogGC(low: nat, high: nat)

  /** What the raft library guarantees about a Ready, and the engine about `firstIndex`. */
  ghost predicate LegalReady(w: World, ready: Ready, firstIndex: nat)
    requires w.kv.apply.Some?
  {
    var applied := w.kv.apply.value.appliedIndex;
    && (ready.snapshot.Some? ==>
          && ready.snapshot.value.index > w.mem.raft.commit
          && ready.snapshot.value.index > applied
          && w.mem.apply == w.kv.apply.value
          && ready.hardState.Some? && ready.hardState.value.commit >= ready.snapshot.value.index
          && (forall i :: i in w.db.log ==> firstIndex <= i))
    && (ready.entries != [] ==>
          && Cache.Contiguous(ready.entries) && Positive(ready.entries)
          && if ready.snapshot.Some? then ready.entries[0].index == ready.snapshot.value.index + 1
             else applied < ready.entries[0].index <= w.mem.raft.lastIndex + 1)
  }

  ghost predicate Legal(w: World, e: Event)
    requires w.kv.apply.Some?
  {
    var apply := w.kv.apply.value;
    match e
    case Persist(ready, firstIndex) => LegalReady(w, ready, firstIndex)
    case CrashDuring(ready, firstIndex, _) => LegalReady(w, ready, firstIndex)
    case ApplyProgress(a) =>
      && apply.truncatedIndex <= a.truncatedIndex <= a.appliedIndex
      && apply.appliedIndex <= a.appliedIndex <= w.mem.raft.lastIndex
      && a.truncatedTerm == (if a.truncatedIndex == apply.truncatedIndex || a.truncatedIndex !in w.db.log
                             then apply.truncatedTerm else w.db.log[a.truncatedIndex].term)
    case LogGC(_, high) => high <= w.mem.apply.truncatedIndex + 1
    case _ => true
  }

  function Reopen(kv: Kv, db: RaftDb): Option<World>
    requires kv.apply.Some? && db.state.Some?
  {
    var db' := RecoverApplying(kv, db);
    if db'.state.None? then None
    else match Open(kv, db')
      case Opened(mem) => Some(World(kv, db', mem))
      case _ => None
  }

  // ---------------------------------------------------------------------------
  // What the two batches do
  // ---------------------------------------------------------------------------

  ghost function LogAfter(log: Disk, lastIndex: nat, ready: Ready, firstIndex: nat): Disk {
    var base := if ready.snapshot.Some? then DeleteRange(log, firstIndex, lastIndex + 1) else log;
    var prevLast := if ready.snapshot.Some? then ready.snapshot.value.index else lastIndex;
    if ready.entries == [] then base
    else DeleteRange(PutAll(base, ready.entries), ready.entries[|ready.entries| - 1].index + 1, prevLast + 1)
  }

  lemma WriteClearMeta(db: RaftDb, firstIndex: nat, lastIndex: nat)
    ensures WriteRaft(db, ClearMetaRaft(firstIndex, lastIndex)) ==
      RaftDb(None, DeleteRange(db.log, firstIndex, lastIndex + 1))
  {
    WriteDelEntries(db, firstIndex, lastIndex + 1);
    WriteRaftSnoc(db, DelEntries(firstIndex, lastIndex + 1), DelState);
  }

  /** Appending to any batch: the new entries, then the deletion of the old tail. */
  lemma WriteAppend(db: RaftDb, wb: seq<RaftPut>, entries: seq<Entry>, low: nat, high: nat)
    ensures var before := WriteRaft(db, wb);
      WriteRaft(db, wb + SetEntries(entries) + DelEntries(low, high))
        == before.(log := DeleteRange(PutAll(before.log, entries), low, high))
  {
    var before := WriteRaft(db, wb);
    var middle := before.(log := PutAll(before.log, entries));
    assert WriteRaft(db, wb + SetEntries(entries)) == middle by {
      WriteRaftJoin(db, wb, SetEntries(entries));
      WriteSetEntries(before, entries);
    }
    assert WriteRaft(db, wb + SetEntries(entries) + DelEntries(low, high)) ==
      WriteRaft(middle, DelEntries(low, high)) by {
      WriteRaftJoin(db, wb + SetEntries(entries), DelEntries(low, high));
    }
    WriteDelEntries(middle, low, high);
  }

  /** The log part of the raft batch: clear the old log for a snapshot, append, cut the old tail. */
  function LogBatch(lastIndex: nat, ready: Ready, firstIndex: nat): seq<RaftPut> {
    var clear := if ready.snapshot.Some? then ClearMetaRaft(firstIndex, lastIndex) else [];
    var prevLast := if ready.snapshot.Some? then ready.snapshot.value.index else lastIndex;
    if ready.entries == [] then clear
    else clear + SetEntries(ready.entries) + DelEntries(ready.entries[|ready.entries| - 1].index + 1, prevLast + 1)
  }

  lemma PreparedBatch(mem: Mem, ready: Ready, firstIndex: nat)
    ensures Prepare(mem, ready, firstIndex).raftWB == LogBatch(mem.raft.lastIndex, ready, firstIndex)
  {
  }

  lemma SnapshotLogWritten(db: RaftDb, lastIndex: nat, ready: Ready, firstIndex: nat)
    requires ready.snapshot.Some?
    ensures WriteRaft(db, LogBatch(lastIndex, ready, firstIndex))
         == RaftDb(None, LogAfter(db.log, lastIndex, ready, firstIndex))
  {
    WriteClearMeta(db, firstIndex, lastIndex);
    if ready.entries != [] {
      WriteAppend(db, ClearMetaRaft(firstIndex, lastIndex), ready.entries,
                  ready.entries[|ready.entries| - 1].index + 1, ready.snapshot.value.index + 1);
    }
  }

  lemma LogWritten(db: RaftDb, lastIndex: nat, ready: Ready, firstIndex: nat)
    ensures WriteRaft(db, LogBatch(lastIndex, ready, firstIndex))
         == RaftDb(if ready.snapshot.Some? then None else db.state, LogAfter(db.log, lastIndex, ready, firstIndex))
  {
    if ready.snapshot.Some? {
      SnapshotLogWritten(db, lastIndex, ready, firstIndex);
    } else if ready.entries != [] {
      WriteAppend(db, [], ready.entries, ready.entries[|ready.entries| - 1].index + 1, lastIndex + 1);
    }
  }

  /** A snapshot always changes the raft state, because it moves the commit index. */
  lemma SnapshotChangesState(w: World, ready: Ready, firstIndex: nat)
    requires w.kv.apply.Some? && LegalReady(w, ready, firstIndex)
    ensures ready.snapshot.Some? ==> Prepare(w.mem, ready, firstIndex).ctx.raft != w.mem.raft
  {
  }

  /** The raft batch leaves the new raft state and the new log. */
  lemma RaftWritten(w: World, ready: Ready, firstIndex: nat)
    requires w.kv.apply.Some? && w.db.state == Some(w.mem.raft) && LegalReady(w, ready, firstIndex)
    ensures var saved := ReadySaved(w.mem, ready, firstIndex);
      WriteRaft(w.db, saved.raftWB) ==
        RaftDb(Some(saved.ctx.raft), LogAfter(w.db.log, w.mem.raft.lastIndex, ready, firstIndex))
  {
    var s1 := Prepare(w.mem, ready, firstIndex);
    SnapshotChangesState(w, ready, firstIndex);
    PreparedBatch(w.mem, ready, firstIndex);
    LogWritten(w.db, w.mem.raft.lastIndex, ready, firstIndex);
    WriteRaftSnoc(w.db, s1.raftWB, SetState(s1.ctx.raft));
  }

  /** The kv batch is empty without a snapshot, and moves everything to the snapshot with one. */
  lemma KvWritten(w: World, ready: Ready, firstIndex: nat)
    requires Good(w) && LegalReady(w, ready, firstIndex)
    ensures var saved := ReadySaved(w.mem, ready, firstIndex); var kv' := WriteKv(w.kv, saved.kvWB);
      && (ready.snapshot.None? ==> kv' == w.kv && saved.ctx.apply == w.mem.apply)
      && (ready.snapshot.Some? ==>
            var snap := ready.snapshot.value;
            && saved.ctx.apply == ApplyState(snap.index, snap.index, snap.term)
            && kv'.region == Some(Applying) && kv'.apply == Some(saved.ctx.apply)
            && kv'.snapRaftState == Some(saved.ctx.raft.(commit := snap.index, lastIndex := snap.index)))
  {
    if ready.snapshot.Some? {
      var saved := ReadySaved(w.mem, ready, firstIndex);
      var snap := ready.snapshot.value;
      var r := saved.ctx.raft.(commit := snap.index, lastIndex := snap.index);
      var a := ApplyState(snap.index, snap.index, snap.term);
      var wb := [DelRegion, DelApply, SetRegion(Applying)];
      assert saved.kvWB == wb + [SetSnapRaftState(r)] + [SetApply(a)];
      WriteKvSnoc(w.kv, wb + [SetSnapRaftState(r)], SetApply(a));
      WriteKvSnoc(w.kv, wb, SetSnapRaftState(r));
      WriteKvSnoc(w.kv, [DelRegion, DelApply], SetRegion(Applying));
      assert wb == [DelRegion, DelApply] + [SetRegion(Applying)];
    }
  }

  /** The event's outcome; `None` when reopening after a crash panics or misses an entry. */
  function Step(w: World, e: Event): Option<World>
    requires w.kv.apply.Some? && w.db.state.Some?
  {
    match e
    case Persist(ready, firstIndex) =>
      var saved := ReadySaved(w.mem, ready, firstIndex);
      Some(World(WriteKv(w.kv, saved.kvWB), WriteRaft(w.db, saved.raftWB), saved.ctx))
    case CrashDuring(ready, firstIndex, point) =>
      var saved := ReadySaved(w.mem, ready, firstIndex);
      var kv := if point.BeforeWrites? then w.kv else WriteKv(w.kv, saved.kvWB);
      var db := if point.AfterWrites? then WriteRaft(w.db, saved.raftWB) else w.db;
      if kv.apply.None? || db.state.None? then None else Reopen(kv, db)
    case Crash => Reopen(w.kv, w.db)
    case ApplyProgress(a) => Some(w.(kv := w.kv.(apply := Some(a))))
    case PostApply => Some(w.(mem := w.mem.(apply := w.kv.apply.value)))
    case SnapshotApplied => Some(w.(kv := w.kv.(region := Some(Normal))))
    case LogGC(low, high) => Some(w.(db := w.db.(log := DeleteRange(w.db.log, low, high))))
  }

  /** Reopening a recoverable disk gives a good peer. */
  lemma ReopenGood(kv: Kv, db: RaftDb)
    requires Recoverable(kv, db)
    requires kv.region == Some(Applying) ==> kv.snapRaftState.value.lastIndex <= kv.apply.value.appliedIndex
    ensures Reopen(kv, db).Some? && Good(Reopen(kv, db).value)
  {
    RecoverySucceeds(kv, db);
  }

  /** One key of the log after a Ready. */
  lemma LogAfterAt(w: World, ready: Ready, firstIndex: nat, i: nat)
    requires Good(w) && LegalReady(w, ready, firstIndex)
    ensures var log := LogAfter(w.db.log, w.mem.raft.lastIndex, ready, firstIndex);
      var entries := ready.entries;
      if entries != [] && i >= entries[0].index then
        (i in log <==> i < entries[0].index + |entries|) && (i in log ==> log[i] == entries[i - entries[0].index])
      else if ready.snapshot.Some? then i !in log
      else (i in log <==> i in w.db.log) && (i in log ==> log[i] == w.db.log[i])
  {
    var base := if ready.snapshot.Some? then DeleteRange(w.db.log, firstIndex, w.mem.raft.lastIndex + 1) else w.db.log;
    if ready.entries != [] {
      PutAllContents(base, ready.entries, i);
    }
  }

  /** The indexes and the last term that a Ready leads to. */
  lemma SavedContext(w: World, ready: Ready, firstIndex: nat)
    requires Good(w) && LegalReady(w, ready, firstIndex)
    ensures var ctx := ReadySaved(w.mem, ready, firstIndex).ctx;
      if ready.entries != [] then
        ctx.raft.lastIndex == ready.entries[0].index + |ready.entries| - 1 &&
          ctx.lastTerm == ready.entries[|ready.entries| - 1].term
      else if ready.snapshot.Some? then
        ctx.raft.lastIndex == ready.snapshot.value.index && ctx.lastTerm == ready.snapshot.value.term
      else ctx.raft.lastIndex == w.mem.raft.lastIndex && ctx.lastTerm == w.mem.lastTerm
  {
  }

  /** The log a Ready leaves agrees with the indexes it leaves. */
  lemma ReadyConsistent(w: World, ready: Ready, firstIndex: nat, apply: ApplyState, ctx: Mem, log: Disk)
    requires Good(w) && LegalReady(w, ready, firstIndex)
    requires ctx == ReadySaved(w.mem, ready, firstIndex).ctx
    requires log == LogAfter(w.db.log, w.mem.raft.lastIndex, ready, firstIndex)
    requires apply ==
      if ready.snapshot.Some? then
        ApplyState(ready.snapshot.value.index, ready.snapshot.value.index, ready.snapshot.value.term)
      else w.kv.apply.value
    ensures Consistent(apply, ctx.raft.lastIndex, log)
    ensures ctx.lastTerm == TermOfLast(apply, ctx.raft.lastIndex, log)
    ensures apply.appliedIndex >= w.kv.apply.value.appliedIndex
  {
    SavedContext(w, ready, firstIndex);
    forall i: nat ensures i in log ==> log[i].index == i && log[i].size > 0 && i <= ctx.raft.lastIndex {
      LogAfterAt(w, ready, firstIndex, i);
    }
    forall i | apply.truncatedIndex + 1 <= i < ctx.raft.lastIndex + 1 ensures i in log {
      LogAfterAt(w, ready, firstIndex, i);
    }
    LogAfterAt(w, ready, firstIndex, ctx.raft.lastIndex);
  }

  lemma PersistGood(w: World, ready: Ready, firstIndex: nat)
    requires Good(w) && LegalReady(w, ready, firstIndex)
    ensures var saved := ReadySaved(w.mem, ready, firstIndex);
      Good(World(WriteKv(w.kv, saved.kvWB), WriteRaft(w.db, saved.raftWB), saved.ctx))
  {
    var saved := ReadySaved(w.mem, ready, firstIndex);
    var kv' := WriteKv(w.kv, saved.kvWB);
    KvWritten(w, ready, firstIndex);
    RaftWritten(w, ready, firstIndex);
    SavedContext(w, ready, firstIndex);
    ReadyConsistent(w, ready, firstIndex, kv'.apply.value, saved.ctx,
      LogAfter(w.db.log, w.mem.raft.lastIndex, ready, firstIndex));
  }

  /** Between the two writes: the kv engine may already be at the snapshot. */
  lemma BetweenRecoverable(w: World, ready: Ready, firstIndex: nat)
    requires Good(w) && LegalReady(w, ready, firstIndex)
    ensures var kv' := WriteKv(w.kv, ReadySaved(w.mem, ready, firstIndex).kvWB);
      && Recoverable(kv', w.db)
      && (kv'.region == Some(Applying) ==> kv'.snapRaftState.value.lastIndex <= kv'.apply.value.appliedIndex)
  {
    KvWritten(w, ready, firstIndex);
  }

  lemma StepGood(w: World, e: Event)
    requires Good(w) && Legal(w, e)
    ensures Step(w, e).Some? && Good(Step(w, e).value)
  {
    match e
    case Persist(ready, firstIndex) => PersistGood(w, ready, firstIndex);
    case CrashDuring(ready, firstIndex, point) =>
      var saved := ReadySaved(w.mem, ready, firstIndex);
      var kv' := WriteKv(w.kv, saved.kvWB);
      match point {
        case BeforeWrites => ReopenGood(w.kv, w.db);
        case BetweenWrites =>
          BetweenRecoverable(w, ready, firstIndex);
          ReopenGood(kv', w.db);
        case AfterWrites =>
          PersistGood(w, ready, firstIndex);
          ReopenGood(kv', WriteRaft(w.db, saved.raftWB));
      }
    case Crash => ReopenGood(w.kv, w.db);
    case _ =>
  }

  ghost predicate LegalRun(w: World, events: seq<Event>)
    requires Good(w)
    decreases |events|
  {
    events == [] ||
    (Legal(w, events[0]) && (StepGood(w, events[0]); LegalRun(Step(w, events[0]).value, events[1..])))
  }

  function Run(w: World, events: seq<Event>): Option<World>
    decreases |events|
  {
    if events == [] then Some(w)
    else if w.kv.apply.None? || w.db.state.None? then None
    else
      var next := Step(w, events[0]);
      if next.None? then None else Run(next.value, events[1..])
  }

  /** Over every run, with crashes before, between or after the two writes of any Ready: reopening never
      panics and never misses an entry, and afterwards truncatedIndex <= appliedIndex <= lastIndex with
      every entry of (truncatedIndex, lastIndex] on disk. */
  lemma {:induction false} RunRecovers(w: World, events: seq<Event>)
    requires Good(w) && LegalRun(w, events)
    ensures Run(w, events).Some? && Good(Run(w, events).value)
    decreases |events|
  {
    if events != [] {
      StepGood(w, events[0]);
      RunRecovers(Step(w, events[0]).value, events[1..]);
    }
  }

  // ---------------------------------------------------------------------------
  // What survives, told by the events alone
  // ---------------------------------------------------------------------------

  /** The last hard state, last index, apply state and log entries whose writes were done. */
  datatype Durable = Durable(hard: HardState, lastIndex: nat, apply: ApplyState, log: Disk)

  /** Both writes of a Ready are done. */
  function WithReady(d: Durable, ready: Ready): Durable {
    var entries, from := ready.entries, if ready.snapshot.Some? then map[] else d.log;
    Durable(
      if ready.hardState.Some? then ready.hardState.value else d.hard,
      if entries != [] then entries[|entries| - 1].index
      else if ready.snapshot.Some? then ready.snapshot.value.index else d.lastIndex,
      if ready.snapshot.Some? then SnapshotPosition(ready.snapshot.value) else d.apply,
      if entries == [] then from
      else PutAll(map i | i in from && i < entries[0].index :: from[i], entries))
  }

  function SnapshotPosition(snap: Snapshot): ApplyState {
    ApplyState(snap.index, snap.index, snap.term)
  }

  /** Only the kv write of a Ready is done: a snapshot past the log brings its term and vote with it. */
  function WithKvWrite(d: Durable, ready: Ready): Durable {
    if ready.snapshot.None? then d
    else
      var snap := ready.snapshot.value;
      if snap.index <= d.lastIndex || ready.hardState.None? then d.(apply := SnapshotPosition(snap))
      else
        Durable(ready.hardState.value.(commit := snap.index), snap.index, SnapshotPosition(snap), d.log)
  }

  function WithEvent(d: Durable, e: Event): Durable {
    match e
    case Persist(ready, _) => WithReady(d, ready)
    case CrashDuring(ready, _, BeforeWrites) => d
    case CrashDuring(ready, _, BetweenWrites) => WithKvWrite(d, ready)
    case CrashDuring(ready, _, AfterWrites) => WithReady(d, ready)
    case ApplyProgress(a) => d.(apply := a)
    case _ => d
  }

  function WithEvents(d: Durable, events: seq<Event>): Durable
    decreases |events|
  {
    if events == [] then d else WithEvents(WithEvent(d, events[0]), events[1..])
  }

  /** The peer has the term, vote, commit index, positions and log entries it was left with. */
  ghost predicate Remembers(w: World, d: Durable) {
    && w.mem.raft == RaftState(d.hard.term, d.hard.vote, d.hard.commit, d.lastIndex)
    && w.db.state == Some(w.mem.raft) && w.kv.apply == Some(d.apply)
    && (forall i :: d.apply.truncatedIndex < i <= d.lastIndex ==>
          i in w.db.log && i in d.log && w.db.log[i] == d.log[i])
  }

  lemma SavedRaft(w: World, d: Durable, ready: Ready, firstIndex: nat)
    requires Good(w) && LegalReady(w, ready, firstIndex) && Remembers(w, d)
    ensures var raft, d' := ReadySaved(w.mem, ready, firstIndex).ctx.raft, WithReady(d, ready);
      raft == RaftState(d'.hard.term, d'.hard.vote, d'.hard.commit, d'.lastIndex)
  {
  }

  lemma SavedLog(w: World, d: Durable, ready: Ready, firstIndex: nat, i: nat)
    requires Good(w) && LegalReady(w, ready, firstIndex) && Remembers(w, d)
    requires var d' := WithReady(d, ready); d'.apply.truncatedIndex < i <= d'.lastIndex
    ensures var log, d' := LogAfter(w.db.log, w.mem.raft.lastIndex, ready, firstIndex), WithReady(d, ready);
      i in log && i in d'.log && log[i] == d'.log[i]
  {
    LogAfterAt(w, ready, firstIndex, i);
    var entries, from := ready.entries, if ready.snapshot.Some? then map[] else d.log;
    if entries != [] {
      PutAllContents(map i | i in from && i < entries[0].index :: from[i], entries, i);
    }
  }

  lemma PersistRemembers(w: World, d: Durable, ready: Ready, firstIndex: nat)
    requires Good(w) && LegalReady(w, ready, firstIndex) && Remembers(w, d)
    ensures var saved := ReadySaved(w.mem, ready, firstIndex);
      Remembers(World(WriteKv(w.kv, saved.kvWB), WriteRaft(w.db, saved.raftWB), saved.ctx), WithReady(d, ready))
  {
    var d' := WithReady(d, ready);
    KvWritten(w, ready, firstIndex);
    RaftWritten(w, ready, firstIndex);
    SavedRaft(w, d, ready, firstIndex);
    forall i | d'.apply.truncatedIndex < i <= d'.lastIndex
      ensures var log := LogAfter(w.db.log, w.mem.raft.lastIndex, ready, firstIndex);
        i in log && i in d'.log && log[i] == d'.log[i]
    {
      SavedLog(w, d, ready, firstIndex, i);
    }
  }

  /** Reopening without a snapshot ahead of the raft engine takes the raft state that is there. */
  lemma ReopenKeeps(kv: Kv, db: RaftDb, mem: Mem, d: Durable)
    requires Recoverable(kv, db) && Remembers(World(kv, db, mem), d)
    requires kv.region == Some(Applying) ==> kv.snapRaftState.value.lastIndex <= db.state.value.lastIndex
    ensures Reopen(kv, db).Some? && Remembers(Reopen(kv, db).value, d)
  {
    RecoverySucceeds(kv, db);
  }

  /** Reopening with a snapshot ahead takes the raft state stored with it. */
  lemma ReopenAhead(kv: Kv, db: RaftDb)
    requires Recoverable(kv, db) && kv.region == Some(Applying)
    requires kv.snapRaftState.value.lastIndex > db.state.value.lastIndex
    ensures var r := Reopen(kv, db);
      r.Some? && r.value.kv == kv && r.value.db.state == kv.snapRaftState && r.value.mem.raft == kv.snapRaftState.value
  {
    RecoverySucceeds(kv, db);
    WriteRaftSnoc(db, [], SetState(kv.snapRaftState.value));
    assert [] + [SetState(kv.snapRaftState.value)] == [SetState(kv.snapRaftState.value)];
  }

  lemma BetweenRemembers(w: World, d: Durable, ready: Ready, firstIndex: nat, kv: Kv)
    requires Good(w) && LegalReady(w, ready, firstIndex) && Remembers(w, d)
    requires kv == WriteKv(w.kv, ReadySaved(w.mem, ready, firstIndex).kvWB)
    ensures kv.apply.Some? && Reopen(kv, w.db).Some? && Remembers(Reopen(kv, w.db).value, WithKvWrite(d, ready))
  {
    KvWritten(w, ready, firstIndex);
    BetweenRecoverable(w, ready, firstIndex);
    SavedRaft(w, d, ready, firstIndex);
    if ready.snapshot.Some? && ready.snapshot.value.index > d.lastIndex {
      ReopenAhead(kv, w.db);
    } else {
      ReopenKeeps(kv, w.db, w.mem, WithKvWrite(d, ready));
    }
  }

  lemma AfterRemembers(w: World, d: Durable, ready: Ready, firstIndex: nat, saved: Saved)
    requires Good(w) && LegalReady(w, ready, firstIndex) && Remembers(w, d)
    requires saved == ReadySaved(w.mem, ready, firstIndex)
    ensures var kv, db := WriteKv(w.kv, saved.kvWB), WriteRaft(w.db, saved.raftWB);
      && kv.apply.Some? && db.state.Some? && Reopen(kv, db).Some?
      && Remembers(Reopen(kv, db).value, WithReady(d, ready))
  {
    PersistGood(w, ready, firstIndex);
    PersistRemembers(w, d, ready, firstIndex);
    ReopenKeeps(WriteKv(w.kv, saved.kvWB), WriteRaft(w.db, saved.raftWB), saved.ctx, WithReady(d, ready));
  }

  lemma CrashRemembers(w: World, d: Durable, e: Event)
    requires Good(w) && Legal(w, e) && Remembers(w, d) && (e.Crash? || e.CrashDuring?)
    ensures Step(w, e).Some? && Remembers(Step(w, e).value, WithEvent(d, e))
  {
    if e.Crash? || e.point.BeforeWrites? {
      ReopenKeeps(w.kv, w.db, w.mem, d);
    } else {
      var saved := ReadySaved(w.mem, e.ready, e.firstIndex);
      if e.point.BetweenWrites? {
        BetweenRemembers(w, d, e.ready, e.firstIndex, WriteKv(w.kv, saved.kvWB));
      } else {
        AfterRemembers(w, d, e.ready, e.firstIndex, saved);
      }
    }
  }

  lemma StepRemembers(w: World, d: Durable, e: Event)
    requires Good(w) && Legal(w, e) && Remembers(w, d)
    ensures Step(w, e).Some? && Remembers(Step(w, e).value, WithEvent(d, e))
  {
    if e.Persist? {
      PersistRemembers(w, d, e.ready, e.firstIndex);
    } else if e.Crash? || e.CrashDuring? {
      CrashRemembers(w, d, e);
    }
  }

  /**
   Over every run, with crashes at every point: term, vote, commit index, last index, apply state and every log
   entry behind the truncated one are those of the last writes that were done. Between the two writes of a
   snapshot only the kv write is; it brings the new term and vote exactly when the snapshot is past the log.
   */
  lemma {:induction false} RunRemembers(w: World, d: Durable, events: seq<Event>)
    requires Good(w) && LegalRun(w, events) && Remembers(w, d)
    ensures Run(w, events).Some? && Remembers(Run(w, events).value, WithEvents(d, events))
    decreases |events|
  {
    if events != [] {
      StepGood(w, events[0]);
      StepRemembers(w, d, events[0]);
      RunRemembers(Step(w, events[0]).value, WithEvent(d, events[0]), events[1..]);
    }
  }

  /** The records do not protect the commit index: after a crash between the writes of a snapshot, it is
      behind the applied index exactly when the old log already reached the snapshot's index. */
  lemma CommitAfterCrash(w: World, ready: Ready, firstIndex: nat)
    requires Good(w) && LegalReady(w, ready, firstIndex) && ready.snapshot.Some?
    ensures var r := Step(w, CrashDuring(ready, firstIndex, BetweenWrites));
      r.Some? && (r.value.mem.raft.commit >= r.value.mem.apply.appliedIndex <==>
        ready.snapshot.value.index > w.mem.raft.lastIndex)
  {
    KvWritten(w, ready, firstIndex);
    BetweenRecoverable(w, ready, firstIndex);
    var kv' := WriteKv(w.kv, ReadySaved(w.mem, ready, firstIndex).kvWB);
    RecoverySucceeds(kv', w.db);
    WriteRaftSnoc(w.db, [], SetState(kv'.snapRaftState.value));
    assert [] + [SetState(kv'.snapRaftState.value)] == [SetState(kv'.snapRaftState.value)];
  }

  /** A conflicting tail at least as long as the snapshot is such a case. */
  lemma CommitBehindWitness()
    ensures exists w, ready, firstIndex ::
      Good(w) && LegalReady(w, ready, firstIndex) && ready.snapshot.Some? &&
        ready.snapshot.value.index <= w.mem.raft.lastIndex
  {
    var e := Entry(6, 6, 0, 1);
    var raft := RaftState(6, 0, 5, 6);
    var apply := ApplyState(5, 5, 5);
    var w := World(Kv(Some(Normal), Some(apply), None), RaftDb(Some(raft), map[6 := e]), Mem(raft, apply, 6));
    var ready := Ready(Some(Snapshot(6, 7)), [], Some(HardState(7, 0, 6)));
    assert Good(w) && LegalReady(w, ready, 6);
  }

  // ---------------------------------------------------------------------------
  // The storage object filling its batches
  // ---------------------------------------------------------------------------

  class ReadyWriter {
    var ctx: Mem
    var kvWB: seq<KvPut>
    var raftWB: seq<RaftPut>

    function View(): Saved
      reads this
    {
      Saved(ctx, kvWB, raftWB)
    }

    constructor (mem: Mem)
      ensures View() == Saved(mem, [], [])
    {
      ctx, kvWB, raftWB := mem, [], [];
    }

    method DeleteLog(low: nat, high: nat)
      modifies this`raftWB
      ensures raftWB == old(raftWB) + DelEntries(low, high)
    {
      var i := low;
      assert DelEntries(low, low) == [];
      while i < high
        invariant low <= i && (i <= high || i == low)
        invariant raftWB == old(raftWB) + DelEntries(low, i)
      {
        raftWB := raftWB + [DelEntry(i)];
        i := i + 1;
      }
    }

    method ApplySnapshot(snap: Snapshot, firstIndex: nat)
      requires kvWB == [] && raftWB == []
      modifies this
      ensures View() == SnapshotSaved(old(ctx), snap, firstIndex)
    {
      kvWB := [DelRegion, DelApply];
      DeleteLog(firstIndex, ctx.raft.lastIndex + 1);
      raftWB := raftWB + [DelState];
      kvWB := kvWB + [SetRegion(Applying)];
      ctx := Mem(ctx.raft.(lastIndex := snap.index), ApplyState(snap.index, snap.index, snap.term), snap.term);
    }

    method Append(entries: seq<Entry>)
      modifies this
      ensures View() == AppendEntries(old(View()), entries)
    {
      if |entries| == 0 {
        return;
      }
      var back := entries[|entries| - 1];
      for k := 0 to |entries|
        invariant raftWB == old(raftWB) + SetEntries(entries[..k]) && ctx == old(ctx) && kvWB == old(kvWB)
      {
        assert entries[..k + 1][..k] == entries[..k];
        raftWB := raftWB + [SetEntry(entries[k])];
      }
      assert entries[..|entries|] == entries;
      DeleteLog(back.index + 1, ctx.raft.lastIndex + 1);
      ctx := ctx.(raft := ctx.raft.(lastIndex := back.index), lastTerm := back.term);
    }

    method SaveReadyState(mem: Mem, ready: Ready, firstIndex: nat)
      requires View() == Saved(mem, [], [])
      modifies this
      ensures View() == ReadySaved(mem, ready, firstIndex)
    {
      var snapshotIdx := 0;
      if ready.snapshot.Some? {
        ApplySnapshot(ready.snapshot.value, firstIndex);
        snapshotIdx := ctx.raft.lastIndex;
      }
      if |ready.entries| != 0 {
        Append(ready.entries);
      }
      if ctx.raft.lastIndex > 0 && ready.hardState.Some? {
        var hs := ready.hardState.value;
        ctx := ctx.(raft := ctx.raft.(commit := hs.commit, term := hs.term, vote := hs.vote));
      }
      if ctx.raft != mem.raft {
        raftWB := raftWB + [SetState(ctx.raft)];
        if snapshotIdx > 0 {
          kvWB := kvWB + [SetSnapRaftState(ctx.raft.(commit := snapshotIdx, lastIndex := snapshotIdx))];
        }
      }
      if ctx.apply != mem.apply {
        kvWB := kvWB + [SetApply(ctx.apply)];
      }
    }
  }
}
