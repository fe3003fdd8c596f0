/**
 What one committed entry does to an applier and to its write batch (raftstore/applier.go): custom
 logs of transaction operations, admin commands, log compaction, and the empty entry of a new leader.
 */
module ApplyCommands {
  import opened Bytes
  import opened Codec
  import opened Regions
  import opened WriteBatch

  datatype TxnOp = OpPut | OpDel | OpLock | OpOther

  datatype Lock = Lock(startTS: nat, op: TxnOp, primary: Bytes, value: Bytes)

  /** Encodings that belong to other packages. */
  datatype Env = Env(
    decodeLock: Bytes -> Lock,
    userMeta: (nat, nat) -> Bytes,
    regionState: (Region, bool) -> Bytes
  )

  // Transaction operations

  datatype LogOp =
    | PutLockOp(key: Bytes, lock: Bytes)
    | CommitOp(key: Bytes, lock: Bytes, commitTS: nat)
    | RollbackOp(key: Bytes, startTS: nat, deleteLock: bool)
    | PessimisticRollbackOp(key: Bytes)

  /** `commitLock`: the value moves from the lock to the data, and the lock goes. */
  function CommitWrites(env: Env, key: Bytes, lockVal: Bytes, commitTS: nat): seq<Write> {
    var lock := env.decodeLock(lockVal);
    var meta := env.userMeta(lock.startTS, commitTS);
    (if lock.op != OpLock then [SetWithUserMeta(Data(key, commitTS), lock.value, meta)]
    else if lock.primary == key then [SetOpLock(key, commitTS, lock.startTS, meta)]
    else [])
    + [DeleteLock(key)]
  }

  function OpWrites(env: Env, op: LogOp): seq<Write> {
    match op
    case PutLockOp(key, lock) => [SetLock(key, lock)]
    case CommitOp(key, lock, commitTS) => CommitWrites(env, key, lock, commitTS)
    case RollbackOp(key, startTS, deleteLock) =>
      [Rollback(key, startTS, env.userMeta(startTS, 0))] + if deleteLock then [DeleteLock(key)] else []
    case PessimisticRollbackOp(key) => [DeleteLock(key)]
  }

  function OpsWrites(env: Env, ops: seq<LogOp>): seq<Write>
    decreases |ops|
  {
    if ops == [] then [] else OpsWrites(env, ops[..|ops| - 1]) + OpWrites(env, ops[|ops| - 1])
  }

  /** The store after the writes of one operation. */
  function AfterWrites(kv: KV, ws: seq<Write>): KV {
    Written(kv, AllEntries(ws), AllLocks(ws))
  }

  lemma OneWrite(kv: KV, w: Write)
    ensures AfterWrites(kv, [w]) == KV(WriteEntries(kv.db, EntriesOf(w)), WriteLocks(kv.locks, LocksOf(w)))
  {
    assert [w][..0] == [];
    assert AllEntries([w]) == [] + EntriesOf(w) == EntriesOf(w) && AllLocks([w]) == [] + LocksOf(w) == LocksOf(w);
  }

  /** What each call on the batch does to the store once it is written. */
  lemma WriteMeaning(kv: KV, w: Write)
    ensures var now := AfterWrites(kv, [w]);
      match w
      case Set(k, v) => now == kv.(db := if v == [] then kv.db - {k} else kv.db[k := Cell(v, [])])
      case SetLock(k, v) => now == kv.(locks := kv.locks[k := v])
      case DeleteLock(k) => now == kv.(locks := kv.locks - {k})
      case Rollback(k, ts, m) =>
        m != [] ==> now == kv.(db := kv.db[TxnStatus(k, ts, ts) := Cell([], m)])
      case SetWithUserMeta(k, v, m) => m != [] ==> now == kv.(db := kv.db[k := Cell(v, m)])
      case SetOpLock(k, version, ts, m) =>
        m != [] ==> now == kv.(db := kv.db[TxnStatus(k, ts, version) := Cell([], m)])
      case Delete(k) => now == kv.(db := kv.db - {k})
  {
    OneWrite(kv, w);
    if EntriesOf(w) != [] { OneEntry(kv.db, EntriesOf(w)[0]); }
    if LocksOf(w) != [] { OneLock(kv.locks, LocksOf(w)[0]); }
  }

  lemma TwoWrites(kv: KV, v: Write, w: Write)
    ensures AfterWrites(kv, [v] + [w]) == AfterWrites(AfterWrites(kv, [v]), [w])
  {
    var ws := [v] + [w];
    assert ws[..1] == [v];
    OneWrite(kv, v);
    OneWrite(AfterWrites(kv, [v]), w);
    assert AllEntries(ws) == AllEntries([v]) + EntriesOf(w) && AllLocks(ws) == AllLocks([v]) + LocksOf(w);
    WrittenJoin(kv, AllEntries([v]), AllLocks([v]), EntriesOf(w), LocksOf(w));
  }

  lemma OneEntry(db: Db, e: Entry)
    ensures WriteEntries(db, [e]) == WriteEntry(db, e)
  {
    assert [e][..0] == [];
  }

  lemma OneLock(locks: Locks, l: LockEntry)
    ensures WriteLocks(locks, [l]) == WriteLock(locks, l)
  {
    assert [l][..0] == [];
  }

  /**
   What a commit does to the store: the lock is gone; its value stands under the commit timestamp, or,
   for a lock that only locked, a record of the transaction on its primary key; nothing else changes.
   */
  lemma CommitMeaning(env: Env, kv: KV, key: Bytes, lockVal: Bytes, commitTS: nat)
    requires env.userMeta(env.decodeLock(lockVal).startTS, commitTS) != []
    ensures var lock := env.decodeLock(lockVal);
      var meta := env.userMeta(lock.startTS, commitTS);
      AfterWrites(kv, CommitWrites(env, key, lockVal, commitTS)) ==
      KV(if lock.op != OpLock then kv.db[Data(key, commitTS) := Cell(lock.value, meta)]
         else if lock.primary == key then kv.db[TxnStatus(key, lock.startTS, commitTS) := Cell([], meta)]
         else kv.db,
         kv.locks - {key})
  {
    var lock := env.decodeLock(lockVal);
    var ws := CommitWrites(env, key, lockVal, commitTS);
    OneLock(kv.locks, DropLock(key));
    if lock.op != OpLock || lock.primary == key {
      assert ws == [ws[0]] + [DeleteLock(key)];
      TwoWrites(kv, ws[0], DeleteLock(key));
      OneWrite(kv, ws[0]);
      OneWrite(AfterWrites(kv, [ws[0]]), DeleteLock(key));
      OneEntry(kv.db, EntriesOf(ws[0])[0]);
    } else {
      assert ws == [DeleteLock(key)];
      OneWrite(kv, DeleteLock(key));
    }
  }

  /** The other operations: a lock put, a transaction marked as rolled back, a lock dropped. */
  lemma OtherOpMeaning(env: Env, kv: KV, op: LogOp)
    requires !op.CommitOp? && (op.RollbackOp? ==> env.userMeta(op.startTS, 0) != [])
    ensures AfterWrites(kv, OpWrites(env, op)) ==
      match op
      case PutLockOp(key, lock) => kv.(locks := kv.locks[key := lock])
      case RollbackOp(key, ts, deleteLock) =>
        KV(kv.db[TxnStatus(key, ts, ts) := Cell([], env.userMeta(ts, 0))],
           if deleteLock then kv.locks - {key} else kv.locks)
      case PessimisticRollbackOp(key) => kv.(locks := kv.locks - {key})
      case CommitOp(_, _, _) => kv
  {
    var ws := OpWrites(env, op);
    if op.RollbackOp? && op.deleteLock {
      TwoWrites(kv, ws[0], ws[1]);
      OneWrite(AfterWrites(kv, [ws[0]]), ws[1]);
      OneLock(kv.locks, DropLock(op.key));
    } else {
      assert ws == [ws[0]];
    }
    OneWrite(kv, ws[0]);
    if op.RollbackOp? {
      OneEntry(kv.db, EntriesOf(ws[0])[0]);
    } else {
      OneLock(kv.locks, LocksOf(ws[0])[0]);
    }
  }

  // Appliers

  datatype App = App(
    region: Region,
    ownId: nat,
    appliedIndex: nat,
    truncatedIndex: nat,
    truncatedTerm: nat,
    pendingRemove: bool
  )

  /** `applyState.Marshal`. */
  function StateBytes(appliedIndex: nat, truncatedIndex: nat, truncatedTerm: nat): (b: Bytes)
    ensures |b| == 24
  {
    LE(appliedIndex, 8) + LE(truncatedIndex, 8) + LE(truncatedTerm, 8)
  }

  /** The three numbers of a stored apply state, each in its own eight bytes. */
  predicate StateHolds(b: Bytes, appliedIndex: nat, truncatedIndex: nat, truncatedTerm: nat) {
    && |b| == 24
    && FromLE(b[..8]) == appliedIndex % 0x1_0000_0000_0000_0000
    && FromLE(b[8..16]) == truncatedIndex % 0x1_0000_0000_0000_0000
    && FromLE(b[16..24]) == truncatedTerm % 0x1_0000_0000_0000_0000
  }

  lemma StateBytesHold(a: nat, b: nat, c: nat)
    ensures StateHolds(StateBytes(a, b, c), a, b, c)
  {
    var s := StateBytes(a, b, c);
    assert s[..8] == LE(a, 8) && s[8..16] == LE(b, 8) && s[16..24] == LE(c, 8);
    Widths();
    LEWraps(a, 8);
    LEWraps(b, 8);
    LEWraps(c, 8);
  }

  function AppState(app: App): Bytes {
    StateBytes(app.appliedIndex, app.truncatedIndex, app.truncatedTerm)
  }

  // Commands

  datatype Command =
    | Noop
    | Custom(sent: Epoch, ops: seq<LogOp>)
    | Admin(req: Request)
    | Compact(compactIndex: nat, compactTerm: nat)

  /** On failure `writes` is what was put before the command failed. */
  datatype Outcome = Outcome(ok: bool, writes: seq<Write>, app: App)

  const RAFT_INIT_LOG_INDEX := 5
  const RAFT_INIT_LOG_TERM := 5

  /** `writeInitialApplyState`. */
  function InitialState(): Bytes {
    StateBytes(RAFT_INIT_LOG_INDEX, RAFT_INIT_LOG_INDEX, RAFT_INIT_LOG_TERM)
  }

  function NewRegionWrites(env: Env, parts: seq<Region>, derivedId: nat, init: Bytes): seq<Write>
    decreases |parts|
  {
    if parts == [] then []
    else
      var p := parts[|parts| - 1];
      NewRegionWrites(env, parts[..|parts| - 1], derivedId, init) +
      if p.id == derivedId then []
      else [Set(RegionStateKey(p.id), env.regionState(p, false)),
            Set(ApplyStateKey(p.id), init)]
  }

  predicate RemovesSelf(app: App, cmd: Cmd) {
    cmd.ChangePeer? && cmd.ct == RemoveNode && cmd.peer.id == app.ownId
  }

  function Derived(regions: seq<Region>, id: nat, otherwise: Region): Region
    decreases |regions|
  {
    if regions == [] then otherwise
    else if regions[0].id == id then regions[0]
    else Derived(regions[1..], id, otherwise)
  }

  function ExecAdmin(env: Env, app: App, req: Request): Outcome {
    var effect := Exec(app.region, req);
    if effect.fault != Fine then Outcome(false, [], app)
    else if req.cmd.ChangePeer? then
      var r, gone := Derived(effect.regions, app.region.id, app.region), RemovesSelf(app, req.cmd);
      Outcome(true, [Set(RegionStateKey(r.id), env.regionState(r, gone))], app.(region := r, pendingRemove := gone))
    else if req.cmd.BatchSplit? then
      var r := Derived(effect.regions, app.region.id, app.region);
      Outcome(true,
        NewRegionWrites(env, effect.regions, r.id, InitialState()) +
          [Set(RegionStateKey(r.id), env.regionState(r, false))],
        app.(region := r))
    else Outcome(true, [], app)
  }

  /** Compaction moves the truncated position; the log itself goes later. */
  function ExecCompact(app: App, index: nat, term: nat): Outcome {
    if index <= app.truncatedIndex + 1 then Outcome(true, [], app)
    else if term == 0 then Outcome(false, [], app)
    else if index > app.appliedIndex then Outcome(false, [], app)
    else Outcome(true, [], app.(truncatedIndex := index, truncatedTerm := term))
  }

  function ExecCommand(env: Env, app: App, cmd: Command): Outcome {
    match cmd
    case Noop => Outcome(true, [], app)
    case Custom(sent, ops) =>
      if EpochFault(app.region.epoch, Request(sent, Cmd.Write)) != Fine then Outcome(false, [], app)
      else Outcome(true, OpsWrites(env, ops), app)
    case Admin(req) => ExecAdmin(env, app, req)
    case Compact(index, term) => ExecCompact(app, index, term)
  }

  // What an admin command leaves in the store

  lemma {:induction false} AllEntriesJoin(ws: seq<Write>, vs: seq<Write>)
    ensures AllEntries(ws + vs) == AllEntries(ws) + AllEntries(vs)
    decreases |vs|
  {
    if vs == [] {
      assert ws + vs == ws;
    } else {
      AllEntriesJoin(ws, vs[..|vs| - 1]);
      assert (ws + vs)[..|ws + vs| - 1] == ws + vs[..|vs| - 1];
      EntriesAssoc(AllEntries(ws), AllEntries(vs[..|vs| - 1]), EntriesOf(vs[|vs| - 1]));
    }
  }

  lemma EntriesAssoc(a: seq<Entry>, b: seq<Entry>, c: seq<Entry>)
    ensures (a + b) + c == a + (b + c)
  {
  }

  /** One more put at the end of the writes. */
  lemma SetLast(db: Db, ws: seq<Write>, k: DbKey, v: Bytes)
    requires v != []
    ensures WriteEntries(db, AllEntries(ws + [Set(k, v)])) == WriteEntries(db, AllEntries(ws))[k := Cell(v, [])]
  {
    var db1 := WriteEntries(db, AllEntries(ws));
    AllEntriesJoin(ws, [Set(k, v)]);
    OneWrite(KV(db1, map[]), Set(k, v));
    WriteEntriesJoin(db, AllEntries(ws), AllEntries([Set(k, v)]));
    OneEntry(db1, Entry(k, Cell(v, [])));
  }

  /** A new region is in the store, and it starts from the initial apply state. */
  predicate Persisted(env: Env, db: Db, p: Region, init: Bytes) {
    && RegionStateKey(p.id) in db && db[RegionStateKey(p.id)] == Cell(env.regionState(p, false), [])
    && ApplyStateKey(p.id) in db && db[ApplyStateKey(p.id)] == Cell(init, [])
  }

  function WithRegion(env: Env, db: Db, p: Region, init: Bytes): Db {
    db[RegionStateKey(p.id) := Cell(env.regionState(p, false), [])][ApplyStateKey(p.id) := Cell(init, [])]
  }

  lemma PersistedKept(env: Env, db: Db, p: Region, q: Region, init: Bytes)
    requires Persisted(env, db, p, init) && p.id != q.id
    ensures Persisted(env, WithRegion(env, db, q, init), p, init)
  {
  }

  /** The last part, if it is new, is put under its own two keys. */
  lemma LastPart(env: Env, db: Db, parts: seq<Region>, derivedId: nat, init: Bytes)
    requires parts != [] && env.regionState(parts[|parts| - 1], false) != [] && init != []
    ensures var p, before := parts[|parts| - 1],
      WriteEntries(db, AllEntries(NewRegionWrites(env, parts[..|parts| - 1], derivedId, init)));
      WriteEntries(db, AllEntries(NewRegionWrites(env, parts, derivedId, init))) ==
      if p.id == derivedId then before else WithRegion(env, before, p, init)
  {
    var p, front := parts[|parts| - 1], NewRegionWrites(env, parts[..|parts| - 1], derivedId, init);
    if p.id == derivedId {
      assert NewRegionWrites(env, parts, derivedId, init) == front;
    } else {
      var first := Set(RegionStateKey(p.id), env.regionState(p, false));
      assert NewRegionWrites(env, parts, derivedId, init) == (front + [first]) + [Set(ApplyStateKey(p.id), init)];
      SetLast(db, front, first.key, first.value);
      SetLast(db, front + [first], ApplyStateKey(p.id), init);
    }
  }

  /** The store once every new part is put, part by part. */
  function WithNewRegions(env: Env, db: Db, parts: seq<Region>, derivedId: nat, init: Bytes): Db
    decreases |parts|
  {
    if parts == [] then db
    else
      var p, before := parts[|parts| - 1], WithNewRegions(env, db, parts[..|parts| - 1], derivedId, init);
      if p.id == derivedId then before else WithRegion(env, before, p, init)
  }

  lemma {:induction false} NewRegionsWritten(env: Env, db: Db, parts: seq<Region>, derivedId: nat, init: Bytes)
    requires init != [] && forall j :: 0 <= j < |parts| ==> env.regionState(parts[j], false) != []
    ensures WriteEntries(db, AllEntries(NewRegionWrites(env, parts, derivedId, init))) ==
      WithNewRegions(env, db, parts, derivedId, init)
    decreases |parts|
  {
    if parts != [] {
      LastPart(env, db, parts, derivedId, init);
      NewRegionsWritten(env, db, parts[..|parts| - 1], derivedId, init);
    }
  }

  lemma {:induction false} NewRegionsPersist(env: Env, db: Db, parts: seq<Region>, derivedId: nat, init: Bytes, i: nat)
    requires forall j, k :: 0 <= j < k < |parts| ==> parts[j].id != parts[k].id
    requires i < |parts| && parts[i].id != derivedId
    ensures Persisted(env, WithNewRegions(env, db, parts, derivedId, init), parts[i], init)
    decreases |parts|
  {
    var n := |parts| - 1;
    if i < n {
      NewRegionsPersist(env, db, parts[..n], derivedId, init, i);
      PersistedKept(env, WithNewRegions(env, db, parts[..n], derivedId, init), parts[i], parts[n], init);
    }
  }

  /** Applying a split leaves every part in the store under its own id, the new ones ready to apply. */
  lemma SplitPersists(env: Env, db: Db, app: App, req: Request, parts: seq<Region>, i: nat)
    requires req.cmd.BatchSplit? && ExecAdmin(env, app, req).ok && parts == Exec(app.region, req).regions
    requires forall j, k :: 0 <= j < k < |parts| ==> parts[j].id != parts[k].id
    requires forall j :: 0 <= j < |parts| ==> env.regionState(parts[j], false) != []
    requires i < |parts|
    ensures var p, db' := parts[i], WriteEntries(db, AllEntries(ExecAdmin(env, app, req).writes));
      && RegionStateKey(p.id) in db' && db'[RegionStateKey(p.id)] == Cell(env.regionState(p, false), [])
      && (p.id != app.region.id ==> Persisted(env, db', p, InitialState()))
  {
    var r := Derived(parts, app.region.id, app.region);
    DerivedFound(parts, app.region, req);
    AfterSplit(env, db, parts, r, InitialState(), i);
  }

  lemma AfterSplit(env: Env, db: Db, parts: seq<Region>, r: Region, init: Bytes, i: nat)
    requires forall j, k :: 0 <= j < k < |parts| ==> parts[j].id != parts[k].id
    requires forall j :: 0 <= j < |parts| ==> env.regionState(parts[j], false) != []
    requires i < |parts| && r in parts && init != []
    ensures var p := parts[i];
      var db' := WriteEntries(db,
        AllEntries(NewRegionWrites(env, parts, r.id, init) + [Set(RegionStateKey(r.id), env.regionState(r, false))]));
      && RegionStateKey(p.id) in db' && db'[RegionStateKey(p.id)] == Cell(env.regionState(p, false), [])
      && (p.id != r.id ==> Persisted(env, db', p, init))
  {
    var j :| 0 <= j < |parts| && parts[j] == r;
    NewRegionsWritten(env, db, parts, r.id, init);
    if i != j { NewRegionsPersist(env, db, parts, r.id, init, i); }
    SetLast(db, NewRegionWrites(env, parts, r.id, init), RegionStateKey(r.id), env.regionState(r, false));
  }

  lemma {:induction false} DerivedIs(regions: seq<Region>, id: nat, otherwise: Region, i: nat)
    requires i < |regions| && regions[i].id == id && forall j, k :: 0 <= j < k < |regions| ==>
      regions[j].id != regions[k].id
    ensures Derived(regions, id, otherwise) == regions[i]
    decreases |regions|
  {
    if regions[0].id != id { DerivedIs(regions[1..], id, otherwise, i - 1); }
  }

  /** The applier goes on with the part that keeps its id. */
  lemma DerivedFound(parts: seq<Region>, region: Region, req: Request)
    requires req.cmd.BatchSplit? && Exec(region, req).fault == Fine && parts == Exec(region, req).regions
    requires forall j, k :: 0 <= j < k < |parts| ==> parts[j].id != parts[k].id
    ensures var r := Derived(parts, region.id, region);
      r in parts && r.id == region.id
  {
    SplitFaultMeaning(region, req.cmd.reqs);
    var d := DerivedAt(|req.cmd.reqs|, req.cmd.rightDerive);
    assert parts[d].id == region.id;
    DerivedIs(parts, region.id, region, d);
  }

  lemma LocksAssoc(a: seq<LockEntry>, b: seq<LockEntry>, c: seq<LockEntry>)
    ensures (a + b) + c == a + (b + c)
  {
  }

  /** The operations of a log take effect one after the other. */
  lemma OpsInOrder(env: Env, kv: KV, ops: seq<LogOp>, op: LogOp)
    ensures AfterWrites(kv, OpsWrites(env, ops + [op])) ==
      AfterWrites(AfterWrites(kv, OpsWrites(env, ops)), OpWrites(env, op))
  {
    var ws, vs := OpsWrites(env, ops), OpWrites(env, op);
    assert (ops + [op])[..|ops|] == ops;
    AllEntriesJoin(ws, vs);
    AllLocksJoin(ws, vs);
    WrittenJoin(kv, AllEntries(ws), AllLocks(ws), AllEntries(vs), AllLocks(vs));
  }

  lemma {:induction false} AllLocksJoin(ws: seq<Write>, vs: seq<Write>)
    ensures AllLocks(ws + vs) == AllLocks(ws) + AllLocks(vs)
    decreases |vs|
  {
    if vs == [] {
      assert ws + vs == ws;
    } else {
      AllLocksJoin(ws, vs[..|vs| - 1]);
      assert (ws + vs)[..|ws + vs| - 1] == ws + vs[..|vs| - 1];
      LocksAssoc(AllLocks(ws), AllLocks(vs[..|vs| - 1]), LocksOf(vs[|vs| - 1]));
    }
  }

  lemma ChangeWrites(env: Env, app: App, req: Request)
    requires req.cmd.ChangePeer? && ExecAdmin(env, app, req).ok
    ensures var o := ExecAdmin(env, app, req);
      o.writes == [Set(RegionStateKey(app.region.id), env.regionState(o.app.region,
        req.cmd.ct == RemoveNode && req.cmd.peer.id == app.ownId))]
  {
    var r := Changed(app.region, req.cmd.ct, req.cmd.peer);
    assert Exec(app.region, req).regions == [r] && r.id == app.region.id;
    assert Derived([r], app.region.id, app.region) == r;
  }

  /** A membership change leaves the changed region in the store, marked if it removes the applier's own peer. */
  lemma ChangePersists(env: Env, db: Db, app: App, req: Request, state: Bytes)
    requires req.cmd.ChangePeer? && ExecAdmin(env, app, req).ok && state != []
    requires state == env.regionState(ExecAdmin(env, app, req).app.region,
      req.cmd.ct == RemoveNode && req.cmd.peer.id == app.ownId)
    ensures WriteEntries(db, AllEntries(ExecAdmin(env, app, req).writes)) ==
      db[RegionStateKey(app.region.id) := Cell(state, [])]
  {
    var w := Set(RegionStateKey(app.region.id), state);
    ChangeWrites(env, app, req);
    assert [] + [w] == [w] && AllEntries([]) == [];
    SetLast(db, [], w.key, w.value);
  }

  /** A new region starts out with index and term five, applied and truncated. */
  lemma InitialStateHolds()
    ensures StateHolds(InitialState(), 5, 5, 5)
  {
    StateBytesHold(5, 5, 5);
  }

  // What an applier is after a command

  /** Compaction moves the truncated position to the one asked for, if that is ahead and applied. */
  lemma CompactMeaning(env: Env, app: App, index: nat, term: nat)
    ensures var o, moves := ExecCommand(env, app, Compact(index, term)), index > app.truncatedIndex + 1;
      && (o.ok <==> moves ==> term != 0 && index <= app.appliedIndex)
      && o.writes == [] && o.app.region == app.region && o.app.appliedIndex == app.appliedIndex
      && o.app.ownId == app.ownId && o.app.pendingRemove == app.pendingRemove
      && o.app.truncatedIndex == (if moves && term != 0 && index <= app.appliedIndex then index else app.truncatedIndex)
      && o.app.truncatedTerm == (if moves && term != 0 && index <= app.appliedIndex then term else app.truncatedTerm)
  {
  }

  /** Every other command leaves the applier as it is; transaction operations need the version they were sent under. */
  lemma OthersKeepApplier(env: Env, app: App, cmd: Command)
    requires !cmd.Compact? && !(cmd.Admin? && (cmd.req.cmd.ChangePeer? || cmd.req.cmd.BatchSplit?))
    ensures ExecCommand(env, app, cmd).app == app
    ensures cmd.Custom? ==>
      (ExecCommand(env, app, cmd).ok <==> cmd.sent.version % 0x1_0000_0000 == app.region.epoch.version)
  {
    if cmd.Custom? { EpochByCommand(app.region.epoch, cmd.sent, Cmd.Write); }
  }

  /** Nothing but the region, and for the peer's own removal the mark, differs. */
  predicate OnlyRegion(app: App, now: App) {
    && now.ownId == app.ownId && now.appliedIndex == app.appliedIndex
    && now.truncatedIndex == app.truncatedIndex && now.truncatedTerm == app.truncatedTerm
  }

  /** A membership change that goes through. */
  lemma ChangePeerMeaning(env: Env, app: App, sent: Epoch, ct: ChangeType, peer: Peer)
    requires OnePerStore(app.region.peers)
    requires ExecCommand(env, app, Admin(Request(sent, ChangePeer(ct, peer)))).ok
    ensures var o, r := ExecCommand(env, app, Admin(Request(sent, ChangePeer(ct, peer)))), app.region;
      && OnlyRegion(app, o.app) && (o.app.pendingRemove <==> ct == RemoveNode && peer.id == app.ownId)
      && o.app.region.id == r.id && o.app.region.startKey == r.startKey && o.app.region.endKey == r.endKey
      && o.app.region.epoch == Epoch(r.epoch.confVer + 1, r.epoch.version)
      && Members(o.app.region.peers) == MembersAfter(r.peers, ct, peer)
  {
    ChangeTakesEffect(app.region, sent, ct, peer);
  }

  /** After a split the applier goes on with the part that keeps its id: the last one or the first. */
  lemma SplitMeaning(env: Env, app: App, sent: Epoch, reqs: seq<SplitRequest>, rightDerive: bool)
    requires ExecCommand(env, app, Admin(Request(sent, BatchSplit(reqs, rightDerive)))).ok
    requires forall i, j :: 0 <= i < j < |reqs| ==> reqs[i].newRegionId != reqs[j].newRegionId
    requires forall i :: 0 <= i < |reqs| ==> reqs[i].newRegionId != app.region.id
    ensures var o, r := ExecCommand(env, app, Admin(Request(sent, BatchSplit(reqs, rightDerive)))), app.region;
      && reqs != [] && OnlyRegion(app, o.app) && o.app.pendingRemove == app.pendingRemove
      && o.app.region == Region(r.id,
           if rightDerive then reqs[|reqs| - 1].splitKey else r.startKey,
           if rightDerive then r.endKey else reqs[0].splitKey,
           Epoch(r.epoch.confVer, r.epoch.version + |reqs|), r.peers)
  {
    var r := app.region;
    var parts := Exec(r, Request(sent, BatchSplit(reqs, rightDerive))).regions;
    SplitFaultMeaning(r, reqs);
    var d := if rightDerive then |reqs| else 0;
    forall i, j | 0 <= i < j < |parts| ensures parts[i].id != parts[j].id {
      assert parts[i] == Part(r, reqs, rightDerive, i) && parts[j] == Part(r, reqs, rightDerive, j);
    }
    DerivedIs(parts, r.id, r, d);
  }
}
