/**
 Applying committed entries through a shared write batch (`applyContext` in raftstore/applier.go),
 and why each flush leaves the store as if every entry had been applied on its own.
 */
module ApplyBatch {
  import opened Bytes
  import opened WriteBatch
  import opened ApplyCommands
  import Regions

  /** How a command is carried out: any function, so that failing half way through is covered too. */
  type Executor = (App, Command) -> Outcome

  datatype Callback = Callback(region: nat, index: nat)

  datatype Opened = Closed | Opened(region: nat, lastApplied: nat)

  type Apps = map<nat, App>

  /** `gone` are regions whose applier is no longer registered and whose stored apply state may be behind. */
  datatype Ctx = Ctx(
    disk: KV,
    batch: Batch,
    apps: Apps,
    open: Opened,
    awaiting: seq<Callback>,
    released: seq<Callback>,
    gone: set<nat>
  )

  /** `External` is another worker's write straight to the store: a snapshot put in place, or a region cleared. */
  datatype Event =
    | Register(id: nat, app: App)
    | Unregister(id: nat)
    | External(es: seq<Entry>, ls: seq<LockEntry>)
    | Prepare(id: nat)
    | Apply(id: nat, index: nat, cmd: Command)
    | Commit
    | Finish
    | Flush

  // One entry

  function NextApp(exec: Executor, app: App, index: nat, cmd: Command): App {
    var o := exec(app, cmd);
    (if cmd.Noop? || !o.ok then app else o.app).(appliedIndex := index)
  }

  /** The batch after a command: with its writes, or rolled back to where it started. */
  function NextBatch(exec: Executor, b: Batch, app: App, cmd: Command): Batch {
    if cmd.Noop? then b
    else
      var o := exec(app, cmd);
      RollBackUndoes(b, o.writes);
      var b' := PutAll(SafePointSet(b), o.writes);
      if o.ok then b' else RolledBack(b')
  }

  function StateWrite(app: App): Write {
    Set(ApplyStateKey(app.region.id), AppState(app))
  }

  function StateCell(app: App): Cell {
    Cell(AppState(app), [])
  }

  // The context, step by step

  /** `writeToDB`: nothing is written when the batch has no counted bytes; then the callbacks go. */
  function WriteToDB(c: Ctx): Ctx {
    var disk := if c.batch.size != 0 then Written(c.disk, c.batch.entries, c.batch.locks) else c.disk;
    var batch := if c.batch.size != 0 then EmptyBatch() else c.batch;
    c.(disk := disk, batch := batch, awaiting := [], released := c.released + c.awaiting)
  }

  /** The log of a region only grows: what was told of it before lies behind. */
  predicate NoneBeyond(cbs: seq<Callback>, id: nat, index: nat) {
    forall i :: 0 <= i < |cbs| && cbs[i].region == id ==> cbs[i].index <= index
  }

  predicate Writes(es: seq<Entry>, k: DbKey) {
    exists i :: 0 <= i < |es| && es[i].key == k
  }

  predicate WritesLock(ls: seq<LockEntry>, k: Bytes) {
    exists i :: 0 <= i < |ls| && ls[i].key == k
  }

  /** No key in both. */
  predicate KeysApart(b: Batch, es: seq<Entry>, ls: seq<LockEntry>) {
    && (forall i :: 0 <= i < |es| ==> !Writes(b.entries, es[i].key))
    && (forall i :: 0 <= i < |ls| ==> !WritesLock(b.locks, ls[i].key))
  }

  predicate Legal(c: Ctx, e: Event) {
    match e
    case Register(id, app) =>
      && id !in c.apps && id !in c.gone
      && NoneBeyond(c.released, id, app.appliedIndex) && NoneBeyond(c.awaiting, id, app.appliedIndex)
    case Unregister(id) => id in c.apps && !(c.open.Opened? && c.open.region == id)
    case External(es, ls) => KeysApart(c.batch, es, ls)
    case Prepare(id) => c.open.Closed? && id in c.apps && !c.apps[id].pendingRemove
    case Apply(id, index, _) =>
      && c.open.Opened? && c.open.region == id && id in c.apps
      && !c.apps[id].pendingRemove && index == c.apps[id].appliedIndex + 1
    case Commit => c.open.Opened? && c.open.region in c.apps && !c.apps[c.open.region].pendingRemove
    case Finish => c.open.Opened? && c.open.region in c.apps && c.apps[c.open.region].appliedIndex > 0
    case Flush => c.open.Closed?
  }

  function Step(exec: Executor, c: Ctx, e: Event): Ctx
    requires Legal(c, e)
  {
    match e
    case Register(id, app) => c.(apps := c.apps[id := app])
    case Unregister(id) =>
      c.(apps := c.apps - {id}, gone := if c.apps[id].pendingRemove then c.gone + {id} else c.gone)
    case External(es, ls) =>
      c.(disk := Written(c.disk, es, ls), gone := set id | id in c.gone && !Writes(es, ApplyStateKey(id)))
    case Prepare(id) => c.(open := Opened(id, c.apps[id].appliedIndex))
    case Apply(id, index, cmd) =>
      c.(batch := NextBatch(exec, c.batch, c.apps[id], cmd),
      apps := c.apps[id := NextApp(exec, c.apps[id], index, cmd)],
      awaiting := if cmd.Noop? then c.awaiting else c.awaiting + [Callback(id, index)])
    case Commit =>
      var app := c.apps[c.open.region];
      var b := if c.open.lastApplied < app.appliedIndex then Put(c.batch, StateWrite(app)) else c.batch;
      WriteToDB(c.(batch := b)).(open := Opened(c.open.region, app.appliedIndex))
    case Finish =>
      var app := c.apps[c.open.region];
      c.(batch := if app.pendingRemove then c.batch else Put(c.batch, StateWrite(app)), open := Closed)
    case Flush => WriteToDB(c)
  }

  // The same entries one by one, straight to the store

  datatype Direct = Direct(kv: KV, apps: Apps)

  function DirectStep(exec: Executor, d: Direct, e: Event): Direct {
    match e
    case Register(id, app) => d.(apps := d.apps[id := app])
    case Unregister(id) => d.(apps := d.apps - {id})
    case External(es, ls) => d.(kv := Written(d.kv, es, ls))
    case Apply(id, index, cmd) =>
      if id !in d.apps then d
      else
        var o, app := exec(d.apps[id], cmd), NextApp(exec, d.apps[id], index, cmd);
        var kv := if cmd.Noop? || !o.ok then d.kv else Written(d.kv, AllEntries(o.writes), AllLocks(o.writes));
        Direct(kv.(db := kv.db[ApplyStateKey(id) := StateCell(app)]), d.apps[id := app])
    case _ => d
  }

  // Agreement

  predicate SameAt(a: Db, b: Db, k: DbKey) {
    (k in a <==> k in b) && (k in a ==> a[k] == b[k])
  }

  /** Regions whose stored apply state may be behind: being removed or gone, or with entries since the last write. */
  predicate Exempt(c: Ctx, id: nat) {
    id in c.gone || (id in c.apps && (c.apps[id].pendingRemove || Dirty(c, id)))
  }

  predicate Dirty(c: Ctx, id: nat)
    requires id in c.apps
  {
    c.open.Opened? && c.open.region == id && c.open.lastApplied < c.apps[id].appliedIndex
  }

  predicate Removing(c: Ctx, id: nat) {
    id in c.gone || (id in c.apps && c.apps[id].pendingRemove)
  }

  ghost predicate Agree(a: KV, b: KV, c: Ctx) {
    && a.locks == b.locks
    && (forall k: DbKey :: SameAt(a.db, b.db, k) || (k.ApplyStateKey? && Exempt(c, k.region)))
  }

  ghost function Ahead(c: Ctx): KV {
    Written(c.disk, c.batch.entries, c.batch.locks)
  }

  predicate Stored(kv: KV, app: App) {
    var k := ApplyStateKey(app.region.id);
    k in kv.db && kv.db[k] == StateCell(app)
  }

  /** An uninitialized peer has applied nothing and has no stored state. */
  predicate StoredOrBlank(kv: KV, app: App) {
    app.appliedIndex == 0 || Stored(kv, app)
  }

  /** A command keeps the region's id, and one that removes the peer writes the region's state. */
  ghost predicate Sane(exec: Executor) {
    forall app, cmd :: exec(app, cmd).ok ==> SaneOutcome(app, exec(app, cmd))
  }

  predicate SaneOutcome(app: App, o: Outcome) {
    && o.app.region.id == app.region.id
    && (o.app.pendingRemove && !app.pendingRemove ==> exists i :: 0 <= i < |o.writes| && SizeOf(o.writes[i]) > 0)
  }

  /** Ids are handed out once: no write touches the apply state of a registered region. */
  ghost predicate Untouched(apps: Apps, es: seq<Entry>) {
    forall i :: 0 <= i < |es| && es[i].key.ApplyStateKey? ==> es[i].key.region !in apps
  }

  ghost predicate Fresh(exec: Executor, d: Direct, e: Event) {
    match e
    case Register(id, app) => app.region.id == id && !app.pendingRemove && StoredOrBlank(d.kv, app)
    case External(es, _) => Untouched(d.apps, es)
    case Apply(id, _, cmd) => id in d.apps ==> Untouched(d.apps, AllEntries(exec(d.apps[id], cmd).writes))
    case _ => true
  }

  ghost predicate Inv(c: Ctx, d: Direct) {
    && c.apps == d.apps && c.gone !! c.apps.Keys
    && Agree(Ahead(c), d.kv, c)
    && (forall id :: id in d.apps ==>
      d.apps[id].region.id == id && (!d.apps[id].pendingRemove ==> StoredOrBlank(d.kv, d.apps[id])))
    && OpenOk(c)
    && AllReached(c.apps, c.awaiting) && AllReached(c.apps, c.released)
  }

  ghost predicate AllReached(apps: Apps, cbs: seq<Callback>) {
    forall i :: 0 <= i < |cbs| ==> Reached(apps, cbs[i])
  }

  predicate Reached(apps: Apps, cb: Callback) {
    cb.region in apps ==> cb.index <= apps[cb.region].appliedIndex
  }

  predicate NothingIn(b: Batch) {
    b.entries == [] && b.locks == []
  }

  /** An uncounted batch is empty, unless the open region still has to add its apply state. */
  ghost predicate OpenOk(c: Ctx) {
    && (c.open.Opened? ==> c.open.region in c.apps && c.open.lastApplied <= c.apps[c.open.region].appliedIndex)
    && (c.batch.size > 0 || NothingIn(c.batch) ||
      (c.open.Opened? && Dirty(c, c.open.region) && !c.apps[c.open.region].pendingRemove))
  }

  // Writing keeps agreement

  lemma {:induction false} SameKept(a: Db, b: Db, es: seq<Entry>, k: DbKey)
    requires SameAt(a, b, k)
    ensures SameAt(WriteEntries(a, es), WriteEntries(b, es), k)
    decreases |es|
  {
    if es != [] { SameKept(a, b, es[..|es| - 1], k); }
  }

  lemma {:induction false} UntouchedKept(db: Db, es: seq<Entry>, k: DbKey)
    requires !Writes(es, k)
    ensures SameAt(db, WriteEntries(db, es), k)
    decreases |es|
  {
    if es != [] {
      var front := es[..|es| - 1];
      assert es[|es| - 1].key != k;
      assert forall i :: 0 <= i < |front| ==> front[i] == es[i];
      UntouchedKept(db, front, k);
    }
  }

  /** A key that is written ends up the same wherever the writing starts. */
  lemma {:induction false} WrittenSame(a: Db, b: Db, es: seq<Entry>, k: DbKey)
    requires Writes(es, k)
    ensures SameAt(WriteEntries(a, es), WriteEntries(b, es), k)
    decreases |es|
  {
    var front := es[..|es| - 1];
    if es[|es| - 1].key != k {
      var i :| 0 <= i < |es| && es[i].key == k;
      assert front[i].key == k;
      WrittenSame(a, b, front, k);
    }
  }

  predicate SameLock(a: Locks, b: Locks, k: Bytes) {
    (k in a <==> k in b) && (k in a ==> a[k] == b[k])
  }

  lemma {:induction false} LockKept(a: Locks, b: Locks, ls: seq<LockEntry>, k: Bytes)
    requires SameLock(a, b, k) || WritesLock(ls, k)
    ensures SameLock(WriteLocks(a, ls), WriteLocks(b, ls), k)
    decreases |ls|
  {
    if ls != [] && ls[|ls| - 1].key != k {
      var front := ls[..|ls| - 1];
      if WritesLock(ls, k) {
        var i :| 0 <= i < |ls| && ls[i].key == k;
        assert front[i].key == k;
      }
      LockKept(a, b, front, k);
    }
  }

  lemma {:induction false} LockUntouched(a: Locks, ls: seq<LockEntry>, k: Bytes)
    requires !WritesLock(ls, k)
    ensures SameLock(a, WriteLocks(a, ls), k)
    decreases |ls|
  {
    if ls != [] {
      var front := ls[..|ls| - 1];
      assert ls[|ls| - 1].key != k;
      assert forall i :: 0 <= i < |front| ==> front[i] == ls[i];
      LockUntouched(a, front, k);
    }
  }

  /** Writes of different keys change places. */
  lemma LocksCommute(a: Locks, ls: seq<LockEntry>, ms: seq<LockEntry>)
    requires forall i :: 0 <= i < |ls| ==> !WritesLock(ms, ls[i].key)
    ensures WriteLocks(WriteLocks(a, ls), ms) == WriteLocks(WriteLocks(a, ms), ls)
  {
    var x, y := WriteLocks(WriteLocks(a, ls), ms), WriteLocks(WriteLocks(a, ms), ls);
    forall k ensures (k in x <==> k in y) && (k in x ==> x[k] == y[k]) {
      if WritesLock(ls, k) {
        LockUntouched(WriteLocks(a, ls), ms, k);
        LockKept(a, WriteLocks(a, ms), ls, k);
      } else {
        LockUntouched(a, ls, k);
        LockUntouched(WriteLocks(a, ms), ls, k);
        LockKept(a, WriteLocks(a, ls), ms, k);
      }
    }
  }

  lemma EntryCommutes(a: Db, es: seq<Entry>, fs: seq<Entry>, k: DbKey)
    requires forall i :: 0 <= i < |es| ==> !Writes(fs, es[i].key)
    ensures SameAt(WriteEntries(WriteEntries(a, es), fs), WriteEntries(WriteEntries(a, fs), es), k)
  {
    if Writes(es, k) {
      UntouchedKept(WriteEntries(a, es), fs, k);
      WrittenSame(a, WriteEntries(a, fs), es, k);
    } else {
      UntouchedKept(a, es, k);
      UntouchedKept(WriteEntries(a, fs), es, k);
      SameKept(a, WriteEntries(a, es), fs, k);
    }
  }

  /** What the batch adds up to after a command. */
  lemma NextBatchAhead(exec: Executor, kv: KV, b: Batch, app: App, cmd: Command)
    ensures var b', o := NextBatch(exec, b, app, cmd), exec(app, cmd);
      && Written(kv, b'.entries, b'.locks) ==
        (if cmd.Noop? || !o.ok then Written(kv, b.entries, b.locks)
        else Written(Written(kv, b.entries, b.locks), AllEntries(o.writes), AllLocks(o.writes)))
      && b'.size >= b.size
      && (!cmd.Noop? && o.ok ==> forall i :: 0 <= i < |o.writes| ==> b'.size >= SizeOf(o.writes[i]))
  {
    var o := exec(app, cmd);
    if !cmd.Noop? {
      RollBackUndoes(b, o.writes);
      if o.ok {
        PutAllMeaning(SafePointSet(b), o.writes);
        PutAllGrows(SafePointSet(b), o.writes);
        WrittenJoin(kv, b.entries, b.locks, AllEntries(o.writes), AllLocks(o.writes));
      }
    }
  }

  /** Adding a region's apply state to the batch. */
  lemma StateWriteAhead(kv: KV, b: Batch, b': Batch, app: App)
    requires b' == Put(b, StateWrite(app))
    ensures b'.size > 0 && WriteLocks(kv.locks, b'.locks) == WriteLocks(kv.locks, b.locks)
    ensures WriteEntries(kv.db, b'.entries) ==
      WriteEntries(kv.db, b.entries)[ApplyStateKey(app.region.id) := StateCell(app)]
  {
    var e := Entry(ApplyStateKey(app.region.id), StateCell(app));
    assert b'.entries == b.entries + [e] && b'.locks == b.locks;
    assert (b.entries + [e])[..|b.entries|] == b.entries;
    assert StateCell(app) != Cell([], []);
  }

  /** A failed command leaves the batch as it was, and of itself only its index. */
  lemma FailedAddsOnlyIndex(exec: Executor, c: Ctx, e: Event)
    requires e.Apply? && Legal(c, e) && !e.cmd.Noop? && !exec(c.apps[e.id], e.cmd).ok
    ensures var c' := Step(exec, c, e);
      && c'.batch == SafePointSet(c.batch) && c'.disk == c.disk
      && c'.apps == c.apps[e.id := c.apps[e.id].(appliedIndex := e.index)]
  {
    RollBackUndoes(c.batch, exec(c.apps[e.id], e.cmd).writes);
  }

  // Each event keeps the invariant

  lemma ApplyAgrees(exec: Executor, c: Ctx, d: Direct, e: Event)
    requires Sane(exec) && Inv(c, d) && e.Apply? && Legal(c, e)
    ensures Agree(Ahead(Step(exec, c, e)), DirectStep(exec, d, e).kv, Step(exec, c, e))
  {
    var c', d', o := Step(exec, c, e), DirectStep(exec, d, e), exec(c.apps[e.id], e.cmd);
    NextBatchAhead(exec, c.disk, c.batch, c.apps[e.id], e.cmd);
    forall k: DbKey ensures SameAt(Ahead(c').db, d'.kv.db, k) || (k.ApplyStateKey? && Exempt(c', k.region)) {
      if k != ApplyStateKey(e.id) && SameAt(Ahead(c).db, d.kv.db, k) {
        SameKept(Ahead(c).db, d.kv.db, AllEntries(o.writes), k);
      }
    }
  }

  lemma ApplyStored(exec: Executor, d: Direct, e: Event, id: nat)
    requires Sane(exec) && e.Apply? && e.id in d.apps && Fresh(exec, d, e) && id in d.apps
    requires d.apps[id].region.id == id && (!d.apps[id].pendingRemove ==> StoredOrBlank(d.kv, d.apps[id]))
    ensures var d' := DirectStep(exec, d, e);
      d'.apps[id].region.id == id && (!d'.apps[id].pendingRemove ==> StoredOrBlank(d'.kv, d'.apps[id]))
  {
    var o := exec(d.apps[e.id], e.cmd);
    if id == e.id {
      assert o.ok ==> SaneOutcome(d.apps[id], o);
    } else {
      UntouchedKept(d.kv.db, AllEntries(o.writes), ApplyStateKey(id));
    }
  }

  lemma ApplyOpenOk(exec: Executor, c: Ctx, d: Direct, e: Event)
    requires Sane(exec) && Inv(c, d) && e.Apply? && Legal(c, e)
    ensures OpenOk(Step(exec, c, e))
  {
    var app, o := c.apps[e.id], exec(c.apps[e.id], e.cmd);
    NextBatchAhead(exec, c.disk, c.batch, app, e.cmd);
    assert o.ok ==> SaneOutcome(app, o);
  }

  lemma ApplyInv(exec: Executor, c: Ctx, d: Direct, e: Event)
    requires Sane(exec) && Inv(c, d) && e.Apply? && Legal(c, e) && Fresh(exec, d, e)
    ensures Inv(Step(exec, c, e), DirectStep(exec, d, e))
  {
    var c', d' := Step(exec, c, e), DirectStep(exec, d, e);
    ApplyAgrees(exec, c, d, e);
    ApplyOpenOk(exec, c, d, e);
    forall id | id in d'.apps
      ensures d'.apps[id].region.id == id && (!d'.apps[id].pendingRemove ==> StoredOrBlank(d'.kv, d'.apps[id]))
    {
      ApplyStored(exec, d, e, id);
    }
    forall cb | Reached(c.apps, cb) ensures Reached(c'.apps, cb) {}
  }

  lemma RegisterInv(exec: Executor, c: Ctx, d: Direct, e: Event)
    requires Inv(c, d) && e.Register? && Legal(c, e) && Fresh(exec, d, e)
    ensures Inv(Step(exec, c, e), DirectStep(exec, d, e))
  {
    var c' := Step(exec, c, e);
    forall k: DbKey ensures SameAt(Ahead(c').db, d.kv.db, k) || (k.ApplyStateKey? && Exempt(c', k.region)) {
      assert SameAt(Ahead(c).db, d.kv.db, k) || (k.ApplyStateKey? && Exempt(c, k.region));
    }
    forall i | 0 <= i < |c.released| ensures Reached(c'.apps, c.released[i]) {
      assert Reached(c.apps, c.released[i]);
    }
    forall i | 0 <= i < |c.awaiting| ensures Reached(c'.apps, c.awaiting[i]) {
      assert Reached(c.apps, c.awaiting[i]);
    }
  }

  lemma UnregisterInv(exec: Executor, c: Ctx, d: Direct, e: Event)
    requires Inv(c, d) && e.Unregister? && Legal(c, e)
    ensures Inv(Step(exec, c, e), DirectStep(exec, d, e))
  {
    var c' := Step(exec, c, e);
    forall k: DbKey ensures SameAt(Ahead(c').db, d.kv.db, k) || (k.ApplyStateKey? && Exempt(c', k.region)) {
      assert SameAt(Ahead(c).db, d.kv.db, k) || (k.ApplyStateKey? && Exempt(c, k.region));
    }
    forall cb | Reached(c.apps, cb) ensures Reached(c'.apps, cb) {}
  }

  lemma ExternalAgrees(exec: Executor, c: Ctx, d: Direct, es: seq<Entry>, ls: seq<LockEntry>, c': Ctx)
    requires Inv(c, d) && KeysApart(c.batch, es, ls) && c' == Step(exec, c, External(es, ls))
    ensures Agree(Ahead(c'), Written(d.kv, es, ls), c')
  {
    LocksCommute(c.disk.locks, ls, c.batch.locks);
    var db := c.disk.db;
    forall k: DbKey
      ensures SameAt(Ahead(c').db, WriteEntries(d.kv.db, es), k) || (k.ApplyStateKey? && Exempt(c', k.region))
    {
      EntryCommutes(db, es, c.batch.entries, k);
      if Writes(es, k) {
        WrittenSame(Ahead(c).db, d.kv.db, es, k);
      } else if SameAt(Ahead(c).db, d.kv.db, k) {
        SameKept(Ahead(c).db, d.kv.db, es, k);
      }
    }
  }

  lemma ExternalInv(exec: Executor, c: Ctx, d: Direct, e: Event)
    requires Inv(c, d) && e.External? && Legal(c, e) && Fresh(exec, d, e)
    ensures Inv(Step(exec, c, e), DirectStep(exec, d, e))
  {
    ExternalAgrees(exec, c, d, e.es, e.ls, Step(exec, c, e));
    forall id | id in d.apps && !d.apps[id].pendingRemove
      ensures StoredOrBlank(Written(d.kv, e.es, e.ls), d.apps[id])
    {
      UntouchedKept(d.kv.db, e.es, ApplyStateKey(id));
    }
  }

  lemma PrepareInv(exec: Executor, c: Ctx, d: Direct, e: Event)
    requires Inv(c, d) && e.Prepare? && Legal(c, e)
    ensures Inv(Step(exec, c, e), d)
  {
    var c' := Step(exec, c, e);
    forall k: DbKey ensures SameAt(Ahead(c').db, d.kv.db, k) || (k.ApplyStateKey? && Exempt(c', k.region)) {
      assert SameAt(Ahead(c).db, d.kv.db, k) || (k.ApplyStateKey? && Exempt(c, k.region));
    }
  }

  /** The open region's apply state goes into the batch, and the region is no longer behind. */
  lemma StateAdded(c: Ctx, d: Direct, c': Ctx)
    requires Inv(c, d) && c.open.Opened?
    requires !c.apps[c.open.region].pendingRemove && c.apps[c.open.region].appliedIndex > 0
    requires c' == c.(batch := Put(c.batch, StateWrite(c.apps[c.open.region])), open := c'.open)
    requires c'.open == Closed || c'.open == Opened(c.open.region, c.apps[c.open.region].appliedIndex)
    ensures Inv(c', d)
  {
    var app := c.apps[c.open.region];
    StateWriteAhead(c.disk, c.batch, c'.batch, app);
    forall k: DbKey ensures SameAt(Ahead(c').db, d.kv.db, k) || (k.ApplyStateKey? && Exempt(c', k.region)) {
      assert SameAt(Ahead(c).db, d.kv.db, k) || (k.ApplyStateKey? && Exempt(c, k.region));
    }
  }

  /** Writing out: the store itself now agrees, and every callback let go has its entry's index in the store. */
  lemma WriteOut(c: Ctx, d: Direct)
    requires Inv(c, d) && (c.open.Opened? ==> c.open.lastApplied == c.apps[c.open.region].appliedIndex)
    ensures var c' := WriteToDB(c);
      && Inv(c', d) && NothingIn(c'.batch) && Agree(c'.disk, d.kv, c')
  {
    var c' := WriteToDB(c);
    assert NothingIn(c.batch) ==> Ahead(c) == c.disk;
    assert Ahead(c') == Ahead(c) == c'.disk;
    forall k: DbKey ensures SameAt(c'.disk.db, d.kv.db, k) || (k.ApplyStateKey? && Exempt(c', k.region)) {
      assert SameAt(Ahead(c).db, d.kv.db, k) || (k.ApplyStateKey? && Exempt(c, k.region));
    }
  }

  lemma CommitInv(exec: Executor, c: Ctx, d: Direct)
    requires Inv(c, d) && Legal(c, Commit)
    ensures Flushed(Step(exec, c, Commit), d)
  {
    var app := c.apps[c.open.region];
    var c1 := c.(open := Opened(c.open.region, app.appliedIndex));
    if c.open.lastApplied < app.appliedIndex {
      c1 := c1.(batch := Put(c.batch, StateWrite(app)));
      StateAdded(c, d, c1);
    }
    WriteOut(c1, d);
    assert Step(exec, c, Commit) == WriteToDB(c1);
  }

  lemma FinishInv(exec: Executor, c: Ctx, d: Direct)
    requires Inv(c, d) && Legal(c, Finish)
    ensures Inv(Step(exec, c, Finish), d)
  {
    var c' := Step(exec, c, Finish);
    if !c.apps[c.open.region].pendingRemove {
      StateAdded(c, d, c');
    } else {
      forall k: DbKey ensures SameAt(Ahead(c').db, d.kv.db, k) || (k.ApplyStateKey? && Exempt(c', k.region)) {
        assert SameAt(Ahead(c).db, d.kv.db, k) || (k.ApplyStateKey? && Exempt(c, k.region));
      }
    }
  }

  /** The store agrees with the one-by-one run, with an empty batch. */
  ghost predicate Flushed(c: Ctx, d: Direct) {
    Inv(c, d) && NothingIn(c.batch) && Agree(c.disk, d.kv, c) && (forall id :: id in c.apps ==> !Dirty(c, id))
  }

  lemma StepInv(exec: Executor, c: Ctx, d: Direct, e: Event)
    requires Sane(exec) && Inv(c, d) && Legal(c, e) && Fresh(exec, d, e)
    ensures Inv(Step(exec, c, e), DirectStep(exec, d, e))
    ensures e.Commit? || e.Flush? ==> Flushed(Step(exec, c, e), d)
  {
    match e
    case Register(_, _) => RegisterInv(exec, c, d, e);
    case Unregister(_) => UnregisterInv(exec, c, d, e);
    case External(_, _) => ExternalInv(exec, c, d, e);
    case Prepare(_) => PrepareInv(exec, c, d, e);
    case Apply(_, _, _) => ApplyInv(exec, c, d, e);
    case Commit => CommitInv(exec, c, d);
    case Finish => FinishInv(exec, c, d);
    case Flush => WriteOut(c, d);
  }

  // Runs

  /** The events in order, each skipped if it is not legal where it comes. */
  ghost function Run(exec: Executor, c: Ctx, es: seq<Event>): Ctx
    decreases |es|
  {
    if es == [] then c
    else
      var m := Run(exec, c, es[..|es| - 1]);
      if Legal(m, es[|es| - 1]) then Step(exec, m, es[|es| - 1]) else m
  }

  ghost predicate LegalRun(exec: Executor, c: Ctx, es: seq<Event>)
    decreases |es|
  {
    es == [] || (LegalRun(exec, c, es[..|es| - 1]) && Legal(Run(exec, c, es[..|es| - 1]), es[|es| - 1]))
  }

  function DirectRun(exec: Executor, d: Direct, es: seq<Event>): Direct
    decreases |es|
  {
    if es == [] then d else DirectStep(exec, DirectRun(exec, d, es[..|es| - 1]), es[|es| - 1])
  }

  ghost predicate FreshRun(exec: Executor, d: Direct, es: seq<Event>)
    decreases |es|
  {
    es == [] ||
    (FreshRun(exec, d, es[..|es| - 1]) && Fresh(exec, DirectRun(exec, d, es[..|es| - 1]), es[|es| - 1]))
  }

  lemma {:induction false} RunInv(exec: Executor, c: Ctx, d: Direct, es: seq<Event>)
    requires Sane(exec) && Inv(c, d) && LegalRun(exec, c, es) && FreshRun(exec, d, es)
    ensures Inv(Run(exec, c, es), DirectRun(exec, d, es))
    ensures es != [] && (es[|es| - 1].Commit? || es[|es| - 1].Flush?) ==>
      Flushed(Run(exec, c, es), DirectRun(exec, d, es)) && Run(exec, c, es).awaiting == []
    decreases |es|
  {
    if es != [] {
      var n := |es| - 1;
      RunInv(exec, c, d, es[..n]);
      StepInv(exec, Run(exec, c, es[..n]), DirectRun(exec, d, es[..n]), es[n]);
    }
  }

  function Start(kv: KV): Ctx {
    Ctx(kv, EmptyBatch(), map[], Closed, [], [], {})
  }

  /**
   At every flush, in the middle of a batch or at its end: the store equals the entries applied one
   by one, except for the apply states of regions being removed; and every callback let go so far
   belongs to such a region, to one no longer registered, or to an entry whose index the store has reached.
   */
  lemma FlushedAsIfOneByOne(exec: Executor, kv: KV, es: seq<Event>)
    requires Sane(exec) && LegalRun(exec, Start(kv), es) && FreshRun(exec, Direct(kv, map[]), es)
    requires es != [] && (es[|es| - 1].Commit? || es[|es| - 1].Flush?)
    ensures var c, d := Run(exec, Start(kv), es), DirectRun(exec, Direct(kv, map[]), es);
      AsIfOneByOne(c, d) && c.awaiting == []
  {
    StartInv(kv);
    RunInv(exec, Start(kv), Direct(kv, map[]), es);
    FlushedMeaning(Run(exec, Start(kv), es), DirectRun(exec, Direct(kv, map[]), es));
  }

  ghost predicate AsIfOneByOne(c: Ctx, d: Direct) {
    && c.apps == d.apps
    && c.disk.locks == d.kv.locks
    && (forall k: DbKey :: SameAt(c.disk.db, d.kv.db, k) || (k.ApplyStateKey? && Removing(c, k.region)))
    && (forall id :: id in c.apps && !Removing(c, id) ==> StoredOrBlank(c.disk, c.apps[id]))
    && (forall i :: 0 <= i < |c.released| ==> Reached(c.apps, c.released[i]))
  }

  /** The stored apply state of a region says `index` and the applier's truncated position. */
  predicate StateOnDisk(kv: KV, id: nat, index: nat, app: App) {
    var k := ApplyStateKey(id);
    k in kv.db && StateHolds(kv.db[k].value, index, app.truncatedIndex, app.truncatedTerm)
  }

  lemma FlushedStates(c: Ctx, d: Direct, id: nat)
    requires Flushed(c, d) && id in c.apps && !Removing(c, id) && c.apps[id].appliedIndex > 0
    ensures StateOnDisk(c.disk, id, c.apps[id].appliedIndex, c.apps[id])
  {
    var app := c.apps[id];
    FlushedMeaning(c, d);
    StateBytesHold(app.appliedIndex, app.truncatedIndex, app.truncatedTerm);
  }

  /** The index of the last entry done for a region, told by the events alone. */
  function LastDone(es: seq<Event>, id: nat): nat
    decreases |es|
  {
    if es == [] then 0
    else
      var last := es[|es| - 1];
      if last.Apply? && last.id == id then last.index
      else if last.Register? && last.id == id then last.app.appliedIndex
      else LastDone(es[..|es| - 1], id)
  }

  lemma {:induction false} IndexDone(exec: Executor, kv: KV, es: seq<Event>, id: nat)
    requires LegalRun(exec, Start(kv), es) && id in Run(exec, Start(kv), es).apps
    ensures Run(exec, Start(kv), es).apps[id].appliedIndex == LastDone(es, id)
    decreases |es|
  {
    if es != [] {
      var front := es[..|es| - 1];
      if id in Run(exec, Start(kv), front).apps { IndexDone(exec, kv, front, id); }
    }
  }

  /** After every flush the store has, for every region at work, the index of the last entry done. */
  lemma FlushedIndexes(exec: Executor, kv: KV, es: seq<Event>, id: nat)
    requires Sane(exec) && LegalRun(exec, Start(kv), es) && FreshRun(exec, Direct(kv, map[]), es)
    requires es != [] && (es[|es| - 1].Commit? || es[|es| - 1].Flush?)
    ensures var c := Run(exec, Start(kv), es);
      id in c.apps && !Removing(c, id) && LastDone(es, id) > 0 ==>
        StateOnDisk(c.disk, id, LastDone(es, id), c.apps[id])
  {
    var c, d := Run(exec, Start(kv), es), DirectRun(exec, Direct(kv, map[]), es);
    StartInv(kv);
    RunInv(exec, Start(kv), Direct(kv, map[]), es);
    if id in c.apps && !Removing(c, id) && LastDone(es, id) > 0 {
      IndexDone(exec, kv, es, id);
      FlushedStates(c, d, id);
    }
  }

  lemma FlushedMeaning(c: Ctx, d: Direct)
    requires Flushed(c, d)
    ensures AsIfOneByOne(c, d)
  {
    forall k: DbKey ensures SameAt(c.disk.db, d.kv.db, k) || (k.ApplyStateKey? && Removing(c, k.region)) {
      assert SameAt(c.disk.db, d.kv.db, k) || (k.ApplyStateKey? && Exempt(c, k.region));
    }
    forall id | id in c.apps && !Removing(c, id) ensures StoredOrBlank(c.disk, c.apps[id]) {
      assert SameAt(c.disk.db, d.kv.db, ApplyStateKey(id));
    }
  }

  lemma StartInv(kv: KV)
    ensures Inv(Start(kv), Direct(kv, map[]))
  {
    assert Ahead(Start(kv)) == kv;
  }

  /** The commands of this repository meet what the theorem asks of an executor. */
  lemma ExecCommandSane(env: Env)
    ensures Sane((app, cmd) => ExecCommand(env, app, cmd))
  {
    forall app: App, cmd | ExecCommand(env, app, cmd).ok ensures SaneOutcome(app, ExecCommand(env, app, cmd)) {
      if cmd.Admin? { AdminSane(env, app, cmd.req); }
    }
  }

  lemma AdminSane(env: Env, app: App, req: Regions.Request)
    ensures ExecAdmin(env, app, req).ok ==> SaneOutcome(app, ExecAdmin(env, app, req))
  {
    var o := ExecAdmin(env, app, req);
    DerivedKeepsId(Regions.Exec(app.region, req).regions, app.region);
    if o.ok && req.cmd.ChangePeer? { assert SizeOf(o.writes[0]) > 0; }
  }

  lemma {:induction false} DerivedKeepsId(regions: seq<Regions.Region>, r: Regions.Region)
    ensures Derived(regions, r.id, r).id == r.id
    decreases |regions|
  {
    if regions != [] && regions[0].id != r.id { DerivedKeepsId(regions[1..], r); }
  }

  // Callbacks

  function CallbackOf(e: Event): seq<Callback> {
    if e.Apply? && !e.cmd.Noop? then [Callback(e.id, e.index)] else []
  }

  /** The callbacks of all entries but empty ones, in the order of the events. */
  function CallbacksOf(es: seq<Event>): seq<Callback>
    decreases |es|
  {
    if es == [] then []
    else CallbacksOf(es[..|es| - 1]) + CallbackOf(es[|es| - 1])
  }

  /** Every entry's callback waits or has been let go, once and in order; after a flush none waits. */
  lemma {:induction false} RunCallbacks(exec: Executor, c: Ctx, es: seq<Event>)
    requires LegalRun(exec, c, es)
    ensures var c' := Run(exec, c, es);
      && c'.released + c'.awaiting == (c.released + c.awaiting) + CallbacksOf(es)
      && (es != [] && (es[|es| - 1].Commit? || es[|es| - 1].Flush?) ==> c'.awaiting == [])
    decreases |es|
  {
    if es == [] {
      assert (c.released + c.awaiting) + [] == c.released + c.awaiting;
    } else {
      var front := es[..|es| - 1];
      RunCallbacks(exec, c, front);
      CallbackStep(exec, Run(exec, c, front), es[|es| - 1]);
      CallbackAssoc(c.released + c.awaiting, CallbacksOf(front), es[|es| - 1]);
    }
  }

  lemma CallbackStep(exec: Executor, c: Ctx, e: Event)
    requires Legal(c, e)
    ensures Step(exec, c, e).released + Step(exec, c, e).awaiting == (c.released + c.awaiting) + CallbackOf(e)
  {
    assert (c.released + c.awaiting) + [] == c.released + c.awaiting;
    assert (c.released + c.awaiting) + CallbackOf(e) == c.released + (c.awaiting + CallbackOf(e));
  }

  lemma CallbackAssoc(a: seq<Callback>, b: seq<Callback>, e: Event)
    ensures (a + b) + CallbackOf(e) == a + (b + CallbackOf(e))
  {
  }

  // What a command of this repository leaves of the applier

  /** The region an applier goes on with after a membership change. */
  lemma RegionChanged(env: Env, exec: Executor, c: Ctx, id: nat, index: nat, sent: Regions.Epoch,
                      ct: Regions.ChangeType, peer: Regions.Peer)
    requires exec == ((a, cmd) => ExecCommand(env, a, cmd))
    requires var cmd := Admin(Regions.Request(sent, Regions.ChangePeer(ct, peer)));
      Legal(c, Apply(id, index, cmd)) && exec(c.apps[id], cmd).ok && Regions.OnePerStore(c.apps[id].region.peers)
    ensures var r, e := c.apps[id].region,
        Apply(id, index, Admin(Regions.Request(sent, Regions.ChangePeer(ct, peer))));
      var now := Step(exec, c, e).apps[id];
      && now.region.id == r.id && now.region.startKey == r.startKey && now.region.endKey == r.endKey
      && now.region.epoch == Regions.Epoch(r.epoch.confVer + 1, r.epoch.version)
      && Regions.Members(now.region.peers) == Regions.MembersAfter(r.peers, ct, peer)
      && (now.pendingRemove <==> ct == Regions.RemoveNode && peer.id == c.apps[id].ownId)
  {
    ChangePeerMeaning(env, c.apps[id], sent, ct, peer);
  }

  /** The part of its region an applier goes on with after a split. */
  lemma RegionSplit(env: Env, exec: Executor, c: Ctx, id: nat, index: nat, sent: Regions.Epoch,
                    reqs: seq<Regions.SplitRequest>, rightDerive: bool)
    requires exec == ((a, cmd) => ExecCommand(env, a, cmd))
    requires var cmd := Admin(Regions.Request(sent, Regions.BatchSplit(reqs, rightDerive)));
      Legal(c, Apply(id, index, cmd)) && exec(c.apps[id], cmd).ok
    requires forall i, j :: 0 <= i < j < |reqs| ==> reqs[i].newRegionId != reqs[j].newRegionId
    requires forall i :: 0 <= i < |reqs| ==> reqs[i].newRegionId != c.apps[id].region.id
    ensures var r, e := c.apps[id].region,
        Apply(id, index, Admin(Regions.Request(sent, Regions.BatchSplit(reqs, rightDerive))));
      && reqs != []
      && Step(exec, c, e).apps[id].region == Regions.Region(r.id,
           if rightDerive then reqs[|reqs| - 1].splitKey else r.startKey,
           if rightDerive then r.endKey else reqs[0].splitKey,
           Regions.Epoch(r.epoch.confVer, r.epoch.version + |reqs|), r.peers)
  {
    SplitMeaning(env, c.apps[id], sent, reqs, rightDerive);
  }

  // The positions of this repository's commands

  datatype Position = Position(index: nat, term: nat)

  /** Where the log of a region is truncated, told by the events alone. */
  function TruncatedAt(es: seq<Event>, id: nat): Position
    decreases |es|
  {
    if es == [] then Position(0, 0)
    else
      var front, last := es[..|es| - 1], es[|es| - 1];
      if last.Register? && last.id == id then Position(last.app.truncatedIndex, last.app.truncatedTerm)
      else if last.Apply? && last.id == id && last.cmd.Compact? then
        var p, index, term := TruncatedAt(front, id), last.cmd.compactIndex, last.cmd.compactTerm;
        if index > p.index + 1 && term != 0 && index <= LastDone(front, id) then Position(index, term) else p
      else TruncatedAt(front, id)
  }

  lemma TruncatesAs(env: Env, app: App, index: nat, cmd: Command)
    ensures var now := NextApp((a, c) => ExecCommand(env, a, c), app, index, cmd);
      Position(now.truncatedIndex, now.truncatedTerm) ==
        if cmd.Compact? && cmd.compactIndex > app.truncatedIndex + 1 && cmd.compactTerm != 0 &&
           cmd.compactIndex <= app.appliedIndex
        then Position(cmd.compactIndex, cmd.compactTerm)
        else Position(app.truncatedIndex, app.truncatedTerm)
  {
    if cmd.Compact? { CompactMeaning(env, app, cmd.compactIndex, cmd.compactTerm); }
  }

  lemma {:induction false} TruncationDone(env: Env, exec: Executor, kv: KV, es: seq<Event>, id: nat)
    requires exec == ((a, c) => ExecCommand(env, a, c))
    requires LegalRun(exec, Start(kv), es) && id in Run(exec, Start(kv), es).apps
    ensures var app := Run(exec, Start(kv), es).apps[id];
      Position(app.truncatedIndex, app.truncatedTerm) == TruncatedAt(es, id)
    decreases |es|
  {
    if es != [] {
      var front, last := es[..|es| - 1], es[|es| - 1];
      var c := Run(exec, Start(kv), front);
      if id in c.apps {
        TruncationDone(env, exec, kv, front, id);
        IndexDone(exec, kv, front, id);
        if last.Apply? { TruncatesAs(env, c.apps[id], last.index, last.cmd); }
      }
    }
  }

  /** After every flush the three stored numbers of a region at work follow from the events alone. */
  lemma FlushedPositions(env: Env, exec: Executor, kv: KV, es: seq<Event>, id: nat)
    requires exec == ((a, c) => ExecCommand(env, a, c))
    requires LegalRun(exec, Start(kv), es) && FreshRun(exec, Direct(kv, map[]), es)
    requires es != [] && (es[|es| - 1].Commit? || es[|es| - 1].Flush?)
    ensures var c, k := Run(exec, Start(kv), es), ApplyStateKey(id);
      id in c.apps && !Removing(c, id) && LastDone(es, id) > 0 ==>
        && k in c.disk.db
        && StateHolds(c.disk.db[k].value, LastDone(es, id), TruncatedAt(es, id).index, TruncatedAt(es, id).term)
  {
    ExecCommandSane(env);
    FlushedIndexes(exec, kv, es, id);
    if id in Run(exec, Start(kv), es).apps { TruncationDone(env, exec, kv, es, id); }
  }
}
