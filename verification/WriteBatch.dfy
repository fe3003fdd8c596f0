/**
 The write batch of raftstore/engine.go: entries for the database and for the lock store, gathered
 with safe points and written out together.
 */
module WriteBatch {
  import opened Bytes

  /** Keys of the database, decoded. State keys are written at the newest version and carry none. */
  datatype DbKey =
    | Data(key: Bytes, version: nat)
    | TxnStatus(key: Bytes, startTS: nat, version: nat)
    | ApplyStateKey(region: nat)
    | RegionStateKey(region: nat)

  datatype Cell = Cell(value: Bytes, meta: Bytes)

  datatype Entry = Entry(key: DbKey, cell: Cell)

  datatype LockEntry = PutLock(key: Bytes, value: Bytes) | DropLock(key: Bytes)

  type Db = map<DbKey, Cell>

  type Locks = map<Bytes, Bytes>

  datatype KV = KV(db: Db, locks: Locks)

  // What writing means

  /** An entry with neither value nor user meta is a deletion. */
  function WriteEntry(db: Db, e: Entry): Db {
    if e.cell == Cell([], []) then db - {e.key} else db[e.key := e.cell]
  }

  function WriteEntries(db: Db, es: seq<Entry>): Db
    decreases |es|
  {
    if es == [] then db else WriteEntry(WriteEntries(db, es[..|es| - 1]), es[|es| - 1])
  }

  function WriteLock(locks: Locks, l: LockEntry): Locks {
    match l
    case PutLock(k, v) => locks[k := v]
    case DropLock(k) => locks - {k}
  }

  function WriteLocks(locks: Locks, ls: seq<LockEntry>): Locks
    decreases |ls|
  {
    if ls == [] then locks else WriteLock(WriteLocks(locks, ls[..|ls| - 1]), ls[|ls| - 1])
  }

  function Written(kv: KV, es: seq<Entry>, ls: seq<LockEntry>): KV {
    KV(WriteEntries(kv.db, es), WriteLocks(kv.locks, ls))
  }

  lemma {:induction false} WriteEntriesJoin(db: Db, a: seq<Entry>, b: seq<Entry>)
    ensures WriteEntries(db, a + b) == WriteEntries(WriteEntries(db, a), b)
    decreases |b|
  {
    if b == [] {
      assert a + b == a;
    } else {
      WriteEntriesJoin(db, a, b[..|b| - 1]);
      assert (a + b)[..|a + b| - 1] == a + b[..|b| - 1];
    }
  }

  lemma {:induction false} WriteLocksJoin(locks: Locks, a: seq<LockEntry>, b: seq<LockEntry>)
    ensures WriteLocks(locks, a + b) == WriteLocks(WriteLocks(locks, a), b)
    decreases |b|
  {
    if b == [] {
      assert a + b == a;
    } else {
      WriteLocksJoin(locks, a, b[..|b| - 1]);
      assert (a + b)[..|a + b| - 1] == a + b[..|b| - 1];
    }
  }

  lemma WrittenJoin(kv: KV, es: seq<Entry>, ls: seq<LockEntry>, es': seq<Entry>, ls': seq<LockEntry>)
    ensures Written(kv, es + es', ls + ls') == Written(Written(kv, es, ls), es', ls')
  {
    WriteEntriesJoin(kv.db, es, es');
    WriteLocksJoin(kv.locks, ls, ls');
  }

  /** The last entry of a key decides: an empty one leaves the key absent, any other its cell. */
  lemma {:induction false} LastEntryDecides(db: Db, es: seq<Entry>, i: nat)
    requires i < |es| && forall j :: i < j < |es| ==> es[j].key != es[i].key
    ensures var db', e := WriteEntries(db, es), es[i];
      if e.cell.value == [] && e.cell.meta == [] then e.key !in db' else e.key in db' && db'[e.key] == e.cell
    decreases |es|
  {
    if i < |es| - 1 { LastEntryDecides(db, es[..|es| - 1], i); }
  }

  /** The same of locks. */
  lemma {:induction false} LastLockDecides(locks: Locks, ls: seq<LockEntry>, i: nat)
    requires i < |ls| && forall j :: i < j < |ls| ==> ls[j].key != ls[i].key
    ensures var locks', l := WriteLocks(locks, ls), ls[i];
      if l.DropLock? then l.key !in locks' else l.key in locks' && locks'[l.key] == l.value
    decreases |ls|
  {
    if i < |ls| - 1 { LastLockDecides(locks, ls[..|ls| - 1], i); }
  }

  // The batch

  /** One call on the batch; `meta` is the user meta that mvcc builds from the timestamps. */
  datatype Write =
    | Set(key: DbKey, value: Bytes)
    | SetLock(lockKey: Bytes, value: Bytes)
    | DeleteLock(lockKey: Bytes)
    | Rollback(dataKey: Bytes, startTS: nat, meta: Bytes)
    | SetWithUserMeta(key: DbKey, value: Bytes, meta: Bytes)
    | SetOpLock(dataKey: Bytes, version: nat, startTS: nat, meta: Bytes)
    | Delete(key: DbKey)

  /** Length of a key with its 8-byte version. */
  function KeyLen(k: DbKey): (n: nat)
    ensures n > 0
  {
    match k
    case Data(key, _) => |key| + 8
    case TxnStatus(key, _, _) => |key| + 16
    case _ => 19
  }

  function EntriesOf(w: Write): seq<Entry> {
    match w
    case Set(k, v) => [Entry(k, Cell(v, []))]
    case SetLock(_, _) => []
    case DeleteLock(_) => []
    case Rollback(k, ts, m) => [Entry(TxnStatus(k, ts, ts), Cell([], m))]
    case SetWithUserMeta(k, v, m) => [Entry(k, Cell(v, m))]
    case SetOpLock(k, version, ts, m) => [Entry(TxnStatus(k, ts, version), Cell([], m))]
    case Delete(k) => [Entry(k, Cell([], []))]
  }

  function LocksOf(w: Write): seq<LockEntry> {
    match w
    case SetLock(k, v) => [PutLock(k, v)]
    case DeleteLock(k) => [DropLock(k)]
    case _ => []
  }

  /** What a write adds to the size: nothing for locks and rollbacks. */
  function SizeOf(w: Write): nat {
    match w
    case Set(k, v) => KeyLen(k) + |v|
    case SetWithUserMeta(k, v, m) => KeyLen(k) + |v| + |m|
    case SetOpLock(k, _, _, m) => |k| + 8 + |m|
    case Delete(k) => KeyLen(k)
    case _ => 0
  }

  datatype Batch = Batch(
    entries: seq<Entry>,
    locks: seq<LockEntry>,
    size: nat,
    safePoint: nat,
    safePointLock: nat,
    safePointSize: nat
  )

  function EmptyBatch(): Batch {
    Batch([], [], 0, 0, 0, 0)
  }

  function Put(b: Batch, w: Write): Batch {
    b.(entries := b.entries + EntriesOf(w), locks := b.locks + LocksOf(w), size := b.size + SizeOf(w))
  }

  function PutAll(b: Batch, ws: seq<Write>): Batch
    decreases |ws|
  {
    if ws == [] then b else Put(PutAll(b, ws[..|ws| - 1]), ws[|ws| - 1])
  }

  function AllEntries(ws: seq<Write>): seq<Entry>
    decreases |ws|
  {
    if ws == [] then [] else AllEntries(ws[..|ws| - 1]) + EntriesOf(ws[|ws| - 1])
  }

  function AllLocks(ws: seq<Write>): seq<LockEntry>
    decreases |ws|
  {
    if ws == [] then [] else AllLocks(ws[..|ws| - 1]) + LocksOf(ws[|ws| - 1])
  }

  /** Putting writes appends their entries and keeps the safe points. */
  lemma {:induction false} PutAllMeaning(b: Batch, ws: seq<Write>)
    ensures var b' := PutAll(b, ws);
      && b'.entries == b.entries + AllEntries(ws) && b'.locks == b.locks + AllLocks(ws)
      && b'.safePoint == b.safePoint && b'.safePointLock == b.safePointLock && b'.safePointSize == b.safePointSize
    decreases |ws|
  {
    if ws != [] {
      PutAllMeaning(b, ws[..|ws| - 1]);
    }
  }

  /** The size never shrinks, and grows by every counted write. */
  lemma {:induction false} PutAllGrows(b: Batch, ws: seq<Write>)
    ensures PutAll(b, ws).size >= b.size
    ensures forall i :: 0 <= i < |ws| ==> PutAll(b, ws).size >= b.size + SizeOf(ws[i])
    decreases |ws|
  {
    if ws != [] {
      var front := ws[..|ws| - 1];
      PutAllGrows(b, front);
      forall i | 0 <= i < |ws| ensures PutAll(b, ws).size >= b.size + SizeOf(ws[i]) {
        if i < |front| { assert front[i] == ws[i]; }
      }
    }
  }

  lemma {:induction false} PutAllJoin(b: Batch, ws: seq<Write>, vs: seq<Write>)
    ensures PutAll(b, ws + vs) == PutAll(PutAll(b, ws), vs)
    decreases |vs|
  {
    if vs == [] {
      assert ws + vs == ws;
    } else {
      PutAllJoin(b, ws, vs[..|vs| - 1]);
      assert (ws + vs)[..|ws + vs| - 1] == ws + vs[..|vs| - 1];
    }
  }

  function SafePointSet(b: Batch): Batch {
    b.(safePoint := |b.entries|, safePointLock := |b.locks|, safePointSize := b.size)
  }

  function RolledBack(b: Batch): Batch
    requires b.safePoint <= |b.entries| && b.safePointLock <= |b.locks|
  {
    b.(entries := b.entries[..b.safePoint], locks := b.locks[..b.safePointLock], size := b.safePointSize)
  }

  /** A roll back undoes every write since the safe point. */
  lemma RollBackUndoes(b: Batch, ws: seq<Write>)
    ensures var b' := PutAll(SafePointSet(b), ws);
      && b'.safePoint <= |b'.entries| && b'.safePointLock <= |b'.locks|
      && RolledBack(b') == SafePointSet(b)
  {
    PutAllMeaning(SafePointSet(b), ws);
  }

  /** The database and the lock store. */
  class Bundle {
    var kv: KV

    constructor (kv: KV)
      ensures this.kv == kv
    {
      this.kv := kv;
    }
  }

  class WriteBatch {
    var entries: seq<Entry>
    var lockEntries: seq<LockEntry>
    var size: nat
    var safePoint: nat
    var safePointLock: nat
    var safePointSize: nat

    constructor ()
      ensures View() == EmptyBatch()
    {
      entries, lockEntries, size, safePoint, safePointLock, safePointSize := [], [], 0, 0, 0, 0;
    }

    ghost function View(): Batch
      reads this
    {
      Batch(entries, lockEntries, size, safePoint, safePointLock, safePointSize)
    }

    /** Appends one write to the entries or to the lock entries and counts it. */
    method Add(w: Write)
      modifies this
      ensures View() == Put(old(View()), w)
    {
      match w {
        case Set(key, val) =>
          entries := entries + [Entry(key, Cell(val, []))];
          size := size + KeyLen(key) + |val|;
        case SetLock(key, val) =>
          lockEntries := lockEntries + [PutLock(key, val)];
        case DeleteLock(key) =>
          lockEntries := lockEntries + [DropLock(key)];
        case Rollback(key, ts, meta) =>
          entries := entries + [Entry(TxnStatus(key, ts, ts), Cell([], meta))];
        case SetWithUserMeta(key, val, meta) =>
          entries := entries + [Entry(key, Cell(val, meta))];
          size := size + KeyLen(key) + |val| + |meta|;
        case SetOpLock(key, version, ts, meta) =>
          entries := entries + [Entry(TxnStatus(key, ts, version), Cell([], meta))];
          size := size + |key| + 8 + |meta|;
        case Delete(key) =>
          entries := entries + [Entry(key, Cell([], []))];
          size := size + KeyLen(key);
      }
    }

    method AddAll(ws: seq<Write>)
      modifies this
      ensures View() == PutAll(old(View()), ws)
    {
      var i := 0;
      while i < |ws|
        invariant 0 <= i <= |ws| && View() == PutAll(old(View()), ws[..i])
      {
        assert ws[..i + 1][..i] == ws[..i];
        Add(ws[i]);
        i := i + 1;
      }
      assert ws[..|ws|] == ws;
    }

    method SetSafePoint()
      modifies this
      ensures View() == SafePointSet(old(View()))
    {
      safePoint := |entries|;
      safePointLock := |lockEntries|;
      safePointSize := size;
    }

    method RollbackToSafePoint()
      requires safePoint <= |entries| && safePointLock <= |lockEntries|
      modifies this
      ensures View() == RolledBack(old(View()))
    {
      entries := entries[..safePoint];
      lockEntries := lockEntries[..safePointLock];
      size := safePointSize;
    }

    /** Writes everything in order, the database first. */
    method WriteToKV(bundle: Bundle)
      modifies bundle
      ensures bundle.kv == Written(old(bundle.kv), entries, lockEntries)
    {
      var i := 0;
      while i < |entries|
        invariant 0 <= i <= |entries| && bundle.kv == Written(old(bundle.kv), entries[..i], [])
      {
        var e := entries[i];
        assert entries[..i + 1][..i] == entries[..i];
        if |e.cell.meta| == 0 && |e.cell.value| == 0 {
          bundle.kv := bundle.kv.(db := bundle.kv.db - {e.key});
        } else {
          bundle.kv := bundle.kv.(db := bundle.kv.db[e.key := e.cell]);
        }
        i := i + 1;
      }
      assert entries[..|entries|] == entries;
      i := 0;
      while i < |lockEntries|
        invariant 0 <= i <= |lockEntries| && bundle.kv == Written(old(bundle.kv), entries, lockEntries[..i])
      {
        assert lockEntries[..i + 1][..i] == lockEntries[..i];
        match lockEntries[i] {
          case DropLock(k) => bundle.kv := bundle.kv.(locks := bundle.kv.locks - {k});
          case PutLock(k, v) => bundle.kv := bundle.kv.(locks := bundle.kv.locks[k := v]);
        }
        i := i + 1;
      }
      assert lockEntries[..|lockEntries|] == lockEntries;
    }

    method Reset()
      modifies this
      ensures View() == EmptyBatch()
    {
      entries, lockEntries := [], [];
      size, safePoint, safePointLock, safePointSize := 0, 0, 0, 0;
    }
  }
}
