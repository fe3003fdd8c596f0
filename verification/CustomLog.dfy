/**
 The custom raft log (raftstore/raftlog/custom.go): a byte format for batches of transaction
 operations of one kind, with a builder that appends and iterators that read it back.
 */
module CustomLog {
  import opened Options
  import opened Bytes
  import opened Codec
  import opened ApplyCommands

  /** Numbered as in the type byte. */
  datatype Kind = KPrewrite | KCommit | KRollback | KPessimisticLock | KPessimisticRollback

  function TypeByte(k: Kind): byte {
    match k
    case KPrewrite => 1
    case KCommit => 2
    case KRollback => 3
    case KPessimisticLock => 4
    case KPessimisticRollback => 5
  }

  const CUSTOM_RAFT_LOG_FLAG: byte := 64
  const HEADER_SIZE := 40
  const PREFIX := 44

  datatype Header = Header(regionID: nat, version: nat, confVer: nat, peerID: nat, storeID: nat, term: nat)

  /** The in-memory layout of the header struct; the epoch keeps 32 bits of each part. */
  function HeaderBytes(h: Header): (b: Bytes)
    ensures |b| == HEADER_SIZE
  {
    LE(h.regionID, 8) + LE(h.version, 4) + LE(h.confVer, 4) + LE(h.peerID, 8) + LE(h.storeID, 8) + LE(h.term, 8)
  }

  lemma Slices(a: Bytes, b: Bytes, c: Bytes, d: Bytes, e: Bytes, f: Bytes)
    requires |a| == 8 && |b| == 4 && |c| == 4 && |d| == 8 && |e| == 8 && |f| == 8
    ensures var h := a + b + c + d + e + f;
      h[..8] == a && h[8..12] == b && h[12..16] == c && h[16..24] == d && h[24..32] == e && h[32..40] == f
  {
  }

  /** Every header field reads back at its place, as long as it fits. */
  lemma HeaderRoundTrip(h: Header)
    requires h.regionID < Pow256(8) && h.version < Pow256(4) && h.confVer < Pow256(4)
    requires h.peerID < Pow256(8) && h.storeID < Pow256(8) && h.term < Pow256(8)
    ensures var b := HeaderBytes(h);
      h == Header(FromLE(b[..8]), FromLE(b[8..12]), FromLE(b[12..16]), FromLE(b[16..24]), FromLE(b[24..32]),
        FromLE(b[32..40]))
  {
    Slices(LE(h.regionID, 8), LE(h.version, 4), LE(h.confVer, 4), LE(h.peerID, 8), LE(h.storeID, 8), LE(h.term, 8));
    LERoundTrip(h.regionID, 8);
    LERoundTrip(h.version, 4);
    LERoundTrip(h.confVer, 4);
    LERoundTrip(h.peerID, 8);
    LERoundTrip(h.storeID, 8);
    LERoundTrip(h.term, 8);
  }

  // Entries

  /** Lengths and timestamps fit their fields. */
  predicate Fits(op: LogOp) {
    && |op.key| < 0x1_0000
    && (op.PutLockOp? || op.CommitOp? ==> |op.lock| < 0x1_0000_0000)
    && (op.CommitOp? ==> op.commitTS < 0x1_0000_0000_0000_0000)
    && (op.RollbackOp? ==> op.startTS < 0x1_0000_0000_0000_0000)
  }

  predicate OfKind(op: LogOp, k: Kind) {
    match k
    case KPrewrite => op.PutLockOp?
    case KPessimisticLock => op.PutLockOp?
    case KCommit => op.CommitOp?
    case KRollback => op.RollbackOp?
    case KPessimisticRollback => op.PessimisticRollbackOp?
  }

  function KeyField(key: Bytes): Bytes {
    LE(|key|, 2) + key
  }

  function ValueField(val: Bytes): Bytes {
    LE(|val|, 4) + val
  }

  function OpBytes(op: LogOp): Bytes {
    match op
    case PutLockOp(key, lock) => KeyField(key) + ValueField(lock)
    case CommitOp(key, lock, commitTS) => KeyField(key) + ValueField(lock) + LE(commitTS, 8)
    case RollbackOp(key, startTS, deleteLock) => KeyField(key) + LE(startTS, 8) + [if deleteLock then 1 else 0]
    case PessimisticRollbackOp(key) => KeyField(key)
  }

  function OpsBytes(ops: seq<LogOp>): Bytes
    decreases |ops|
  {
    if ops == [] then [] else OpBytes(ops[0]) + OpsBytes(ops[1..])
  }

  lemma {:induction false} OpsBytesSnoc(ops: seq<LogOp>, op: LogOp)
    ensures OpsBytes(ops + [op]) == OpsBytes(ops) + OpBytes(op)
    decreases |ops|
  {
    if ops == [] {
      assert ops + [op] == [op] && [op][1..] == [];
    } else {
      OpsBytesSnoc(ops[1..], op);
      assert (ops + [op])[0] == ops[0] && (ops + [op])[1..] == ops[1..] + [op];
      Assoc(OpBytes(ops[0]), OpsBytes(ops[1..]), OpBytes(op));
    }
  }

  // The builder

  class CustomBuilder {
    var data: Bytes
    var cnt: nat

    constructor (h: Header)
      ensures data == [CUSTOM_RAFT_LOG_FLAG, 0, 0, 0] + HeaderBytes(h) && cnt == 0
    {
      data := [CUSTOM_RAFT_LOG_FLAG, 0, 0, 0] + HeaderBytes(h);
      cnt := 0;
    }

    method PutKey(key: Bytes)
      modifies `data
      ensures data == old(data) + KeyField(key)
    {
      Assoc(data, LE(|key|, 2), key);
      data := data + LE(|key|, 2);
      data := data + key;
    }

    method PutValue(val: Bytes)
      modifies `data
      ensures data == old(data) + ValueField(val)
    {
      Assoc(data, LE(|val|, 4), val);
      data := data + LE(|val|, 4);
      data := data + val;
    }

    method PutBytes(b: Bytes)
      modifies `data
      ensures data == old(data) + b
    {
      data := data + b;
    }

    method AppendLock(key: Bytes, value: Bytes)
      modifies this
      ensures data == old(data) + OpBytes(PutLockOp(key, value)) && cnt == old(cnt) + 1
    {
      Assoc(data, KeyField(key), ValueField(value));
      PutKey(key);
      PutValue(value);
      cnt := cnt + 1;
    }

    method AppendCommit(key: Bytes, value: Bytes, commitTS: nat)
      modifies this
      ensures data == old(data) + OpBytes(CommitOp(key, value, commitTS)) && cnt == old(cnt) + 1
    {
      Assoc(data, KeyField(key), ValueField(value));
      Assoc(data, KeyField(key) + ValueField(value), LE(commitTS, 8));
      PutKey(key);
      PutValue(value);
      PutBytes(LE(commitTS, 8));
      cnt := cnt + 1;
    }

    method AppendRollback(key: Bytes, startTS: nat, deleteLock: bool)
      modifies this
      ensures data == old(data) + OpBytes(RollbackOp(key, startTS, deleteLock)) && cnt == old(cnt) + 1
    {
      Assoc(data, KeyField(key), LE(startTS, 8));
      Assoc(data, KeyField(key) + LE(startTS, 8), [if deleteLock then 1 else 0]);
      PutKey(key);
      PutBytes(LE(startTS, 8));
      PutBytes([if deleteLock then 1 else 0]);
      cnt := cnt + 1;
    }

    method AppendPessimisticRollback(key: Bytes)
      modifies this
      ensures data == old(data) + OpBytes(PessimisticRollbackOp(key)) && cnt == old(cnt) + 1
    {
      PutKey(key);
      cnt := cnt + 1;
    }

    method SetType(k: Kind)
      requires |data| >= PREFIX
      modifies `data
      ensures data == old(data)[1 := TypeByte(k)]
    {
      data := data[1 := TypeByte(k)];
    }
  }

  // Reading

  /** A value and what follows it, or not enough bytes for it. */
  datatype Read<T> = PastEnd | Got(value: T, rest: Bytes)

  function ReadNum(data: Bytes, width: nat): (r: Read<nat>)
    ensures r.Got? ==> r.value < Pow256(width)
  {
    if |data| < width then PastEnd else Got(FromLE(data[..width]), data[width..])
  }

  /** A length, and as many bytes. */
  function ReadField(data: Bytes, width: nat): (r: Read<Bytes>)
    ensures r.Got? ==> |r.value| < Pow256(width) && |r.rest| + width <= |data|
  {
    match ReadNum(data, width)
    case PastEnd => PastEnd
    case Got(n, rest) => if |rest| < n then PastEnd else Got(rest[..n], rest[n..])
  }

  /** What follows the key in an entry of kind `k`. */
  function ReadTail(k: Kind, key: Bytes, data: Bytes): (r: Read<LogOp>)
    ensures r.Got? ==> |r.rest| <= |data|
  {
    match k
    case KPessimisticRollback => Got(PessimisticRollbackOp(key), data)
    case KRollback =>
      (match ReadNum(data, 8)
       case PastEnd => PastEnd
       case Got(ts, rest) => if rest == [] then PastEnd else Got(RollbackOp(key, ts, rest[0] > 0), rest[1..]))
    case KCommit =>
      (match ReadField(data, 4)
       case PastEnd => PastEnd
       case Got(lock, rest) =>
         match ReadNum(rest, 8)
         case PastEnd => PastEnd
         case Got(ts, rest') => Got(CommitOp(key, lock, ts), rest'))
    case _ =>
      match ReadField(data, 4)
      case PastEnd => PastEnd
      case Got(lock, rest) => Got(PutLockOp(key, lock), rest)
  }

  function ReadOp(k: Kind, data: Bytes): (r: Read<LogOp>)
    ensures r.Got? ==> |r.rest| < |data|
  {
    match ReadField(data, 2)
    case PastEnd => PastEnd
    case Got(key, rest) => ReadTail(k, key, rest)
  }

  /** All entries of a log of kind `k`; none if reading runs past the end. */
  function ReadOps(k: Kind, data: Bytes): Option<seq<LogOp>>
    decreases |data|
  {
    if data == [] then Some([])
    else
      match ReadOp(k, data)
      case PastEnd => None
      case Got(op, rest) => Prepend([op], ReadOps(k, rest))
  }

  function Prepend(found: seq<LogOp>, ops: Option<seq<LogOp>>): Option<seq<LogOp>> {
    if ops.None? then None else Some(found + ops.value)
  }

  /** Whatever is read fits its fields. */
  lemma ReadFits(k: Kind, data: Bytes)
    requires ReadOp(k, data).Got?
    ensures Fits(ReadOp(k, data).value)
  {
    Widths();
  }

  lemma NumReads(n: nat, width: nat, rest: Bytes)
    requires n < Pow256(width)
    ensures ReadNum(LE(n, width) + rest, width) == Got(n, rest)
  {
    TakeOff(LE(n, width) + rest, 0, LE(n, width), rest);
    LERoundTrip(n, width);
  }

  lemma FieldReads(b: Bytes, width: nat, rest: Bytes)
    requires |b| < Pow256(width)
    ensures ReadField(LE(|b|, width) + b + rest, width) == Got(b, rest)
  {
    Assoc(LE(|b|, width), b, rest);
    NumReads(|b|, width, b + rest);
    assert (b + rest)[..|b|] == b && (b + rest)[|b|..] == rest;
  }

  lemma LockReads(k: Kind, key: Bytes, lock: Bytes, rest: Bytes)
    requires (k == KPrewrite || k == KPessimisticLock) && |lock| < 0x1_0000_0000
    ensures ReadTail(k, key, ValueField(lock) + rest) == Got(PutLockOp(key, lock), rest)
  {
    Widths();
    FieldReads(lock, 4, rest);
  }

  lemma CommitReads(key: Bytes, lock: Bytes, ts: nat, rest: Bytes)
    requires |lock| < 0x1_0000_0000 && ts < 0x1_0000_0000_0000_0000
    ensures ReadTail(KCommit, key, ValueField(lock) + (LE(ts, 8) + rest)) == Got(CommitOp(key, lock, ts), rest)
  {
    Widths();
    FieldReads(lock, 4, LE(ts, 8) + rest);
    NumReads(ts, 8, rest);
  }

  lemma RollbackReads(key: Bytes, ts: nat, deleteLock: bool, rest: Bytes)
    requires ts < 0x1_0000_0000_0000_0000
    ensures ReadTail(KRollback, key, LE(ts, 8) + ([if deleteLock then 1 else 0] + rest)) ==
      Got(RollbackOp(key, ts, deleteLock), rest)
  {
    Widths();
    var flag: Bytes := [if deleteLock then 1 else 0];
    NumReads(ts, 8, flag + rest);
    assert (flag + rest)[1..] == rest;
  }

  /** An entry that fits reads back, whatever follows it. */
  lemma OpReads(op: LogOp, k: Kind, rest: Bytes)
    requires OfKind(op, k) && Fits(op)
    ensures ReadOp(k, OpBytes(op) + rest) == Got(op, rest)
  {
    Widths();
    var key := KeyField(op.key);
    match op
    case PutLockOp(_, lock) =>
      Assoc(key, ValueField(lock), rest);
      FieldReads(op.key, 2, ValueField(lock) + rest);
      LockReads(k, op.key, lock, rest);
    case CommitOp(_, lock, ts) =>
      Assoc(key + ValueField(lock), LE(ts, 8), rest);
      Assoc(key, ValueField(lock), LE(ts, 8) + rest);
      FieldReads(op.key, 2, ValueField(lock) + (LE(ts, 8) + rest));
      CommitReads(op.key, lock, ts, rest);
    case RollbackOp(_, ts, deleteLock) =>
      var flag: Bytes := [if deleteLock then 1 else 0];
      Assoc(key + LE(ts, 8), flag, rest);
      Assoc(key, LE(ts, 8), flag + rest);
      FieldReads(op.key, 2, LE(ts, 8) + (flag + rest));
      RollbackReads(op.key, ts, deleteLock, rest);
    case PessimisticRollbackOp(_) => FieldReads(op.key, 2, rest);
  }

  /** The entries of a built log read back exactly when each of them fits its fields. */
  lemma {:induction false} ReadsBack(k: Kind, ops: seq<LogOp>)
    requires forall j :: 0 <= j < |ops| ==> OfKind(ops[j], k)
    ensures ReadOps(k, OpsBytes(ops)) == Some(ops) <==> forall j :: 0 <= j < |ops| ==> Fits(ops[j])
    decreases |ops|
  {
    if ops != [] {
      var data, rest := OpsBytes(ops), OpsBytes(ops[1..]);
      assert data != [];
      ReadsBack(k, ops[1..]);
      if Fits(ops[0]) {
        OpReads(ops[0], k, rest);
        FirstAndRest(ops, ReadOps(k, rest));
      } else if ReadOps(k, data) == Some(ops) {
        assert ReadOp(k, data).value == ops[0];
        ReadFits(k, data);
      }
    }
  }

  lemma FirstAndRest(ops: seq<LogOp>, rest: Option<seq<LogOp>>)
    requires ops != []
    ensures Prepend([ops[0]], rest) == Some(ops) <==> rest == Some(ops[1..])
    ensures (forall j :: 0 <= j < |ops| ==> Fits(ops[j])) <==>
      Fits(ops[0]) && forall j :: 0 <= j < |ops[1..]| ==> Fits(ops[1..][j])
  {
    if Prepend([ops[0]], rest) == Some(ops) {
      assert rest.value == ops[1..];
    }
    if rest == Some(ops[1..]) {
      assert [ops[0]] + ops[1..] == ops;
    }
    if Fits(ops[0]) && forall j :: 0 <= j < |ops[1..]| ==> Fits(ops[1..][j]) {
      forall j | 0 <= j < |ops| ensures Fits(ops[j]) {
        if j > 0 { assert ops[j] == ops[1..][j - 1]; }
      }
    }
  }

  /** A key of 2^16 bytes is written with length zero and read back as another entry, or as none. */
  lemma LongKeyMisread(key: Bytes)
    requires |key| >= 0x1_0000
    ensures ReadOps(KPessimisticRollback, OpsBytes([PessimisticRollbackOp(key)])) != Some([PessimisticRollbackOp(key)])
  {
    var ops := [PessimisticRollbackOp(key)];
    assert !Fits(ops[0]);
    ReadsBack(KPessimisticRollback, ops);
  }

  // The iterators

  lemma Behind(data: Bytes, i: nat, n: nat)
    requires i + n <= |data|
    ensures data[i..][..n] == data[i..i + n] && data[i..][n..] == data[i + n..]
  {
  }

  method TakeNumber(data: Bytes, i: nat, width: nat) returns (ok: bool, n: nat, next: nat)
    requires i <= |data|
    ensures next <= |data| && i <= next
    ensures ReadNum(data[i..], width) == if ok then Got(n, data[next..]) else PastEnd
  {
    ok, n, next := |data| - i >= width, 0, i;
    if ok {
      Behind(data, i, width);
      n, next := FromLE(data[i..i + width]), i + width;
    }
  }

  method TakeField(data: Bytes, i: nat, width: nat) returns (ok: bool, b: Bytes, next: nat)
    requires i <= |data|
    ensures next <= |data| && i <= next && (ok ==> i + width <= next)
    ensures ReadField(data[i..], width) == if ok then Got(b, data[next..]) else PastEnd
  {
    var n;
    b := [];
    ok, n, next := TakeNumber(data, i, width);
    if ok {
      ok := |data| - next >= n;
      if ok {
        Behind(data, next, n);
        b, next := data[next..next + n], next + n;
      }
    }
  }

  /** The entries found so far, with those still to be read, are the entries of the log. */
  ghost predicate Reading(k: Kind, data: Bytes, i: nat, found: seq<LogOp>) {
    if |data| < PREFIX then i == PREFIX && found == []
    else PREFIX <= i <= |data| && ReadOps(k, data[PREFIX..]) == Prepend(found, ReadOps(k, data[i..]))
  }

  /** What the body of a log holds; a log shorter than its prefix holds nothing. */
  function Entries(k: Kind, data: Bytes): Option<seq<LogOp>> {
    if |data| < PREFIX then Some([]) else ReadOps(k, data[PREFIX..])
  }

  lemma ReadingStarts(k: Kind, data: Bytes)
    ensures Reading(k, data, PREFIX, [])
  {
    var ops := Entries(k, data);
    if ops.Some? { assert [] + ops.value == ops.value; }
  }

  lemma ReadingMoves(k: Kind, data: Bytes, i: nat, found: seq<LogOp>, op: LogOp, next: nat)
    requires Reading(k, data, i, found) && i < next <= |data| && ReadOp(k, data[i..]) == Got(op, data[next..])
    ensures Reading(k, data, next, found + [op])
  {
    OneOpRead(k, data[i..], op, data[next..]);
    PrependTwo(found, op, ReadOps(k, data[next..]));
  }

  lemma OneOpRead(k: Kind, data: Bytes, op: LogOp, rest: Bytes)
    requires data != [] && ReadOp(k, data) == Got(op, rest)
    ensures ReadOps(k, data) == Prepend([op], ReadOps(k, rest))
  {
  }

  lemma PrependTwo(found: seq<LogOp>, op: LogOp, ops: Option<seq<LogOp>>)
    ensures Prepend(found, Prepend([op], ops)) == Prepend(found + [op], ops)
  {
    if ops.Some? { assert found + ([op] + ops.value) == (found + [op]) + ops.value; }
  }

  lemma ReadingEnds(k: Kind, data: Bytes, i: nat, found: seq<LogOp>)
    requires Reading(k, data, i, found)
    ensures i >= |data| ==> Entries(k, data) == Some(found)
    ensures i < |data| && ReadOp(k, data[i..]) == PastEnd ==> Entries(k, data) == None
  {
    if i == |data| {
      assert data[i..] == [] && found + [] == found;
    } else if i < |data| {
      assert data[i..] != [];
    }
  }

  method TakeLock(k: Kind, data: Bytes, i: nat) returns (ok: bool, op: LogOp, next: nat)
    requires i < |data| && (k == KPrewrite || k == KPessimisticLock)
    ensures next <= |data| && (ok ==> i < next)
    ensures ReadOp(k, data[i..]) == if ok then Got(op, data[next..]) else PastEnd
  {
    var key, val;
    op := PutLockOp([], []);
    ok, key, next := TakeField(data, i, 2);
    if ok {
      ok, val, next := TakeField(data, next, 4);
      op := PutLockOp(key, val);
    }
  }

  /** Both kinds of lock entries; `panicked` when the data ends within an entry. */
  method IterateLock(k: Kind, data: Bytes) returns (panicked: bool, found: seq<LogOp>)
    requires k == KPrewrite || k == KPessimisticLock
    ensures Entries(k, data) == if panicked then None else Some(found)
  {
    panicked, found := false, [];
    var i: nat := PREFIX;
    ReadingStarts(k, data);
    while i < |data|
      invariant Reading(k, data, i, found)
      decreases |data| - i
    {
      ReadingEnds(k, data, i, found);
      var ok, op, next := TakeLock(k, data, i);
      if !ok {
        return true, found;
      }
      ReadingMoves(k, data, i, found, op, next);
      found, i := found + [op], next;
    }
    ReadingEnds(k, data, i, found);
  }

  method TakeCommit(data: Bytes, i: nat) returns (ok: bool, op: LogOp, next: nat)
    requires i < |data|
    ensures next <= |data| && (ok ==> i < next)
    ensures ReadOp(KCommit, data[i..]) == if ok then Got(op, data[next..]) else PastEnd
  {
    var key, val, ts;
    op := CommitOp([], [], 0);
    ok, key, next := TakeField(data, i, 2);
    if ok {
      ok, val, next := TakeField(data, next, 4);
      if ok {
        ok, ts, next := TakeNumber(data, next, 8);
        op := CommitOp(key, val, ts);
      }
    }
  }

  method IterateCommit(data: Bytes) returns (panicked: bool, found: seq<LogOp>)
    ensures Entries(KCommit, data) == if panicked then None else Some(found)
  {
    panicked, found := false, [];
    var i: nat := PREFIX;
    ReadingStarts(KCommit, data);
    while i < |data|
      invariant Reading(KCommit, data, i, found)
      decreases |data| - i
    {
      ReadingEnds(KCommit, data, i, found);
      var ok, op, next := TakeCommit(data, i);
      if !ok {
        return true, found;
      }
      ReadingMoves(KCommit, data, i, found, op, next);
      found, i := found + [op], next;
    }
    ReadingEnds(KCommit, data, i, found);
  }

  method TakeRollback(data: Bytes, i: nat) returns (ok: bool, op: LogOp, next: nat)
    requires i < |data|
    ensures next <= |data| && (ok ==> i < next)
    ensures ReadOp(KRollback, data[i..]) == if ok then Got(op, data[next..]) else PastEnd
  {
    var key, ts;
    op := RollbackOp([], 0, false);
    ok, key, next := TakeField(data, i, 2);
    if ok {
      ok, ts, next := TakeNumber(data, next, 8);
      if ok {
        ok := next < |data|;
        if ok {
          Behind(data, next, 1);
          op, next := RollbackOp(key, ts, data[next] > 0), next + 1;
        }
      }
    }
  }

  method IterateRollback(data: Bytes) returns (panicked: bool, found: seq<LogOp>)
    ensures Entries(KRollback, data) == if panicked then None else Some(found)
  {
    panicked, found := false, [];
    var i: nat := PREFIX;
    ReadingStarts(KRollback, data);
    while i < |data|
      invariant Reading(KRollback, data, i, found)
      decreases |data| - i
    {
      ReadingEnds(KRollback, data, i, found);
      var ok, op, next := TakeRollback(data, i);
      if !ok {
        return true, found;
      }
      ReadingMoves(KRollback, data, i, found, op, next);
      found, i := found + [op], next;
    }
    ReadingEnds(KRollback, data, i, found);
  }

  method IteratePessimisticRollback(data: Bytes) returns (panicked: bool, found: seq<LogOp>)
    ensures Entries(KPessimisticRollback, data) == if panicked then None else Some(found)
  {
    panicked, found := false, [];
    var i: nat := PREFIX;
    ReadingStarts(KPessimisticRollback, data);
    while i < |data|
      invariant Reading(KPessimisticRollback, data, i, found)
      decreases |data| - i
    {
      ReadingEnds(KPessimisticRollback, data, i, found);
      var ok, key, next := TakeField(data, i, 2);
      if !ok {
        return true, found;
      }
      ReadingMoves(KPessimisticRollback, data, i, found, PessimisticRollbackOp(key), next);
      found, i := found + [PessimisticRollbackOp(key)], next;
    }
    ReadingEnds(KPessimisticRollback, data, i, found);
  }
}
