/**
 Two ways to put a batch of transaction operations into a raft log: as a list of requests
 (`raftWriteBatch`) regrouped by `createWriteCmdOps`, or as a custom log (`customWriteBatch`).
 Both must append the same entries to the applier's write batch.
 */
module TwoEncodings {
  import opened Options
  import opened Bytes
  import opened WriteBatch
  import opened ApplyCommands
  import opened CustomLog

  datatype Call =
    | Prewrite(key: Bytes, lock: Lock)
    | Commit(key: Bytes, lock: Lock)
    | RollBack(key: Bytes, deleteLock: bool)
    | PessimisticLock(key: Bytes, lock: Lock)
    | PessimisticRollback(key: Bytes)

  function KindOf(c: Call): Kind {
    match c
    case Prewrite(_, _) => KPrewrite
    case Commit(_, _) => KCommit
    case RollBack(_, _) => KRollback
    case PessimisticLock(_, _) => KPessimisticLock
    case PessimisticRollback(_) => KPessimisticRollback
  }

  /** How locks are marshalled, and which of them keep their value in the default column family. */
  datatype LockCodec = LockCodec(marshal: Lock -> Bytes, large: Lock -> bool)

  /** The timestamps a batch is made with. */
  datatype Stamps = Stamps(startTS: nat, commitTS: nat)

  // The custom log

  function CustomOp(lc: LockCodec, t: Stamps, c: Call): LogOp {
    match c
    case Prewrite(key, lock) => PutLockOp(key, lc.marshal(lock))
    case Commit(key, lock) => CommitOp(key, lc.marshal(lock), t.commitTS)
    case RollBack(key, deleteLock) => RollbackOp(key, t.startTS, deleteLock)
    case PessimisticLock(key, lock) => PutLockOp(key, lc.marshal(lock))
    case PessimisticRollback(key) => PessimisticRollbackOp(key)
  }

  function CustomOps(lc: LockCodec, t: Stamps, cs: seq<Call>): (ops: seq<LogOp>)
    ensures |ops| == |cs| && forall i :: 0 <= i < |ops| ==> ops[i] == CustomOp(lc, t, cs[i])
  {
    seq(|cs|, i requires 0 <= i < |cs| => CustomOp(lc, t, cs[i]))
  }

  function LogData(h: Header, tp: byte, ops: seq<LogOp>): Bytes {
    [CUSTOM_RAFT_LOG_FLAG, tp, 0, 0] + HeaderBytes(h) + OpsBytes(ops)
  }

  lemma SetSecond(tp: byte, tp': byte, h: Bytes, o: Bytes)
    ensures var data := [CUSTOM_RAFT_LOG_FLAG, tp, 0, 0] + h + o;
      data[1] == tp && data[1 := tp'] == [CUSTOM_RAFT_LOG_FLAG, tp', 0, 0] + h + o
  {
  }

  class CustomWriteBatch {
    const lc: LockCodec
    const stamps: Stamps
    const builder: CustomBuilder

    constructor (lc: LockCodec, stamps: Stamps, h: Header)
      ensures this.lc == lc && this.stamps == stamps && fresh(builder) && builder.data == LogData(h, 0, [])
    {
      this.lc, this.stamps := lc, stamps;
      builder := new CustomBuilder(h);
    }

    /** Fixes the type of the log with the first call; a later call of another type trips the assertion. */
    method SetType(k: Kind, ghost h: Header, ghost tp: byte, ghost ops: seq<LogOp>) returns (panicked: bool)
      requires builder.data == LogData(h, tp, ops)
      modifies builder
      ensures panicked <==> tp != 0 && tp != TypeByte(k)
      ensures !panicked ==> builder.data == LogData(h, TypeByte(k), ops)
    {
      panicked := false;
      SetSecond(tp, TypeByte(k), HeaderBytes(h), OpsBytes(ops));
      var oldTp := builder.data[1];
      if oldTp == 0 {
        builder.SetType(k);
      } else if oldTp != TypeByte(k) {
        panicked := true;
      }
    }

    method Add(c: Call, ghost h: Header, ghost tp: byte, ghost ops: seq<LogOp>) returns (panicked: bool)
      requires builder.data == LogData(h, tp, ops)
      modifies builder
      ensures panicked <==> tp != 0 && tp != TypeByte(KindOf(c))
      ensures !panicked ==> builder.data == LogData(h, TypeByte(KindOf(c)), ops + [CustomOp(lc, stamps, c)])
    {
      panicked := SetType(KindOf(c), h, tp, ops);
      if panicked {
        return;
      }
      OpsBytesSnoc(ops, CustomOp(lc, stamps, c));
      Assoc([CUSTOM_RAFT_LOG_FLAG, TypeByte(KindOf(c)), 0, 0] + HeaderBytes(h),
        OpsBytes(ops), OpBytes(CustomOp(lc, stamps, c)));
      match c {
        case Prewrite(key, lock) => builder.AppendLock(key, lc.marshal(lock));
        case Commit(key, lock) => builder.AppendCommit(key, lc.marshal(lock), stamps.commitTS);
        case RollBack(key, deleteLock) => builder.AppendRollback(key, stamps.startTS, deleteLock);
        case PessimisticLock(key, lock) => builder.AppendLock(key, lc.marshal(lock));
        case PessimisticRollback(key) => builder.AppendPessimisticRollback(key);
      }
    }
  }

  /** The entries of a log as its type byte says; a log of another type has none. */
  function LogEntries(data: Bytes): Option<seq<LogOp>>
    requires |data| >= 2
  {
    match data[1]
    case 1 => Entries(KPrewrite, data)
    case 2 => Entries(KCommit, data)
    case 3 => Entries(KRollback, data)
    case 4 => Entries(KPessimisticLock, data)
    case 5 => Entries(KPessimisticRollback, data)
    case _ => Some([])
  }

  method IterateLog(data: Bytes) returns (panicked: bool, found: seq<LogOp>)
    requires |data| >= 2
    ensures LogEntries(data) == if panicked then None else Some(found)
  {
    match data[1] {
      case 1 => panicked, found := IterateLock(KPrewrite, data);
      case 2 => panicked, found := IterateCommit(data);
      case 3 => panicked, found := IterateRollback(data);
      case 4 => panicked, found := IterateLock(KPessimisticLock, data);
      case 5 => panicked, found := IteratePessimisticRollback(data);
      case _ => panicked, found := false, [];
    }
  }

  method PutOps(env: Env, wb: WriteBatch, ops: seq<LogOp>)
    modifies wb
    ensures wb.View() == PutAll(old(wb.View()), OpsWrites(env, ops))
  {
    var i := 0;
    while i < |ops|
      invariant 0 <= i <= |ops| && wb.View() == PutAll(old(wb.View()), OpsWrites(env, ops[..i]))
    {
      assert ops[..i + 1][..i] == ops[..i];
      PutAllJoin(old(wb.View()), OpsWrites(env, ops[..i]), OpWrites(env, ops[i]));
      wb.AddAll(OpWrites(env, ops[i]));
      i := i + 1;
    }
    assert ops[..|ops|] == ops;
  }

  /** `execCustomLog`: the entries of a log put into the write batch; it panics when the log ends within one. */
  method ExecCustomLog(env: Env, wb: WriteBatch, data: Bytes) returns (panicked: bool)
    requires |data| >= 2
    modifies wb
    ensures panicked <==> LogEntries(data).None?
    ensures !panicked ==> wb.View() == PutAll(old(wb.View()), OpsWrites(env, LogEntries(data).value))
  {
    var found;
    panicked, found := IterateLog(data);
    if !panicked {
      PutOps(env, wb, found);
    }
  }

  /** A built log of one kind holds exactly its operations, exactly when all of them fit their fields. */
  lemma BuiltLogHolds(h: Header, k: Kind, ops: seq<LogOp>)
    requires forall j :: 0 <= j < |ops| ==> OfKind(ops[j], k)
    ensures var data := LogData(h, TypeByte(k), ops);
      |data| >= 2 && (LogEntries(data) == Some(ops) <==> forall j :: 0 <= j < |ops| ==> Fits(ops[j]))
  {
    var data := LogData(h, TypeByte(k), ops);
    SetSecond(TypeByte(k), TypeByte(k), HeaderBytes(h), OpsBytes(ops));
    assert data[PREFIX..] == OpsBytes(ops);
    ReadsBack(k, ops);
  }

  /**
   What each call leaves in the store once its log entry is written: its lock; its value under the commit
   timestamp, or for a mere lock a record on the primary key; a rollback record at the start timestamp; no lock.
   */
  lemma CallMeaning(env: Env, lc: LockCodec, t: Stamps, kv: KV, c: Call)
    requires c.Commit? ==>
      env.decodeLock(lc.marshal(c.lock)) == c.lock && env.userMeta(c.lock.startTS, t.commitTS) != []
    requires c.RollBack? ==> env.userMeta(t.startTS, 0) != []
    ensures AfterWrites(kv, OpWrites(env, CustomOp(lc, t, c))) ==
      match c
      case Prewrite(key, lock) => kv.(locks := kv.locks[key := lc.marshal(lock)])
      case PessimisticLock(key, lock) => kv.(locks := kv.locks[key := lc.marshal(lock)])
      case Commit(key, lock) =>
        var meta := env.userMeta(lock.startTS, t.commitTS);
        KV(if lock.op != OpLock then kv.db[Data(key, t.commitTS) := Cell(lock.value, meta)]
           else if lock.primary == key then kv.db[TxnStatus(key, lock.startTS, t.commitTS) := Cell([], meta)]
           else kv.db,
           kv.locks - {key})
      case RollBack(key, deleteLock) =>
        KV(kv.db[TxnStatus(key, t.startTS, t.startTS) := Cell([], env.userMeta(t.startTS, 0))],
           if deleteLock then kv.locks - {key} else kv.locks)
      case PessimisticRollback(key) => kv.(locks := kv.locks - {key})
  {
    if c.Commit? {
      CommitMeaning(env, kv, c.key, lc.marshal(c.lock), t.commitTS);
    } else {
      OtherOpMeaning(env, kv, CustomOp(lc, t, c));
    }
  }

  // Requests

  datatype Cf = CfDefault | CfLock | CfWrite

  datatype Ts = NoTs | Ts(ts: nat)

  /** An encoded key, with a timestamp behind it where there is one. */
  datatype ReqKey = ReqKey(raw: Bytes, ts: Ts)

  datatype WriteType = TPut | TDelete | TLock | TRollback

  datatype ReqValue =
    | LockValue(lock: Lock)
    | PlainValue(bytes: Bytes)
    | WriteValue(tp: WriteType, startTS: nat, value: Bytes)

  datatype Req = PutReq(cf: Cf, key: ReqKey, value: ReqValue) | DeleteReq(cf: Cf, key: ReqKey)

  function LockCf(lc: LockCodec, lock: Lock): Lock {
    if lc.large(lock) then lock.(value := []) else lock
  }

  function RequestsOf(lc: LockCodec, t: Stamps, c: Call): (rs: seq<Req>)
    ensures |rs| > 0
  {
    match c
    case Prewrite(key, lock) =>
      (if lc.large(lock) then [PutReq(CfDefault, ReqKey(key, Ts(lock.startTS)), PlainValue(lock.value))] else [])
      + [PutReq(CfLock, ReqKey(key, NoTs), LockValue(LockCf(lc, lock)))]
    case Commit(key, lock) =>
      var tp := if lock.op == OpLock then TLock else if lock.op == OpDel then TDelete else TPut;
      [PutReq(CfWrite, ReqKey(key, Ts(t.commitTS)), WriteValue(tp, lock.startTS, lock.value)),
       DeleteReq(CfLock, ReqKey(key, NoTs))]
    case RollBack(key, deleteLock) =>
      [PutReq(CfWrite, ReqKey(key, Ts(t.startTS)), WriteValue(TRollback, t.startTS, []))]
      + if deleteLock then [DeleteReq(CfLock, ReqKey(key, NoTs))] else []
    case PessimisticLock(key, lock) => [PutReq(CfLock, ReqKey(key, NoTs), LockValue(LockCf(lc, lock)))]
    case PessimisticRollback(key) => [DeleteReq(CfLock, ReqKey(key, NoTs))]
  }

  function AllRequests(lc: LockCodec, t: Stamps, cs: seq<Call>): seq<Req>
    decreases |cs|
  {
    if cs == [] then [] else RequestsOf(lc, t, cs[0]) + AllRequests(lc, t, cs[1..])
  }

  lemma {:induction false} AllRequestsSnoc(lc: LockCodec, t: Stamps, cs: seq<Call>, c: Call)
    ensures AllRequests(lc, t, cs + [c]) == AllRequests(lc, t, cs) + RequestsOf(lc, t, c)
    decreases |cs|
  {
    if cs == [] {
      assert cs + [c] == [c] && [c][1..] == [];
    } else {
      AllRequestsSnoc(lc, t, cs[1..], c);
      assert (cs + [c])[1..] == cs[1..] + [c];
    }
  }

  class RaftWriteBatch {
    const lc: LockCodec
    const stamps: Stamps
    var requests: seq<Req>

    constructor (lc: LockCodec, stamps: Stamps)
      ensures this.lc == lc && this.stamps == stamps && requests == AllRequests(lc, stamps, [])
    {
      this.lc, this.stamps, requests := lc, stamps, [];
    }

    method Add(c: Call, ghost cs: seq<Call>)
      requires requests == AllRequests(lc, stamps, cs)
      modifies this
      ensures requests == AllRequests(lc, stamps, cs + [c])
    {
      AllRequestsSnoc(lc, stamps, cs, c);
      match c {
        case Prewrite(key, lock) =>
          if lc.large(lock) {
            requests := requests + [PutReq(CfDefault, ReqKey(key, Ts(lock.startTS)), PlainValue(lock.value)),
                                    PutReq(CfLock, ReqKey(key, NoTs), LockValue(LockCf(lc, lock)))];
          } else {
            requests := requests + [PutReq(CfLock, ReqKey(key, NoTs), LockValue(LockCf(lc, lock)))];
          }
        case Commit(key, lock) =>
          var tp := TPut;
          if lock.op == OpLock {
            tp := TLock;
          } else if lock.op == OpDel {
            tp := TDelete;
          }
          requests := requests +
            [PutReq(CfWrite, ReqKey(key, Ts(stamps.commitTS)), WriteValue(tp, lock.startTS, lock.value)),
             DeleteReq(CfLock, ReqKey(key, NoTs))];
        case RollBack(key, deleteLock) =>
          var put := PutReq(CfWrite, ReqKey(key, Ts(stamps.startTS)), WriteValue(TRollback, stamps.startTS, []));
          if deleteLock {
            requests := requests + [put, DeleteReq(CfLock, ReqKey(key, NoTs))];
          } else {
            requests := requests + [put];
          }
        case PessimisticLock(key, lock) =>
          requests := requests + [PutReq(CfLock, ReqKey(key, NoTs), LockValue(LockCf(lc, lock)))];
        case PessimisticRollback(key) =>
          requests := requests + [DeleteReq(CfLock, ReqKey(key, NoTs))];
      }
    }
  }

  // Regrouping requests into operations

  datatype WriteOp =
    | PrewriteOp(putDefault: Option<Req>, putLock: Req)
    | CommitWrite(putWrite: Req, delLock: Req)
    | RollbackWrite(delDefault: Option<Req>, rollback: Option<Req>, unlock: Option<Req>)

  predicate IsDelLock(r: Req) {
    r.DeleteReq? && r.cf == CfLock
  }

  /** The operation one call stands for. */
  function OpOf(lc: LockCodec, t: Stamps, c: Call): WriteOp {
    var rs := RequestsOf(lc, t, c);
    match c
    case Prewrite(_, lock) => if lc.large(lock) then PrewriteOp(Some(rs[0]), rs[1]) else PrewriteOp(None, rs[0])
    case Commit(_, _) => CommitWrite(rs[0], rs[1])
    case RollBack(_, deleteLock) => RollbackWrite(None, Some(rs[0]), if deleteLock then Some(rs[1]) else None)
    case PessimisticLock(_, _) => PrewriteOp(None, rs[0])
    case PessimisticRollback(_) => RollbackWrite(None, None, Some(rs[0]))
  }

  /** A rollback that keeps its lock, right before a pessimistic rollback, reads as one operation. */
  predicate Ambiguous(cs: seq<Call>) {
    |cs| >= 2 && cs[0].RollBack? && !cs[0].deleteLock && cs[1].PessimisticRollback?
  }

  /** What regrouping makes of the requests of a list of calls. */
  function Regrouped(lc: LockCodec, t: Stamps, cs: seq<Call>): seq<WriteOp>
    decreases |cs|
  {
    if cs == [] then []
    else if Ambiguous(cs) then
      [RollbackWrite(None, Some(RequestsOf(lc, t, cs[0])[0]), Some(RequestsOf(lc, t, cs[1])[0]))] +
        Regrouped(lc, t, cs[2..])
    else [OpOf(lc, t, cs[0])] + Regrouped(lc, t, cs[1..])
  }

  ghost predicate Unambiguous(cs: seq<Call>) {
    forall i :: 0 <= i < |cs| ==> !Ambiguous(cs[i..])
  }

  lemma {:induction false} RegroupedLength(lc: LockCodec, t: Stamps, cs: seq<Call>)
    ensures |Regrouped(lc, t, cs)| <= |cs|
    ensures |Regrouped(lc, t, cs)| == |cs| <==> Unambiguous(cs)
    decreases |cs|
  {
    if cs != [] {
      if Ambiguous(cs) {
        RegroupedLength(lc, t, cs[2..]);
        assert Ambiguous(cs[0..]);
      } else {
        RegroupedLength(lc, t, cs[1..]);
        assert forall i :: 0 <= i < |cs[1..]| ==> cs[1..][i..] == cs[i + 1..];
        if Unambiguous(cs[1..]) {
          forall i | 0 <= i < |cs| ensures !Ambiguous(cs[i..]) {
            if i > 0 { assert cs[i..] == cs[1..][i - 1..]; } else { assert cs[0..] == cs; }
          }
        }
        if Unambiguous(cs) {
          forall i | 0 <= i < |cs[1..]| ensures !Ambiguous(cs[1..][i..]) {
            assert cs[1..][i..] == cs[i + 1..];
          }
        }
      }
    }
  }

  /** One operation per call, in order, exactly when no two neighbouring calls read as one. */
  lemma {:induction false} OneOpPerCall(lc: LockCodec, t: Stamps, cs: seq<Call>)
    requires Unambiguous(cs)
    ensures |Regrouped(lc, t, cs)| == |cs|
    ensures forall i :: 0 <= i < |cs| ==> Regrouped(lc, t, cs)[i] == OpOf(lc, t, cs[i])
    decreases |cs|
  {
    if cs != [] {
      assert cs[0..] == cs;
      assert Unambiguous(cs[1..]) by {
        forall i | 0 <= i < |cs[1..]| ensures !Ambiguous(cs[1..][i..]) {
          assert cs[1..][i..] == cs[i + 1..];
        }
      }
      OneOpPerCall(lc, t, cs[1..]);
    }
  }

  /** A batch of one kind is never ambiguous. */
  lemma SingleKindUnambiguous(cs: seq<Call>, k: Kind)
    requires forall i :: 0 <= i < |cs| ==> KindOf(cs[i]) == k
    ensures Unambiguous(cs)
  {
    forall i | 0 <= i < |cs| ensures !Ambiguous(cs[i..]) {
      if i + 1 < |cs| { assert cs[i..][0] == cs[i] && cs[i..][1] == cs[i + 1]; }
    }
  }

  /** The requests ahead, when the calls from the `n`-th on are still to come. */
  lemma Ahead(lc: LockCodec, t: Stamps, rs: seq<Req>, i: nat, cs: seq<Call>, n: nat)
    requires i <= |rs| && n <= |cs| && rs[i..] == AllRequests(lc, t, cs[n..])
    ensures i < |rs| <==> n < |cs|
    ensures n < |cs| ==>
      var r := RequestsOf(lc, t, cs[n]);
      && i + |r| <= |rs| && (forall j :: 0 <= j < |r| ==> rs[i + j] == r[j])
      && rs[i + |r|..] == AllRequests(lc, t, cs[n + 1..])
  {
    if n < |cs| {
      assert cs[n..][0] == cs[n] && cs[n..][1..] == cs[n + 1..];
      var r := RequestsOf(lc, t, cs[n]);
      assert rs[i..][..|r|] == r && rs[i..][|r|..] == AllRequests(lc, t, cs[n + 1..]);
      forall j | 0 <= j < |r| ensures rs[i + j] == r[j] { assert rs[i..][j] == r[j]; }
    } else {
      assert cs[n..] == [];
      assert |rs[i..]| == |rs| - i;
    }
  }

  /** One turn of the regrouping loop: a crash, or operations and where to go on. */
  datatype Turn = Crash | Turn(ops: seq<WriteOp>, next: nat)

  function DeleteTurn(rs: seq<Req>, i: nat): Turn
    requires i < |rs| && rs[i].DeleteReq?
  {
    match rs[i].cf
    case CfDefault =>
      // The rollback of a large value: a write and a lock deletion must follow.
      if i + 2 < |rs| && rs[i + 1].PutReq? && rs[i + 1].cf == CfWrite && IsDelLock(rs[i + 2]) then
        Turn([RollbackWrite(Some(rs[i]), Some(rs[i + 1]), Some(rs[i + 2]))], i + 3)
      else Crash
    case CfWrite => Turn([], i + 1)
    case CfLock => Turn([RollbackWrite(None, None, Some(rs[i]))], i + 1)
  }

  function PutTurn(rs: seq<Req>, i: nat): Turn
    requires i < |rs| && rs[i].PutReq?
  {
    match rs[i].cf
    case CfDefault =>
      if i + 1 < |rs| && rs[i + 1].PutReq? && rs[i + 1].cf == CfLock then
        Turn([PrewriteOp(Some(rs[i]), rs[i + 1])], i + 2)
      else Crash
    case CfLock => Turn([PrewriteOp(None, rs[i])], i + 1)
    case CfWrite =>
      if !rs[i].value.WriteValue? then Crash
      else if rs[i].value.tp == TRollback then
        if i + 1 < |rs| && IsDelLock(rs[i + 1]) then Turn([RollbackWrite(None, Some(rs[i]), Some(rs[i + 1]))], i + 2)
        else Turn([RollbackWrite(None, Some(rs[i]), None)], i + 1)
      else if i + 1 < |rs| && IsDelLock(rs[i + 1]) then Turn([CommitWrite(rs[i], rs[i + 1])], i + 2)
      else Crash
  }

  function TurnAt(rs: seq<Req>, i: nat): (t: Turn)
    requires i < |rs|
    ensures t.Turn? ==> i < t.next <= |rs|
  {
    if rs[i].DeleteReq? then DeleteTurn(rs, i) else PutTurn(rs, i)
  }

  /** `createWriteCmdOps`: `panicked` stands for an index out of range or a failed assertion. */
  method CreateWriteCmdOps(rs: seq<Req>, ghost lc: LockCodec, ghost t: Stamps, ghost cs: seq<Call>)
    returns (panicked: bool, ops: seq<WriteOp>)
    requires rs == AllRequests(lc, t, cs)
    ensures !panicked && ops == Regrouped(lc, t, cs)
  {
    panicked, ops := false, [];
    if |rs| > 0 && rs[0].DeleteReq? && rs[0].cf == CfWrite {
      FirstRequest(lc, t, cs);
      return;
    }
    var i: nat := 0;
    ghost var n: nat := 0;
    assert rs[0..] == rs && cs[0..] == cs;
    while i < |rs|
      invariant Regrouping(lc, t, rs, i, cs, n, ops)
    {
      TurnRegroups(lc, t, rs, i, cs, n, ops);
      var turn := TurnAt(rs, i);
      if turn.Crash? {
        return true, [];
      }
      ops, i := ops + turn.ops, turn.next;
      n := n + if Ambiguous(cs[n..]) then 2 else 1;
    }
    AllRegrouped(lc, t, rs, i, cs, n, ops);
  }

  /** The requests before `i` are those of the first `n` calls, and `ops` is what they gave. */
  ghost predicate Regrouping(lc: LockCodec, t: Stamps, rs: seq<Req>, i: nat, cs: seq<Call>, n: nat, ops: seq<WriteOp>) {
    && i <= |rs| && n <= |cs| && rs[i..] == AllRequests(lc, t, cs[n..])
    && Regrouped(lc, t, cs) == ops + Regrouped(lc, t, cs[n..])
  }

  lemma TurnRegroups(lc: LockCodec, t: Stamps, rs: seq<Req>, i: nat, cs: seq<Call>, n: nat, ops: seq<WriteOp>)
    requires i < |rs| && Regrouping(lc, t, rs, i, cs, n, ops)
    ensures TurnAt(rs, i).Turn?
    ensures Regrouping(lc, t, rs, TurnAt(rs, i).next, cs,
      n + if Ambiguous(cs[n..]) then 2 else 1, ops + TurnAt(rs, i).ops)
  {
    Turns(lc, t, rs, i, cs, n);
  }

  lemma AllRegrouped(lc: LockCodec, t: Stamps, rs: seq<Req>, i: nat, cs: seq<Call>, n: nat, ops: seq<WriteOp>)
    requires Regrouping(lc, t, rs, i, cs, n, ops) && i == |rs|
    ensures ops == Regrouped(lc, t, cs)
  {
    Ahead(lc, t, rs, i, cs, n);
    assert cs[n..] == [];
  }

  lemma FirstRequest(lc: LockCodec, t: Stamps, cs: seq<Call>)
    ensures AllRequests(lc, t, cs) != [] ==>
      !(AllRequests(lc, t, cs)[0].DeleteReq? && AllRequests(lc, t, cs)[0].cf == CfWrite)
  {
    if cs != [] { assert AllRequests(lc, t, cs)[0] == RequestsOf(lc, t, cs[0])[0]; }
  }

  /** The requests of a call stand at `i`. */
  ghost predicate StandsAt(lc: LockCodec, t: Stamps, rs: seq<Req>, i: nat, c: Call) {
    var r := RequestsOf(lc, t, c);
    i + |r| <= |rs| && forall j :: 0 <= j < |r| ==> rs[i + j] == r[j]
  }

  /** A turn takes up the requests of a call, unless it keeps its lock and a lock deletion follows. */
  lemma CallTurn(lc: LockCodec, t: Stamps, rs: seq<Req>, i: nat, c: Call)
    requires StandsAt(lc, t, rs, i, c)
    requires c.RollBack? && !c.deleteLock && i + 1 < |rs| ==> !IsDelLock(rs[i + 1])
    ensures TurnAt(rs, i) == Turn([OpOf(lc, t, c)], i + |RequestsOf(lc, t, c)|)
  {
    var r := RequestsOf(lc, t, c);
    assert rs[i + 0] == r[0];
    if |r| == 2 { assert rs[i + 1] == r[1]; }
  }

  lemma MergedTurn(lc: LockCodec, t: Stamps, rs: seq<Req>, i: nat, c: Call)
    requires StandsAt(lc, t, rs, i, c) && c.RollBack? && !c.deleteLock && i + 1 < |rs| && IsDelLock(rs[i + 1])
    ensures TurnAt(rs, i) == Turn([RollbackWrite(None, Some(RequestsOf(lc, t, c)[0]), Some(rs[i + 1]))], i + 2)
  {
    assert rs[i + 0] == RequestsOf(lc, t, c)[0];
  }

  /** A turn takes up exactly the requests of the next call, or of the next two when these are ambiguous. */
  lemma Turns(lc: LockCodec, t: Stamps, rs: seq<Req>, i: nat, cs: seq<Call>, n: nat)
    requires i < |rs| && n <= |cs| && rs[i..] == AllRequests(lc, t, cs[n..])
    ensures n < |cs| && TurnAt(rs, i).Turn?
    ensures var turn, m := TurnAt(rs, i), n + if Ambiguous(cs[n..]) then 2 else 1;
      && m <= |cs| && rs[turn.next..] == AllRequests(lc, t, cs[m..])
      && Regrouped(lc, t, cs[n..]) == turn.ops + Regrouped(lc, t, cs[m..])
  {
    Ahead(lc, t, rs, i, cs, n);
    var c := cs[n];
    assert cs[n..][0] == c && cs[n..][1..] == cs[n + 1..] && StandsAt(lc, t, rs, i, c);
    if c.RollBack? && !c.deleteLock {
      Ahead(lc, t, rs, i + 1, cs, n + 1);
      if n + 1 < |cs| {
        assert rs[i + 1 + 0] == RequestsOf(lc, t, cs[n + 1])[0];
        assert cs[n..][1] == cs[n + 1] && cs[n..][2..] == cs[n + 2..];
      }
    }
    if Ambiguous(cs[n..]) { MergedTurn(lc, t, rs, i, c); } else { CallTurn(lc, t, rs, i, c); }
  }

  // Reading a lock

  function LockOf(l: LockEntry): Bytes {
    if l.PutLock? then l.value else []
  }

  /** The last lock entry of a key in the batch; empty for a deletion or for none. */
  function LastLock(ls: seq<LockEntry>, key: Bytes): Bytes
    decreases |ls|
  {
    if ls == [] then []
    else if ls[|ls| - 1].key == key then LockOf(ls[|ls| - 1])
    else LastLock(ls[..|ls| - 1], key)
  }

  function Lookup(locks: Locks, key: Bytes): Bytes {
    if key in locks then locks[key] else []
  }

  /** What `getLock` finds: the lock store first, then the batch. */
  function FoundLock(locks: Locks, ls: seq<LockEntry>, key: Bytes): Bytes {
    if Lookup(locks, key) != [] then Lookup(locks, key) else LastLock(ls, key)
  }

  method GetLock(locks: Locks, ls: seq<LockEntry>, key: Bytes) returns (val: Bytes)
    ensures val == FoundLock(locks, ls, key)
  {
    if key in locks && |locks[key]| > 0 {
      return locks[key];
    }
    var i := |ls| - 1;
    assert ls[..|ls|] == ls;
    while i >= 0
      invariant -1 <= i < |ls| && LastLock(ls, key) == LastLock(ls[..i + 1], key)
    {
      assert ls[..i + 1][..i] == ls[..i];
      if ls[i].key == key {
        return LockOf(ls[i]);
      }
      i := i - 1;
    }
    return [];
  }

  ghost predicate Touched(ls: seq<LockEntry>, key: Bytes) {
    exists i :: 0 <= i < |ls| && ls[i].key == key
  }

  /** The lock a key has once the batch is written. */
  lemma {:induction false} LookupWritten(locks: Locks, ls: seq<LockEntry>, key: Bytes)
    ensures Lookup(WriteLocks(locks, ls), key) == if Touched(ls, key) then LastLock(ls, key) else Lookup(locks, key)
    ensures !Touched(ls, key) ==> LastLock(ls, key) == []
    decreases |ls|
  {
    if ls != [] {
      var front := ls[..|ls| - 1];
      LookupWritten(locks, front, key);
      if Touched(front, key) {
        var i :| 0 <= i < |front| && front[i].key == key;
        assert ls[i].key == key;
      }
    }
  }

  /**
   The lock store wins over the batch, so the lock found is the current one exactly when the batch
   has not touched the key, or the store has none, or the batch leaves the key with the same lock.
   */
  lemma FoundLockIsCurrent(locks: Locks, ls: seq<LockEntry>, key: Bytes)
    ensures FoundLock(locks, ls, key) == Lookup(WriteLocks(locks, ls), key) <==>
      (!Touched(ls, key) || Lookup(locks, key) == [] || LastLock(ls, key) == Lookup(locks, key))
  {
    LookupWritten(locks, ls, key);
  }

  /** A lock replaced earlier in the same batch is found in its old form. */
  lemma StaleLockFound(key: Bytes, before: Bytes, after: Bytes)
    requires before != [] && before != after
    ensures FoundLock(map[key := before], [PutLock(key, after)], key) !=
      Lookup(WriteLocks(map[key := before], [PutLock(key, after)]), key)
  {
    var ls := [PutLock(key, after)];
    assert ls[0].key == key && Touched(ls, key);
    FoundLockIsCurrent(map[key := before], ls, key);
  }

  // Executing requests

  /** The lock a prewrite asks for, with its value put back. */
  function RestoredLock(op: WriteOp): Lock
    requires op.PrewriteOp? && op.putLock.PutReq? && op.putLock.value.LockValue?
  {
    var lock := op.putLock.value.lock;
    if op.putDefault.Some? && op.putDefault.value.PutReq? && op.putDefault.value.value.PlainValue? then
      lock.(value := op.putDefault.value.value.bytes)
    else lock
  }

  /** The writes of one operation, given the locks it can see. */
  function ReqWrites(env: Env, lc: LockCodec, locks: Locks, ls: seq<LockEntry>, op: WriteOp): seq<Write> {
    match op
    case PrewriteOp(_, putLock) =>
      if putLock.PutReq? && putLock.value.LockValue? then
        [SetLock(putLock.key.raw, lc.marshal(RestoredLock(op)))]
      else []
    case CommitWrite(putWrite, _) =>
      if putWrite.key.ts.Ts? then
        CommitWrites(env, putWrite.key.raw, FoundLock(locks, ls, putWrite.key.raw), putWrite.key.ts.ts)
      else []
    case RollbackWrite(_, rollback, unlock) =>
      if rollback.Some? then
        if rollback.value.key.ts.Ts? then
          var ts := rollback.value.key.ts.ts;
          [Rollback(rollback.value.key.raw, ts, env.userMeta(ts, 0))]
          + if unlock.Some? then [DeleteLock(rollback.value.key.raw)] else []
        else []
      else if unlock.Some? then [DeleteLock(unlock.value.key.raw)]
      else []
  }

  /** The batch after the operations in order; each sees the lock entries of those before it. */
  function ExecOps(env: Env, lc: LockCodec, locks: Locks, b: Batch, ops: seq<WriteOp>): Batch
    decreases |ops|
  {
    if ops == [] then b
    else
      var b' := ExecOps(env, lc, locks, b, ops[..|ops| - 1]);
      PutAll(b', ReqWrites(env, lc, locks, b'.locks, ops[|ops| - 1]))
  }

  /** A commit must find a lock; an assertion says so. */
  predicate FindsLock(locks: Locks, ls: seq<LockEntry>, op: WriteOp) {
    op.CommitWrite? ==> FoundLock(locks, ls, op.putWrite.key.raw) != []
  }

  /** Every commit finds a lock when its turn comes. */
  predicate LocksFound(env: Env, lc: LockCodec, locks: Locks, b: Batch, ops: seq<WriteOp>)
    decreases |ops|
  {
    ops == [] ||
    var front := ops[..|ops| - 1];
    && LocksFound(env, lc, locks, b, front)
    && FindsLock(locks, ExecOps(env, lc, locks, b, front).locks, ops[|ops| - 1])
  }

  lemma {:induction false} LocksFoundBefore(env: Env, lc: LockCodec, locks: Locks, b: Batch, ops: seq<WriteOp>, i: nat)
    requires i <= |ops| && LocksFound(env, lc, locks, b, ops)
    ensures LocksFound(env, lc, locks, b, ops[..i])
    decreases |ops|
  {
    if i < |ops| {
      LocksFoundBefore(env, lc, locks, b, ops[..|ops| - 1], i);
      assert ops[..|ops| - 1][..i] == ops[..i];
    } else {
      assert ops[..i] == ops;
    }
  }

  lemma OneOpMore(env: Env, lc: LockCodec, locks: Locks, b: Batch, ops: seq<WriteOp>, i: nat)
    requires i < |ops|
    ensures var b' := ExecOps(env, lc, locks, b, ops[..i]);
      && ExecOps(env, lc, locks, b, ops[..i + 1]) == PutAll(b', ReqWrites(env, lc, locks, b'.locks, ops[i]))
      && (LocksFound(env, lc, locks, b, ops[..i + 1]) <==>
            LocksFound(env, lc, locks, b, ops[..i]) && FindsLock(locks, b'.locks, ops[i]))
  {
    assert ops[..i + 1][..i] == ops[..i];
  }

  lemma StuckAt(env: Env, lc: LockCodec, locks: Locks, b: Batch, ops: seq<WriteOp>, i: nat)
    requires i < |ops| && !FindsLock(locks, ExecOps(env, lc, locks, b, ops[..i]).locks, ops[i])
    ensures !LocksFound(env, lc, locks, b, ops)
  {
    if LocksFound(env, lc, locks, b, ops) {
      LocksFoundBefore(env, lc, locks, b, ops, i + 1);
      OneOpMore(env, lc, locks, b, ops, i);
    }
  }

  method ExecWriteOp(env: Env, lc: LockCodec, bundle: Bundle, wb: WriteBatch, op: WriteOp) returns (panicked: bool)
    modifies wb
    ensures panicked <==> !FindsLock(bundle.kv.locks, old(wb.View()).locks, op)
    ensures !panicked ==>
      wb.View() == PutAll(old(wb.View()), ReqWrites(env, lc, bundle.kv.locks, old(wb.View()).locks, op))
  {
    if op.CommitWrite? {
      var val := GetLock(bundle.kv.locks, wb.lockEntries, op.putWrite.key.raw);
      if |val| == 0 {
        return true;
      }
    }
    var ws := ReqWrites(env, lc, bundle.kv.locks, wb.lockEntries, op);
    wb.AddAll(ws);
    panicked := false;
  }

  /** Executes the operations in order; the assertion fires exactly when some commit finds no lock. */
  method ExecWriteOps(env: Env, lc: LockCodec, bundle: Bundle, wb: WriteBatch, ops: seq<WriteOp>)
    returns (panicked: bool)
    modifies wb
    ensures panicked <==> !LocksFound(env, lc, bundle.kv.locks, old(wb.View()), ops)
    ensures !panicked ==> wb.View() == ExecOps(env, lc, bundle.kv.locks, old(wb.View()), ops)
  {
    ghost var b, locks := wb.View(), bundle.kv.locks;
    var i := 0;
    while i < |ops|
      invariant 0 <= i <= |ops| && wb.View() == ExecOps(env, lc, locks, b, ops[..i])
      invariant LocksFound(env, lc, locks, b, ops[..i])
    {
      OneOpMore(env, lc, locks, b, ops, i);
      panicked := ExecWriteOp(env, lc, bundle, wb, ops[i]);
      if panicked {
        StuckAt(env, lc, locks, b, ops, i);
        return;
      }
      i := i + 1;
    }
    assert ops[..|ops|] == ops;
    panicked := false;
  }

  // One meaning

  /** Two locks whose commits write the same. */
  ghost predicate CommitAlike(env: Env, key: Bytes, l: Lock, m: Lock, commitTS: nat) {
    if l.op != OpLock then
      m.op != OpLock && l.value == m.value && env.userMeta(l.startTS, commitTS) == env.userMeta(m.startTS, commitTS)
    else if l.primary == key then m.op == OpLock && m.primary == key && l.startTS == m.startTS
    else m.op == OpLock && m.primary != key
  }

  /**
   When one call means the same either way. A commit by request takes the lock it finds, and a pessimistic
   lock by request loses a value too large for the lock column family.
   */
  ghost predicate Alike(env: Env, lc: LockCodec, t: Stamps, locks: Locks, ls: seq<LockEntry>, c: Call) {
    match c
    case Commit(key, lock) =>
      CommitAlike(env, key, env.decodeLock(FoundLock(locks, ls, key)), env.decodeLock(lc.marshal(lock)), t.commitTS)
    case PessimisticLock(_, lock) => lc.marshal(LockCf(lc, lock)) == lc.marshal(lock)
    case _ => true
  }

  /** One call writes the same either way exactly when it is alike. */
  lemma SameWrites(env: Env, lc: LockCodec, t: Stamps, locks: Locks, ls: seq<LockEntry>, c: Call)
    ensures ReqWrites(env, lc, locks, ls, OpOf(lc, t, c)) == OpWrites(env, CustomOp(lc, t, c)) <==>
      Alike(env, lc, t, locks, ls, c)
  {
    match c
    case Prewrite(_, lock) =>
      if lc.large(lock) { assert lock.(value := []).(value := lock.value) == lock; }
    case Commit(key, lock) =>
      SameCommits(env, key, FoundLock(locks, ls, key), lc.marshal(lock), t.commitTS);
    case PessimisticLock(key, lock) =>
      var ws, vs := ReqWrites(env, lc, locks, ls, OpOf(lc, t, c)), OpWrites(env, CustomOp(lc, t, c));
      assert ws == [SetLock(key, lc.marshal(LockCf(lc, lock)))] && vs == [SetLock(key, lc.marshal(lock))];
      if ws == vs { assert ws[0] == vs[0]; }
    case RollBack(_, _) =>
    case PessimisticRollback(_) =>
  }

  lemma SameCommits(env: Env, key: Bytes, a: Bytes, b: Bytes, commitTS: nat)
    ensures CommitWrites(env, key, a, commitTS) == CommitWrites(env, key, b, commitTS) <==>
      CommitAlike(env, key, env.decodeLock(a), env.decodeLock(b), commitTS)
  {
    var ws, vs := CommitWrites(env, key, a, commitTS), CommitWrites(env, key, b, commitTS);
    if ws == vs { assert ws[0] == vs[0]; }
  }

  /** A pessimistic lock with a large value: the request encoding drops the value. */
  lemma LargePessimisticLock(env: Env, t: Stamps, locks: Locks, ls: seq<LockEntry>, key: Bytes)
    ensures var lc := LockCodec((l: Lock) => l.value, (l: Lock) => l.value != []);
      var c := PessimisticLock(key, Lock(1, OpPut, key, [7]));
      ReqWrites(env, lc, locks, ls, OpOf(lc, t, c)) != OpWrites(env, CustomOp(lc, t, c))
  {
    var lc := LockCodec((l: Lock) => l.value, (l: Lock) => l.value != []);
    SameWrites(env, lc, t, locks, ls, PessimisticLock(key, Lock(1, OpPut, key, [7])));
  }

  /** Every call is alike when its turn comes, and every commit finds a lock, in the store or in the batch. */
  ghost predicate AllAlike(env: Env, lc: LockCodec, t: Stamps, locks: Locks, b: Batch, cs: seq<Call>)
    decreases |cs|
  {
    cs == [] ||
    var front, c := cs[..|cs| - 1], cs[|cs| - 1];
    var ls := PutAll(b, OpsWrites(env, CustomOps(lc, t, front))).locks;
    && AllAlike(env, lc, t, locks, b, front)
    && Alike(env, lc, t, locks, ls, c) && (c.Commit? ==> FoundLock(locks, ls, c.key) != [])
  }

  lemma CustomWritesSnoc(env: Env, lc: LockCodec, t: Stamps, cs: seq<Call>)
    requires cs != []
    ensures var n := |cs| - 1;
      OpsWrites(env, CustomOps(lc, t, cs)) ==
      OpsWrites(env, CustomOps(lc, t, cs[..n])) + OpWrites(env, CustomOp(lc, t, cs[n]))
  {
    var n, logOps := |cs| - 1, CustomOps(lc, t, cs);
    assert logOps[..n] == CustomOps(lc, t, cs[..n]);
  }

  lemma SameStep(env: Env, lc: LockCodec, t: Stamps, locks: Locks, b: Batch, ws: seq<Write>, now: Batch, c: Call)
    requires now == PutAll(b, ws) && Alike(env, lc, t, locks, now.locks, c)
    ensures PutAll(now, ReqWrites(env, lc, locks, now.locks, OpOf(lc, t, c))) ==
      PutAll(b, ws + OpWrites(env, CustomOp(lc, t, c)))
  {
    SameWrites(env, lc, t, locks, now.locks, c);
    PutAllJoin(b, ws, OpWrites(env, CustomOp(lc, t, c)));
  }

  lemma SameSnoc(env: Env, lc: LockCodec, t: Stamps, locks: Locks, b: Batch, ws: seq<Write>, ops: seq<WriteOp>, c: Call)
    requires ops != [] && ops[|ops| - 1] == OpOf(lc, t, c) && LocksFound(env, lc, locks, b, ops[..|ops| - 1])
    requires ExecOps(env, lc, locks, b, ops[..|ops| - 1]) == PutAll(b, ws)
    requires var ls := PutAll(b, ws).locks;
      Alike(env, lc, t, locks, ls, c) && (c.Commit? ==> FoundLock(locks, ls, c.key) != [])
    ensures LocksFound(env, lc, locks, b, ops)
    ensures ExecOps(env, lc, locks, b, ops) == PutAll(b, ws + OpWrites(env, CustomOp(lc, t, c)))
  {
    SameStep(env, lc, t, locks, b, ws, PutAll(b, ws), c);
  }

  lemma {:induction false} SameBatch(env: Env, lc: LockCodec, t: Stamps, locks: Locks, b: Batch, cs: seq<Call>,
                                     ops: seq<WriteOp>)
    requires AllAlike(env, lc, t, locks, b, cs) && |ops| == |cs|
    requires forall i :: 0 <= i < |cs| ==> ops[i] == OpOf(lc, t, cs[i])
    ensures LocksFound(env, lc, locks, b, ops)
    ensures ExecOps(env, lc, locks, b, ops) == PutAll(b, OpsWrites(env, CustomOps(lc, t, cs)))
    decreases |cs|
  {
    if cs != [] {
      var n := |cs| - 1;
      SameBatch(env, lc, t, locks, b, cs[..n], ops[..n]);
      SameSnoc(env, lc, t, locks, b, OpsWrites(env, CustomOps(lc, t, cs[..n])), ops, cs[n]);
      CustomWritesSnoc(env, lc, t, cs);
    }
  }

  /** Regrouped requests run without a failed assertion and append the same entries as the custom log. */
  lemma TwoEncodingsOneMeaning(env: Env, lc: LockCodec, t: Stamps, locks: Locks, b: Batch, cs: seq<Call>)
    requires Unambiguous(cs) && AllAlike(env, lc, t, locks, b, cs)
    ensures LocksFound(env, lc, locks, b, Regrouped(lc, t, cs))
    ensures ExecOps(env, lc, locks, b, Regrouped(lc, t, cs)) == PutAll(b, OpsWrites(env, CustomOps(lc, t, cs)))
  {
    OneOpPerCall(lc, t, cs);
    SameBatch(env, lc, t, locks, b, cs, Regrouped(lc, t, cs));
  }

  // The converse

  function OpsOf(lc: LockCodec, t: Stamps, cs: seq<Call>): (ops: seq<WriteOp>)
    ensures |ops| == |cs| && forall i :: 0 <= i < |ops| ==> ops[i] == OpOf(lc, t, cs[i])
  {
    seq(|cs|, i requires 0 <= i < |cs| => OpOf(lc, t, cs[i]))
  }

  /** After every call of the list the two encodings have appended the same. */
  ghost predicate AgreeThroughout(env: Env, lc: LockCodec, t: Stamps, locks: Locks, b: Batch, cs: seq<Call>)
    decreases |cs|
  {
    cs == [] ||
    (&& AgreeThroughout(env, lc, t, locks, b, cs[..|cs| - 1])
     && ExecOps(env, lc, locks, b, OpsOf(lc, t, cs)) == PutAll(b, OpsWrites(env, CustomOps(lc, t, cs))))
  }

  lemma SameAppended(b: Batch, ws: seq<Write>, vs: seq<Write>)
    requires PutAll(b, ws) == PutAll(b, vs)
    ensures AllEntries(ws) == AllEntries(vs) && AllLocks(ws) == AllLocks(vs)
  {
    PutAllMeaning(b, ws);
    PutAllMeaning(b, vs);
    TailsEqual(b.entries, AllEntries(ws), AllEntries(vs));
    TailsEqual(b.locks, AllLocks(ws), AllLocks(vs));
  }

  lemma TailsEqual<T>(a: seq<T>, x: seq<T>, y: seq<T>)
    requires a + x == a + y
    ensures x == y
  {
    assert (a + x)[|a|..] == x && (a + y)[|a|..] == y;
  }

  /** The data entry of a commit. */
  function CommitEntries(env: Env, key: Bytes, lock: Lock, commitTS: nat): seq<Entry> {
    var meta := env.userMeta(lock.startTS, commitTS);
    if lock.op != OpLock then [Entry(Data(key, commitTS), Cell(lock.value, meta))]
    else if lock.primary == key then [Entry(TxnStatus(key, lock.startTS, commitTS), Cell([], meta))]
    else []
  }

  lemma CommitAppends(env: Env, key: Bytes, lockVal: Bytes, commitTS: nat)
    ensures AllEntries(CommitWrites(env, key, lockVal, commitTS)) ==
      CommitEntries(env, key, env.decodeLock(lockVal), commitTS)
  {
    var ws := CommitWrites(env, key, lockVal, commitTS);
    var front := ws[..|ws| - 1];
    assert AllEntries(ws) == AllEntries(front) + [];
    if front != [] { assert front == [front[0]] && front[..0] == []; }
  }

  lemma CommitsAlike(env: Env, key: Bytes, a: Bytes, b: Bytes, commitTS: nat)
    requires AllEntries(CommitWrites(env, key, a, commitTS)) == AllEntries(CommitWrites(env, key, b, commitTS))
    ensures CommitAlike(env, key, env.decodeLock(a), env.decodeLock(b), commitTS)
  {
    CommitAppends(env, key, a, commitTS);
    CommitAppends(env, key, b, commitTS);
    EntriesAlike(env, key, env.decodeLock(a), env.decodeLock(b), commitTS);
  }

  lemma LocksAlike(key: Bytes, a: Bytes, b: Bytes)
    requires AllLocks([SetLock(key, a)]) == AllLocks([SetLock(key, b)])
    ensures a == b
  {
    var ws, vs := [SetLock(key, a)], [SetLock(key, b)];
    assert ws[..0] == [] && vs[..0] == [];
    assert AllLocks(ws) == [PutLock(key, a)] && AllLocks(vs) == [PutLock(key, b)];
    assert AllLocks(ws)[0] == AllLocks(vs)[0];
  }

  /** What the two encodings of a commit write. */
  lemma CommitCallWrites(env: Env, lc: LockCodec, t: Stamps, locks: Locks, ls: seq<LockEntry>, c: Call)
    requires c.Commit?
    ensures ReqWrites(env, lc, locks, ls, OpOf(lc, t, c)) ==
      CommitWrites(env, c.key, FoundLock(locks, ls, c.key), t.commitTS)
    ensures OpWrites(env, CustomOp(lc, t, c)) == CommitWrites(env, c.key, lc.marshal(c.lock), t.commitTS)
  {
  }

  /** What the two encodings of a pessimistic lock write. */
  lemma LockCallWrites(env: Env, lc: LockCodec, t: Stamps, locks: Locks, ls: seq<LockEntry>, c: Call)
    requires c.PessimisticLock?
    ensures ReqWrites(env, lc, locks, ls, OpOf(lc, t, c)) == [SetLock(c.key, lc.marshal(LockCf(lc, c.lock)))]
    ensures OpWrites(env, CustomOp(lc, t, c)) == [SetLock(c.key, lc.marshal(c.lock))]
  {
  }

  /** Calls that append the same entries are alike. */
  lemma SameAppendedAlike(env: Env, lc: LockCodec, t: Stamps, locks: Locks, ls: seq<LockEntry>, c: Call,
                          ws: seq<Write>, vs: seq<Write>)
    requires ws == ReqWrites(env, lc, locks, ls, OpOf(lc, t, c)) && vs == OpWrites(env, CustomOp(lc, t, c))
    requires AllEntries(ws) == AllEntries(vs) && AllLocks(ws) == AllLocks(vs)
    ensures Alike(env, lc, t, locks, ls, c)
  {
    if c.Commit? {
      CommitCallWrites(env, lc, t, locks, ls, c);
      CommitsAlike(env, c.key, FoundLock(locks, ls, c.key), lc.marshal(c.lock), t.commitTS);
    } else if c.PessimisticLock? {
      LockCallWrites(env, lc, t, locks, ls, c);
      LocksAlike(c.key, lc.marshal(LockCf(lc, c.lock)), lc.marshal(c.lock));
    }
  }

  lemma EntriesAlike(env: Env, key: Bytes, l: Lock, m: Lock, commitTS: nat)
    requires CommitEntries(env, key, l, commitTS) == CommitEntries(env, key, m, commitTS)
    ensures CommitAlike(env, key, l, m, commitTS)
  {
    var es, fs := CommitEntries(env, key, l, commitTS), CommitEntries(env, key, m, commitTS);
    if es != [] { assert es[0] == fs[0]; }
  }

  /**
   For a whole batch: every call is alike when its turn comes exactly when every commit finds a lock and the two
   encodings have appended the same after each call.
   */
  lemma {:induction false} AlikeExactly(env: Env, lc: LockCodec, t: Stamps, locks: Locks, b: Batch, cs: seq<Call>)
    ensures AllAlike(env, lc, t, locks, b, cs) <==>
      AgreeThroughout(env, lc, t, locks, b, cs) && LocksFound(env, lc, locks, b, OpsOf(lc, t, cs))
    decreases |cs|
  {
    if cs != [] {
      var n, ops := |cs| - 1, OpsOf(lc, t, cs);
      AlikeExactly(env, lc, t, locks, b, cs[..n]);
      assert ops[..n] == OpsOf(lc, t, cs[..n]);
      if AllAlike(env, lc, t, locks, b, cs) {
        SameBatch(env, lc, t, locks, b, cs, ops);
      }
      if AgreeThroughout(env, lc, t, locks, b, cs) && LocksFound(env, lc, locks, b, ops) {
        LastAlike(env, lc, t, locks, b, cs, ops);
      }
    }
  }

  lemma LastAlike(env: Env, lc: LockCodec, t: Stamps, locks: Locks, b: Batch, cs: seq<Call>, ops: seq<WriteOp>)
    requires cs != [] && ops == OpsOf(lc, t, cs) && LocksFound(env, lc, locks, b, ops)
    requires ExecOps(env, lc, locks, b, ops[..|cs| - 1]) == PutAll(b, OpsWrites(env, CustomOps(lc, t, cs[..|cs| - 1])))
    requires ExecOps(env, lc, locks, b, ops) == PutAll(b, OpsWrites(env, CustomOps(lc, t, cs)))
    ensures var c := cs[|cs| - 1];
      var ls := PutAll(b, OpsWrites(env, CustomOps(lc, t, cs[..|cs| - 1]))).locks;
      Alike(env, lc, t, locks, ls, c) && (c.Commit? ==> FoundLock(locks, ls, c.key) != [])
  {
    var n := |cs| - 1;
    var ws := OpsWrites(env, CustomOps(lc, t, cs[..n]));
    CustomWritesSnoc(env, lc, t, cs);
    PutAllJoin(b, ws, OpWrites(env, CustomOp(lc, t, cs[n])));
    var now := PutAll(b, ws);
    var req, log := ReqWrites(env, lc, locks, now.locks, OpOf(lc, t, cs[n])), OpWrites(env, CustomOp(lc, t, cs[n]));
    SameAppended(now, req, log);
    SameAppendedAlike(env, lc, t, locks, now.locks, cs[n], req, log);
  }

  lemma OnePrewrite(env: Env, lc: LockCodec, t: Stamps, b: Batch, key: Bytes, lock: Lock)
    ensures PutAll(b, OpsWrites(env, CustomOps(lc, t, [Prewrite(key, lock)]))).locks ==
      b.locks + [PutLock(key, lc.marshal(lock))]
  {
    var cs := [Prewrite(key, lock)];
    CustomWritesSnoc(env, lc, t, cs);
    assert cs[..0] == [] && CustomOps(lc, t, cs[..0]) == [];
    var ws := OpsWrites(env, CustomOps(lc, t, cs));
    assert ws == [SetLock(key, lc.marshal(lock))] && ws[..0] == [];
  }

  /** A commit right behind its own prewrite, both still in the batch, is covered. */
  lemma PrewriteThenCommit(env: Env, lc: LockCodec, t: Stamps, locks: Locks, b: Batch, key: Bytes, lock: Lock)
    requires Lookup(locks, key) == [] && lc.marshal(lock) != []
    ensures AllAlike(env, lc, t, locks, b, [Prewrite(key, lock)] + [Commit(key, lock)])
  {
    var front, cs := [Prewrite(key, lock)], [Prewrite(key, lock)] + [Commit(key, lock)];
    assert cs[..1] == front && front[..0] == [];
    OnePrewrite(env, lc, t, b, key, lock);
    var ls := PutAll(b, OpsWrites(env, CustomOps(lc, t, front))).locks;
    assert FoundLock(locks, ls, key) == LastLock(ls, key) == lc.marshal(lock);
    assert AllAlike(env, lc, t, locks, b, front[..0]);
    assert AllAlike(env, lc, t, locks, b, front);
    assert Alike(env, lc, t, locks, ls, Commit(key, lock));
  }
}
