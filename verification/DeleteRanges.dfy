/**
 Ranges of stale data waiting to be deleted (`pendingDeleteRanges` in raftstore/worker.go):
 a sorted store from start key to region, end key and deadline.
 */
module DeleteRanges {
  import opened Bytes
  import opened MemStore

  datatype PeerInfo = PeerInfo(regionID: nat, endKey: Bytes, timeout: int)

  datatype Holder = Holder(startKey: Bytes, endKey: Bytes, regionID: nat)

  type Stored = map<Bytes, PeerInfo>

  /** Ranges [a, b) and [c, d) share a key, for a < b and c < d. */
  predicate Meets(a: Bytes, b: Bytes, c: Bytes, d: Bytes) {
    Less(a, d) && Less(c, b)
  }

  function HolderOf(m: Stored, k: Bytes): Holder
    requires k in m
  {
    Holder(k, m[k].endKey, m[k].regionID)
  }

  /** Every stored range is non-empty and ends before any later one starts. */
  ghost predicate Disjoint(m: Stored) {
    && (forall k :: k in m ==> Less(k, m[k].endKey))
    && (forall k, l :: k in m && l in m && Less(k, l) ==> AtMost(m[k].endKey, l))
  }

  ghost predicate AnyMeets(m: Stored, start: Bytes, end: Bytes) {
    Less(start, end) && exists k :: k in m && Meets(k, m[k].endKey, start, end)
  }

  /** `found` lists exactly the stored ranges that meet [start, end), in key order. */
  ghost predicate Finds(m: Stored, start: Bytes, end: Bytes, found: seq<Holder>) {
    && (forall i, j :: 0 <= i < j < |found| ==> Less(found[i].startKey, found[j].startKey))
    && (forall h :: h in found ==>
      h.startKey in m && h == HolderOf(m, h.startKey) && Meets(h.startKey, h.endKey, start, end))
    && (forall k :: k in m && Meets(k, m[k].endKey, start, end) ==> HolderOf(m, k) in found)
  }

  // The search, over the first n stored positions

  ghost function Overlapping(r: MemStore<PeerInfo>, start: Bytes, end: Bytes, n: nat): seq<Holder>
    requires Valid(r) && n <= |r.keys|
  {
    if n == 0 then []
    else
      var front := Overlapping(r, start, end, n - 1);
      var h := HolderOf(r.vals, r.keys[n - 1]);
      if Meets(h.startKey, h.endKey, start, end) then front + [h] else front
  }

  lemma {:induction false} OverlappingPrefix(r: MemStore<PeerInfo>, start: Bytes, end: Bytes, n: nat)
    requires Valid(r) && n <= |r.keys|
    ensures var found := Overlapping(r, start, end, n);
      && (forall i, j :: 0 <= i < j < |found| ==> Less(found[i].startKey, found[j].startKey))
      && (forall h :: h in found ==>
        h.startKey in r.keys[..n] && h == HolderOf(r.vals, h.startKey) && Meets(h.startKey, h.endKey, start, end))
      && (forall k :: k in r.keys[..n] && Meets(k, r.vals[k].endKey, start, end) ==> HolderOf(r.vals, k) in found)
  {
    if n > 0 {
      OverlappingPrefix(r, start, end, n - 1);
      assert r.keys[..n] == r.keys[..n - 1] + [r.keys[n - 1]];
    }
  }

  lemma OverlappingFinds(r: MemStore<PeerInfo>, start: Bytes, end: Bytes)
    requires Valid(r)
    ensures Finds(r.vals, start, end, Overlapping(r, start, end, |r.keys|))
  {
    OverlappingPrefix(r, start, end, |r.keys|);
    assert r.keys[..|r.keys|] == r.keys;
  }

  lemma {:induction false} NoneBefore(r: MemStore<PeerInfo>, start: Bytes, end: Bytes, n: nat)
    requires Valid(r) && n <= |r.keys|
    requires forall i :: 0 <= i < n ==> AtMost(r.vals[r.keys[i]].endKey, start)
    ensures Overlapping(r, start, end, n) == []
  {
    if n > 0 { NoneBefore(r, start, end, n - 1); }
  }

  lemma {:induction false} NoneAfter(r: MemStore<PeerInfo>, start: Bytes, end: Bytes, m: nat, n: nat)
    requires Valid(r) && m <= n <= |r.keys|
    requires forall i :: m <= i < n ==> AtMost(end, r.keys[i])
    ensures Overlapping(r, start, end, n) == Overlapping(r, start, end, m)
  {
    if m < n { NoneAfter(r, start, end, m, n - 1); }
  }

  lemma NoneFrom(r: MemStore<PeerInfo>, start: Bytes, end: Bytes, m: nat)
    requires Valid(r) && m < |r.keys| && AtMost(end, r.keys[m])
    ensures Overlapping(r, start, end, |r.keys|) == Overlapping(r, start, end, m)
  {
    forall i | m <= i < |r.keys| ensures AtMost(end, r.keys[i]) {
      if m < i { BelowTransitive(end, r.keys[m], r.keys[i]); }
    }
    NoneAfter(r, start, end, m, |r.keys|);
  }

  /** Only the range just before the seek position can reach over `start`. */
  lemma SeekFront(r: MemStore<PeerInfo>, start: Bytes, end: Bytes)
    requires Valid(r) && Disjoint(r.vals) && Less(start, end)
    ensures var p := SeekPos(r.keys, start);
      Overlapping(r, start, end, p) ==
      if p > 0 && Less(start, r.vals[r.keys[p - 1]].endKey) then [HolderOf(r.vals, r.keys[p - 1])] else []
  {
    var p := SeekPos(r.keys, start);
    if p > 0 {
      forall i | 0 <= i < p - 1 ensures AtMost(r.vals[r.keys[i]].endKey, start) {
        BelowTransitive(r.vals[r.keys[i]].endKey, r.keys[i + 1], start);
      }
      NoneBefore(r, start, end, p - 1);
      LessTransitive(r.keys[p - 1], start, end);
    }
  }

  /** From the seek position on, a range meets the query as long as it starts before its end. */
  lemma SeekBack(r: MemStore<PeerInfo>, start: Bytes, end: Bytes, i: nat)
    requires Valid(r) && Disjoint(r.vals) && Less(start, end)
    requires SeekPos(r.keys, start) <= i < |r.keys| && Less(r.keys[i], end)
    ensures Overlapping(r, start, end, i + 1) == Overlapping(r, start, end, i) + [HolderOf(r.vals, r.keys[i])]
  {
    SeekSplits(r, start);
    BelowThen(start, r.keys[i], r.vals[r.keys[i]].endKey);
  }

  // Runs

  datatype Op =
    | Register(regionID: nat, start: Bytes, end: Bytes, timeout: int)
    | CleanUp(start: Bytes, end: Bytes)
    | Remove(start: Bytes)

  /** What is left once the ranges meeting [start, end) are taken out; an empty query takes nothing. */
  function Drained(m: Stored, start: Bytes, end: Bytes): Stored {
    if Less(start, end) then map k | k in m && !Meets(k, m[k].endKey, start, end) :: m[k] else m
  }

  function Step(m: Stored, op: Op): Stored {
    match op
    case Register(id, start, end, t) => Drained(m, start, end)[start := PeerInfo(id, end, t)]
    case CleanUp(start, end) => Drained(m, start, end)
    case Remove(start) => m - {start}
  }

  function Run(m: Stored, ops: seq<Op>): Stored
    decreases |ops|
  {
    if ops == [] then m else Run(Step(m, ops[0]), ops[1..])
  }

  /** A drain followed by an insert keeps the ranges disjoint exactly when the new range is non-empty. */
  lemma StepDisjoint(m: Stored, op: Op)
    requires Disjoint(m)
    ensures Disjoint(Step(m, op)) <==> (op.Register? ==> Less(op.start, op.end))
  {
    var m' := Step(m, op);
    if op.Register? {
      if Less(op.start, op.end) {
        RegisterDisjoint(m, op, m');
      } else {
        assert op.start in m' && m'[op.start].endKey == op.end;
      }
    }
  }

  lemma RegisterDisjoint(m: Stored, op: Op, m': Stored)
    requires Disjoint(m) && op.Register? && Less(op.start, op.end) && m' == Step(m, op)
    ensures Disjoint(m')
  {
    forall k, l | k in m' && l in m' && Less(k, l) ensures AtMost(m'[k].endKey, l) {
      if k == op.start {
        LessIrreflexive(k);
        var e := m'[l].endKey;
        assert !Meets(l, e, op.start, op.end);
        LessTransitive(k, l, e);
      } else if l == op.start {
        var e := m'[k].endKey;
        assert !Meets(k, e, op.start, op.end);
        LessTransitive(k, l, op.end);
      }
    }
  }

  lemma {:induction false} RunDisjoint(m: Stored, ops: seq<Op>)
    requires Disjoint(m)
    requires forall i :: 0 <= i < |ops| && ops[i].Register? ==> Less(ops[i].start, ops[i].end)
    ensures Disjoint(Run(m, ops))
    decreases |ops|
  {
    if ops != [] {
      StepDisjoint(m, ops[0]);
      RunDisjoint(Step(m, ops[0]), ops[1..]);
    }
  }

  /** The positions below `it` are searched, and `found` holds what they gave. */
  ghost predicate Searched(r: MemStore<PeerInfo>, start: Bytes, end: Bytes, it: nat, found: seq<Holder>) {
    && Valid(r) && SeekPos(r.keys, start) <= it <= |r.keys|
    && found == Overlapping(r, start, end, it)
  }

  lemma SearchStart(r: MemStore<PeerInfo>, start: Bytes, end: Bytes)
    requires Valid(r) && Disjoint(r.vals) && Less(start, end)
    ensures var p := SeekPos(r.keys, start);
      Searched(r, start, end, p,
        if p > 0 && Less(start, r.vals[r.keys[p - 1]].endKey) then [HolderOf(r.vals, r.keys[p - 1])] else [])
  {
    SeekFront(r, start, end);
  }

  lemma SearchStep(r: MemStore<PeerInfo>, start: Bytes, end: Bytes, it: nat, found: seq<Holder>)
    requires Disjoint(r.vals) && Less(start, end)
    requires Searched(r, start, end, it, found) && it < |r.keys| && Less(r.keys[it], end)
    ensures Searched(r, start, end, it + 1, found + [HolderOf(r.vals, r.keys[it])])
  {
    SeekBack(r, start, end, it);
  }

  lemma SearchStop(r: MemStore<PeerInfo>, start: Bytes, end: Bytes, it: nat, found: seq<Holder>)
    requires Searched(r, start, end, it, found) && (it < |r.keys| ==> !Less(r.keys[it], end))
    ensures Finds(r.vals, start, end, found)
  {
    if it < |r.keys| { NoneFrom(r, start, end, it); }
    OverlappingFinds(r, start, end);
  }

  /** The rest of the search: `Next` until a range starts at or after the end of the query. */
  method CollectRest(r: MemStore<PeerInfo>, startKey: Bytes, endKey: Bytes, from: nat, front: seq<Holder>)
    returns (found: seq<Holder>)
    requires Disjoint(r.vals) && Less(startKey, endKey) && Searched(r, startKey, endKey, from, front)
    ensures Finds(r.vals, startKey, endKey, found)
  {
    var it := from;
    found := front;
    while it < |r.keys| && Less(r.keys[it], endKey)
      invariant Searched(r, startKey, endKey, it, found)
    {
      SearchStep(r, startKey, endKey, it, found);
      found := found + [HolderOf(r.vals, r.keys[it])];
      it := it + 1;
    }
    SearchStop(r, startKey, endKey, it, found);
  }

  class PendingDeleteRanges {
    var ranges: MemStore<PeerInfo>

    constructor ()
      ensures Valid(ranges) && ranges.vals == map[]
    {
      ranges := Empty();
    }

    method FindOverlapRanges(startKey: Bytes, endKey: Bytes) returns (found: seq<Holder>)
      requires Valid(ranges) && Disjoint(ranges.vals)
      ensures Less(startKey, endKey) ==> Finds(ranges.vals, startKey, endKey, found)
      ensures !Less(startKey, endKey) ==> found == []
    {
      found := [];
      if !Less(startKey, endKey) {
        return;
      }
      SearchStart(ranges, startKey, endKey);
      // SeekForExclusivePrev: the last key before startKey; unpositioned when there is none.
      var it := SeekPos(ranges.keys, startKey) - 1;
      if it >= 0 && Less(startKey, ranges.vals[ranges.keys[it]].endKey) {
        found := [HolderOf(ranges.vals, ranges.keys[it])];
      }
      found := CollectRest(ranges, startKey, endKey, it + 1, found);
    }

    /** Refuses a range that meets a stored one; `panicked` is the source's panic. */
    method Insert(regionID: nat, startKey: Bytes, endKey: Bytes, timeout: int) returns (panicked: bool)
      requires Valid(ranges) && Disjoint(ranges.vals)
      modifies this
      ensures panicked <==> AnyMeets(old(ranges.vals), startKey, endKey)
      ensures Valid(ranges)
      ensures ranges.vals ==
        if panicked then old(ranges.vals) else old(ranges.vals)[startKey := PeerInfo(regionID, endKey, timeout)]
    {
      var found := FindOverlapRanges(startKey, endKey);
      panicked := |found| != 0;
      if panicked {
        assert found[0] in found;
        return;
      }
      PutValid(ranges, startKey, PeerInfo(regionID, endKey, timeout));
      ranges := Put(ranges, startKey, PeerInfo(regionID, endKey, timeout));
    }

    /** Takes out the range starting at `startKey`, if there is one. */
    method RemoveAt(startKey: Bytes) returns (info: seq<PeerInfo>)
      requires Valid(ranges)
      modifies this
      ensures Valid(ranges) && ranges.vals == Step(old(ranges.vals), Remove(startKey))
      ensures info == if startKey in old(ranges.vals) then [old(ranges.vals)[startKey]] else []
    {
      info := [];
      if startKey in ranges.vals {
        info := [ranges.vals[startKey]];
        DeleteValid(ranges, startKey);
        ranges := Delete(ranges, startKey);
      }
    }

    /** Every deletion finds its key, so the source's assertion holds. */
    method DrainOverlapRanges(startKey: Bytes, endKey: Bytes) returns (found: seq<Holder>)
      requires Valid(ranges) && Disjoint(ranges.vals)
      modifies this
      ensures Valid(ranges) && ranges.vals == Step(old(ranges.vals), CleanUp(startKey, endKey))
      ensures Less(startKey, endKey) ==> Finds(old(ranges.vals), startKey, endKey, found)
      ensures !Less(startKey, endKey) ==> found == []
    {
      found := FindOverlapRanges(startKey, endKey);
      var i := 0;
      while i < |found|
        invariant 0 <= i <= |found|
        invariant Valid(ranges)
        invariant ranges.vals == old(ranges.vals) - KeysOf(found[..i])
      {
        KeysOfSnoc(found, i);
        KeysOfBefore(old(ranges.vals), startKey, endKey, found, i);
        assert found[i] in found;
        assert found[i].startKey in ranges.vals;
        DeleteValid(ranges, found[i].startKey);
        ranges := Delete(ranges, found[i].startKey);
        i := i + 1;
      }
      assert found[..|found|] == found;
      DrainedAll(old(ranges.vals), startKey, endKey, found);
    }

    /** Registers a range for delayed deletion; the overlap panic cannot fire after the drain. */
    method InsertPendingDeleteRange(delaySeconds: nat, regionID: nat, startKey: Bytes, endKey: Bytes, timeout: int)
      returns (ok: bool, panicked: bool, cleaned: seq<Holder>)
      requires Valid(ranges) && Disjoint(ranges.vals)
      modifies this
      ensures !panicked && Valid(ranges)
      ensures ok <==> delaySeconds != 0
      ensures ranges.vals ==
        if ok then Step(old(ranges.vals), Register(regionID, startKey, endKey, timeout)) else old(ranges.vals)
      ensures ok && Less(startKey, endKey) ==> Finds(old(ranges.vals), startKey, endKey, cleaned)
    {
      ok, panicked, cleaned := false, false, [];
      if delaySeconds == 0 {
        return;
      }
      cleaned := DrainOverlapRanges(startKey, endKey);
      StepDisjoint(old(ranges.vals), CleanUp(startKey, endKey));
      panicked := Insert(regionID, startKey, endKey, timeout);
      ok := true;
    }
  }

  ghost function KeysOf(found: seq<Holder>): set<Bytes> {
    set h | h in found :: h.startKey
  }

  lemma KeysOfSnoc(found: seq<Holder>, i: nat)
    requires i < |found|
    ensures KeysOf(found[..i + 1]) == KeysOf(found[..i]) + {found[i].startKey}
  {
    assert found[..i + 1] == found[..i] + [found[i]];
  }

  lemma KeysOfBefore(m: Stored, start: Bytes, end: Bytes, found: seq<Holder>, i: nat)
    requires i < |found| && Finds(m, start, end, found)
    ensures found[i].startKey !in KeysOf(found[..i])
  {
    LessIrreflexive(found[i].startKey);
  }

  lemma DrainedAll(m: Stored, start: Bytes, end: Bytes, found: seq<Holder>)
    requires if Less(start, end) then Finds(m, start, end, found) else found == []
    ensures m - KeysOf(found) == Drained(m, start, end)
  {
    if Less(start, end) {
      forall k | k in m ensures k in KeysOf(found) <==> Meets(k, m[k].endKey, start, end) {
        if Meets(k, m[k].endKey, start, end) { assert HolderOf(m, k) in found; }
      }
    }
  }
}
