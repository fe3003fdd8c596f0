/**
 The store's own picture of its regions (`storeMeta` in raftstore/fsm_store.go): the regions by id,
 and `regionRanges`, an index from the end key of each initialized region to its id, next to the peers the
 router knows, each with its own copy of its region. A region is initialized once it has peers.
 */
module StoreIndex {
  import opened Bytes
  import opened MemStore
  import Rs = Regions
  import opened Regions

  type Index = map<Bytes, nat>

  ghost function Initialized(regions: World): World {
    map id | id in regions && regions[id].peers != [] :: regions[id]
  }

  /** The index maps exactly the end keys of the regions to their ids. */
  ghost predicate Indexes(ranges: Index, w: World) {
    && (forall id :: id in w ==> w[id].endKey in ranges && ranges[w[id].endKey] == id)
    && (forall e :: e in ranges ==> ranges[e] in w && w[ranges[e]].endKey == e)
  }

  /** `live` holds the region each registered peer works with. */
  datatype Meta = Meta(ranges: Index, regions: World, live: World)

  ghost predicate Consistent(m: Meta) {
    Rs.Inv(Initialized(m.regions)) && Indexes(m.ranges, Initialized(m.regions)) && m.live == m.regions
  }

  // Operations

  datatype Change =
    | Split(id: nat, reqs: seq<SplitRequest>, rightDerive: bool)
    | ConfChange(id: nat, ct: ChangeType, peer: Peer)
    | Destroy(id: nat)
    | InstallSnapshot(region: Region)
    | CreatePeer(id: nat)

  ghost function PutAll(ranges: Index, parts: seq<Region>): Index
    decreases |parts|
  {
    if parts == [] then ranges
    else
      var last := parts[|parts| - 1];
      PutAll(ranges, parts[..|parts| - 1])[last.endKey := last.id]
  }

  /** The index without the end key of the peer's region, if that is initialized. */
  function Forget(m: Meta, id: nat): Index {
    if id in m.live && m.live[id].peers != [] then m.ranges - {m.live[id].endKey} else m.ranges
  }

  /** What a change may be: the outcome of an applied command, or a snapshot that overlaps no other region. */
  ghost predicate Allowed(m: Meta, c: Change) {
    var w := Initialized(m.regions);
    match c
    case Split(id, reqs, rightDerive) =>
      id in w && SplitOk(w[id], reqs) && FreshIds(w, id, Parts(w[id], reqs, rightDerive))
    case ConfChange(id, ct, peer) =>
      id in w && ChangeFault(w[id].peers, ct, peer) == Fine
    case Destroy(id) => id in m.live
    case InstallSnapshot(region) =>
      && region.id in m.regions && region.peers != [] && WellFormed(region)
      && (forall x :: x in w && x != region.id ==> Apart(region, w[x]))
    case CreatePeer(id) => true
  }

  ghost function Next(m: Meta, c: Change): Meta
    requires Allowed(m, c)
  {
    match c
    case Split(id, reqs, rightDerive) =>
      var parts := Parts(m.regions[id], reqs, rightDerive);
      Meta(PutAll(Forget(m, id), parts), Install(m.regions, parts), Install(m.live, parts))
    case ConfChange(id, ct, peer) =>
      var region := Changed(m.regions[id], ct, peer);
      Meta(m.ranges, m.regions[id := region], m.live[id := region])
    case Destroy(id) => Meta(Forget(m, id), m.regions - {id}, m.live - {id})
    case InstallSnapshot(region) =>
      Meta(Forget(m, region.id)[region.endKey := region.id],
        m.regions[region.id := region], m.live[region.id := region])
    case CreatePeer(id) =>
      if id in m.regions then m
      else Meta(m.ranges, m.regions[id := NewRegion(id)], m.live[id := NewRegion(id)])
  }

  /** The region of a peer that only a message has told of. */
  function NewRegion(id: nat): Region {
    Region(id, [], [], Epoch(0, 0), [])
  }

  /** The one change the index does not survive is a conf change that removes a region's last peer. */
  ghost predicate KeepsAPeer(m: Meta, c: Change)
    requires Allowed(m, c)
  {
    c.ConfChange? ==> ChangedPeers(m.regions[c.id].peers, c.ct, c.peer) != []
  }

  ghost predicate AllowedRun(m: Meta, cs: seq<Change>)
    decreases |cs|
  {
    cs == [] || (Allowed(m, cs[0]) && AllowedRun(Next(m, cs[0]), cs[1..]))
  }

  ghost function After(m: Meta, cs: seq<Change>): Meta
    requires AllowedRun(m, cs)
    decreases |cs|
  {
    if cs == [] then m else After(Next(m, cs[0]), cs[1..])
  }

  // Why the index cannot clash

  /** Two regions that share no key end at different keys. */
  lemma EndKeysDiffer(a: Region, b: Region)
    requires WellFormed(a) && WellFormed(b) && Apart(a, b)
    ensures a.endKey != b.endKey
  {
    LessIrreflexive(a.startKey);
    LessIrreflexive(b.startKey);
    var key := if Less(a.startKey, b.startKey) then b.startKey else a.startKey;
    if Less(a.startKey, b.startKey) { LessAsymmetric(a.startKey, b.startKey); }
    assert !(Contains(a, key) && Contains(b, key));
  }

  lemma {:induction false} PutAllMeaning(ranges: Index, parts: seq<Region>)
    requires forall i, j :: 0 <= i < j < |parts| ==> parts[i].endKey != parts[j].endKey
    ensures forall i :: 0 <= i < |parts| ==>
      parts[i].endKey in PutAll(ranges, parts) && PutAll(ranges, parts)[parts[i].endKey] == parts[i].id
    ensures forall e :: e in PutAll(ranges, parts) ==>
      (exists i :: 0 <= i < |parts| && parts[i].endKey == e) || (e in ranges && PutAll(ranges, parts)[e] == ranges[e])
    ensures forall e :: e in ranges ==> e in PutAll(ranges, parts)
    decreases |parts|
  {
    if parts != [] {
      PutAllMeaning(ranges, parts[..|parts| - 1]);
    }
  }

  /** The end keys of the parts are new, once the old region's own end key is gone. */
  lemma PartsEndApart(w: World, id: nat, rs: seq<Region>, ranges: Index)
    requires Rs.Inv(w) && Replaces(w, id, rs) && Indexes(ranges, w)
    ensures forall i, j :: 0 <= i < j < |rs| ==> rs[i].endKey != rs[j].endKey
    ensures forall i :: 0 <= i < |rs| ==> rs[i].endKey !in ranges - {w[id].endKey}
  {
    forall i, j | 0 <= i < j < |rs| ensures rs[i].endKey != rs[j].endKey {
      PartsApart(w[id], rs, i, j);
      EndKeysDiffer(rs[i], rs[j]);
    }
    forall i | 0 <= i < |rs| ensures rs[i].endKey !in ranges - {w[id].endKey} {
      if rs[i].endKey in ranges - {w[id].endKey} {
        var x := ranges[rs[i].endKey];
        PartApart(w[id], rs, i, w[x]);
        EndKeysDiffer(rs[i], w[x]);
      }
    }
  }

  lemma ReplaceIndexes(w: World, id: nat, rs: seq<Region>, ranges: Index)
    requires Rs.Inv(w) && Replaces(w, id, rs) && Indexes(ranges, w)
    ensures Indexes(PutAll(ranges - {w[id].endKey}, rs), Install(w, rs))
  {
    var w', base := Install(w, rs), ranges - {w[id].endKey};
    var ranges' := PutAll(base, rs);
    InstallPlaces(w, id, rs, w');
    PartsEndApart(w, id, rs, ranges);
    PutAllMeaning(base, rs);
    forall x | x in w' ensures w'[x].endKey in ranges' && ranges'[w'[x].endKey] == x {
      if x == id || x !in w {
        var i: nat :| ComesFrom(rs, x, i);
      } else {
        assert w[x].endKey in base;
      }
    }
    forall e | e in ranges' ensures ranges'[e] in w' && w'[ranges'[e]].endKey == e {
      if i :| 0 <= i < |rs| && rs[i].endKey == e {
        assert ComesFrom(rs, rs[i].id, i);
      }
    }
  }

  lemma {:induction false} InstallInitialized(regions: World, rs: seq<Region>)
    requires forall i :: 0 <= i < |rs| ==> rs[i].peers != []
    ensures Initialized(Install(regions, rs)) == Install(Initialized(regions), rs)
    decreases |rs|
  {
    if rs != [] {
      InstallInitialized(regions[rs[0].id := rs[0]], rs[1..]);
      assert Initialized(regions[rs[0].id := rs[0]]) == Initialized(regions)[rs[0].id := rs[0]];
    }
  }

  // Every change keeps the index in agreement

  lemma SplitReplaces(w: World, id: nat, reqs: seq<SplitRequest>, rightDerive: bool)
    requires Rs.Inv(w) && id in w && SplitOk(w[id], reqs) && FreshIds(w, id, Parts(w[id], reqs, rightDerive))
    ensures Replaces(w, id, Parts(w[id], reqs, rightDerive))
  {
    var rs := Parts(w[id], reqs, rightDerive);
    SplitPartitions(w[id], reqs, rightDerive);
    forall i | 0 <= i < |rs| ensures WellFormed(rs[i]) {
      SplitCopies(w[id], reqs, rightDerive, i);
    }
    assert ComesFrom(rs, id, DerivedAt(|reqs|, rightDerive));
  }

  lemma ChangeReplaces(w: World, id: nat, ct: ChangeType, peer: Peer)
    requires Rs.Inv(w) && id in w && ChangeFault(w[id].peers, ct, peer) == Fine
    ensures Replaces(w, id, [Changed(w[id], ct, peer)])
  {
    var rs := [Changed(w[id], ct, peer)];
    ChangeMeaning(w[id].peers, ct, peer);
    assert rs[0].startKey == w[id].startKey && rs[0].endKey == w[id].endKey;
    assert ComesFrom(rs, id, 0);
  }

  lemma SplitConsistent(m: Meta, c: Change)
    requires Consistent(m) && Allowed(m, c) && c.Split?
    ensures Consistent(Next(m, c))
  {
    var w, rs := Initialized(m.regions), Parts(m.regions[c.id], c.reqs, c.rightDerive);
    SplitReplaces(w, c.id, c.reqs, c.rightDerive);
    InstallInv(w, c.id, rs);
    ReplaceIndexes(w, c.id, rs, m.ranges);
    forall i | 0 <= i < |rs| ensures rs[i].peers != [] {
      SplitCopies(w[c.id], c.reqs, c.rightDerive, i);
    }
    InstallInitialized(m.regions, rs);
  }

  lemma ConfChangeConsistent(m: Meta, c: Change)
    requires Consistent(m) && Allowed(m, c) && c.ConfChange? && KeepsAPeer(m, c)
    ensures Consistent(Next(m, c))
  {
    var w, r' := Initialized(m.regions), Changed(m.regions[c.id], c.ct, c.peer);
    ChangeReplaces(w, c.id, c.ct, c.peer);
    InstallInv(w, c.id, [r']);
    InstallInitialized(m.regions, [r']);
    assert Install(m.regions, [r']) == m.regions[c.id := r'];
    assert Install(w, [r']) == w[c.id := r'];
  }

  lemma RemoveKeeps(w: World, ranges: Index, id: nat)
    requires Rs.Inv(w) && Indexes(ranges, w) && id in w
    ensures Rs.Inv(w - {id}) && Indexes(ranges - {w[id].endKey}, w - {id})
  {
    forall x | x in w && x != id ensures w[x].endKey != w[id].endKey {
      EndKeysDiffer(w[x], w[id]);
    }
  }

  lemma AddKeeps(w: World, ranges: Index, r: Region)
    requires Rs.Inv(w) && Indexes(ranges, w) && r.id !in w && WellFormed(r)
    requires forall x :: x in w ==> Apart(r, w[x])
    ensures Rs.Inv(w[r.id := r]) && Indexes(ranges[r.endKey := r.id], w[r.id := r])
    ensures r.endKey !in ranges
  {
    forall x | x in w ensures w[x].endKey != r.endKey && Apart(w[x], r) {
      assert Apart(r, w[x]);
      EndKeysDiffer(r, w[x]);
    }
  }

  /** Taking a region out, initialized or not. */
  lemma ForgetConsistent(m: Meta, id: nat)
    requires Consistent(m)
    ensures Consistent(Meta(Forget(m, id), m.regions - {id}, m.live - {id}))
    ensures Initialized(m.regions - {id}) == Initialized(m.regions) - {id}
  {
    var w := Initialized(m.regions);
    assert Initialized(m.regions - {id}) == w - {id};
    if id in w {
      RemoveKeeps(w, m.ranges, id);
    } else {
      assert w - {id} == w;
    }
  }

  lemma SwapKeeps(w: World, base: Index, r: Region)
    requires Rs.Inv(w - {r.id}) && Indexes(base, w - {r.id}) && WellFormed(r)
    requires forall x :: x in w && x != r.id ==> Apart(r, w[x])
    ensures Rs.Inv(w[r.id := r]) && Indexes(base[r.endKey := r.id], w[r.id := r])
    ensures r.endKey !in base
  {
    var w1 := w - {r.id};
    forall x | x in w1 ensures Apart(r, w1[x]) {}
    AddKeeps(w1, base, r);
    assert w1[r.id := r] == w[r.id := r];
  }

  /** The end key of an incoming snapshot is free once the region's own old one is gone. */
  lemma SnapshotConsistent(m: Meta, c: Change)
    requires Consistent(m) && Allowed(m, c) && c.InstallSnapshot?
    ensures Consistent(Next(m, c))
    ensures c.region.endKey !in Forget(m, c.region.id)
  {
    var id, w := c.region.id, Initialized(m.regions);
    ForgetConsistent(m, id);
    SwapKeeps(w, Forget(m, id), c.region);
    assert Initialized(m.regions[id := c.region]) == w[id := c.region];
  }

  /** After a split every part is on record under its id and its end key, and every other region as before. */
  lemma SplitRecorded(m: Meta, c: Change, i: nat)
    requires Consistent(m) && Allowed(m, c) && c.Split? && i <= |c.reqs|
    ensures var m', part := Next(m, c), Parts(m.regions[c.id], c.reqs, c.rightDerive)[i];
      && part.id in m'.regions && m'.regions[part.id] == part && m'.live == m'.regions
      && part.endKey in m'.ranges && m'.ranges[part.endKey] == part.id
      && (forall x :: x in Initialized(m.regions) && x != c.id ==>
        x in m'.regions && m'.regions[x] == m.regions[x])
  {
    var w, rs := Initialized(m.regions), Parts(m.regions[c.id], c.reqs, c.rightDerive);
    SplitReplaces(w, c.id, c.reqs, c.rightDerive);
    InstallMeaning(m.regions, rs);
    PartsEndApart(w, c.id, rs, m.ranges);
    PutAllMeaning(Forget(m, c.id), rs);
  }

  /** A destroyed peer is off the record with its end key, and nothing else is; a new one starts out blank. */
  lemma PeerRecorded(m: Meta, id: nat)
    requires Consistent(m)
    ensures id in m.live ==>
      var m' := Next(m, Destroy(id));
      && id !in m'.regions && (forall e :: e in m'.ranges ==> m'.ranges[e] != id)
      && (forall x :: x in m.regions && x != id ==> x in m'.regions && m'.regions[x] == m.regions[x])
    ensures var m' := Next(m, CreatePeer(id));
      && id in m'.regions && m'.ranges == m.ranges
      && (id !in m.regions ==> m'.regions[id].peers == [] && m'.regions[id].epoch == Epoch(0, 0))
      && (forall x :: x in m.regions ==> m'.regions[x] == m.regions[x])
  {
  }

  /** What the store has on record after a snapshot is the region received, and every other region as before. */
  lemma SnapshotRecorded(m: Meta, region: Region)
    requires Consistent(m) && Allowed(m, InstallSnapshot(region))
    ensures var m' := Next(m, InstallSnapshot(region));
      && region.id in m'.regions && m'.regions[region.id] == region && m'.live == m'.regions
      && region.endKey in m'.ranges && m'.ranges[region.endKey] == region.id
      && (forall x :: x in m.regions && x != region.id ==> x in m'.regions && m'.regions[x] == m.regions[x])
      && (forall x :: x in m'.regions ==> x in m.regions)
  {
  }

  /** After a conf change: the same region with the conf version raised by one and the members changed. */
  lemma ConfChangeRecorded(m: Meta, id: nat, ct: ChangeType, peer: Peer)
    requires Consistent(m) && Allowed(m, ConfChange(id, ct, peer))
    ensures var m', r := Next(m, ConfChange(id, ct, peer)), m.regions[id];
      && id in m'.regions && m'.live == m'.regions && m'.ranges == m.ranges
      && m'.regions[id].id == id && m'.regions[id].startKey == r.startKey && m'.regions[id].endKey == r.endKey
      && m'.regions[id].epoch == Epoch(r.epoch.confVer + 1, r.epoch.version)
      && Members(m'.regions[id].peers) == MembersAfter(r.peers, ct, peer)
      && (forall x :: x in m.regions && x != id ==> x in m'.regions && m'.regions[x] == m.regions[x])
  {
    var r := m.regions[id];
    assert id in Initialized(m.regions);
    ChangeFaultMeaning(r.peers, ct, peer);
    ChangeMeaning(r.peers, ct, peer);
  }

  /** A conf change that leaves no peers takes the region out of the initialized ones and leaves its end key. */
  lemma LastPeerBreaks(m: Meta, c: Change)
    requires Consistent(m) && Allowed(m, c) && !KeepsAPeer(m, c)
    ensures !Consistent(Next(m, c))
  {
    var m', e := Next(m, c), m.regions[c.id].endKey;
    assert c.id in Initialized(m.regions) && e in m'.ranges && m'.ranges[e] == c.id;
    assert c.id !in Initialized(m'.regions);
  }

  /** Destroying that peer then leaves the end key in the index, naming a region that is gone. */
  lemma LastPeerLeavesEndKey(m: Meta, c: Change)
    requires Consistent(m) && Allowed(m, c) && !KeepsAPeer(m, c)
    ensures Allowed(Next(m, c), Destroy(c.id))
    ensures var e, m' := m.regions[c.id].endKey, Next(Next(m, c), Destroy(c.id));
      e in m'.ranges && m'.ranges[e] == c.id && c.id !in m'.regions
  {
    assert c.id in Initialized(m.regions);
  }

  /** Such a change exists: the only peer of the only region is removed. */
  lemma LastPeerWitness()
    ensures var peer := Peer(1, 1, Voter);
      var r := Region(7, [], [], Epoch(1, 1), [peer]);
      var m, c := Meta(map[[] := 7], map[7 := r], map[7 := r]), ConfChange(7, RemoveNode, peer);
      Consistent(m) && Allowed(m, c) && !KeepsAPeer(m, c)
  {
    var peer := Peer(1, 1, Voter);
    var r := Region(7, [], [], Epoch(1, 1), [peer]);
    var w := map[7 := r];
    assert Initialized(w) == w;
    ChangeFaultMeaning(r.peers, RemoveNode, peer);
  }

  /** A change keeps the index in agreement exactly when it leaves a peer. */
  lemma StepConsistent(m: Meta, c: Change)
    requires Consistent(m) && Allowed(m, c)
    ensures Consistent(Next(m, c)) <==> KeepsAPeer(m, c)
  {
    match c
    case Split(_, _, _) => SplitConsistent(m, c);
    case ConfChange(_, _, _) =>
      if KeepsAPeer(m, c) { ConfChangeConsistent(m, c); } else { LastPeerBreaks(m, c); }
    case Destroy(id) => ForgetConsistent(m, id);
    case InstallSnapshot(_) => SnapshotConsistent(m, c);
    case CreatePeer(_) => assert Initialized(Next(m, c).regions) == Initialized(m.regions);
  }

  ghost predicate AlwaysConsistent(m: Meta, cs: seq<Change>)
    requires AllowedRun(m, cs)
    decreases |cs|
  {
    Consistent(m) && (cs == [] || AlwaysConsistent(Next(m, cs[0]), cs[1..]))
  }

  ghost predicate AlwaysKeepsAPeer(m: Meta, cs: seq<Change>)
    requires AllowedRun(m, cs)
    decreases |cs|
  {
    cs == [] || (KeepsAPeer(m, cs[0]) && AlwaysKeepsAPeer(Next(m, cs[0]), cs[1..]))
  }

  /**
   In every state of a run the index holds exactly the end keys of initialized regions, and these share no
   key: exactly for the runs in which no conf change removes the last peer of a region.
   */
  lemma {:induction false} RunConsistent(m: Meta, cs: seq<Change>)
    requires Consistent(m) && AllowedRun(m, cs)
    ensures AlwaysConsistent(m, cs) <==> AlwaysKeepsAPeer(m, cs)
    ensures AlwaysConsistent(m, cs) ==> Consistent(After(m, cs))
    decreases |cs|
  {
    if cs != [] {
      StepConsistent(m, cs[0]);
      if KeepsAPeer(m, cs[0]) { RunConsistent(Next(m, cs[0]), cs[1..]); }
    }
  }

  // Coverage of a range

  ghost predicate RangeCovered(w: World, start: Bytes, end: Bytes) {
    forall key :: InRange(start, end, key) ==> Covered(w, key)
  }

  /** The first `p` end keys are at most `s`, the others beyond it, and all keys in [start, s) are covered. */
  ghost predicate Reached(m: Meta, keys: seq<Bytes>, start: Bytes, s: Bytes, p: nat) {
    && p <= |keys| && AtMost(start, s)
    && (forall i :: 0 <= i < p ==> AtMost(keys[i], s))
    && (forall i :: p <= i < |keys| ==> Less(s, keys[i]))
    && (forall key :: AtMost(start, key) && Less(key, s) ==> Covered(Initialized(m.regions), key))
  }

  /** A region that holds `s` and does not end before `key` holds everything in between. */
  lemma HoldsBetween(x: Region, s: Bytes, k: Bytes, key: Bytes)
    requires Contains(x, s) && Less(s, k) && Less(k, key) && (x.endKey == [] || AtMost(key, x.endKey))
    ensures Contains(x, k)
  {
    BelowTransitive(x.startKey, s, k);
    if x.endKey != [] { ThenBelow(k, key, x.endKey); }
  }

  /** If the region with the next end key starts after `s`, no region holds `s`. */
  lemma Gap(m: Meta, r: MemStore<nat>, start: Bytes, s: Bytes, p: nat)
    requires Consistent(m) && Valid(r) && m.ranges == r.vals && Reached(m, r.keys, start, s, p) && p < |r.keys|
    requires Less(s, m.regions[r.vals[r.keys[p]]].startKey)
    ensures !Covered(Initialized(m.regions), s)
  {
    var w := Initialized(m.regions);
    var id := r.vals[r.keys[p]];
    forall x | x in w ensures !Contains(w[x], s) {
      if Contains(w[x], s) {
        if x != id {
          NextEnd(m, r, start, s, p, x);
          HoldsBetween(w[x], s, w[id].startKey, r.keys[p]);
          LessIrreflexive(w[id].startKey);
          assert Contains(w[id], w[id].startKey);
        }
      }
    }
  }

  /** A region that holds `s` ends at the next end key or later. */
  lemma NextEnd(m: Meta, r: MemStore<nat>, start: Bytes, s: Bytes, p: nat, x: nat)
    requires Consistent(m) && Valid(r) && m.ranges == r.vals && Reached(m, r.keys, start, s, p) && p < |r.keys|
    requires x in Initialized(m.regions) && Contains(m.regions[x], s)
    ensures m.regions[x].endKey == [] || AtMost(r.keys[p], m.regions[x].endKey)
  {
    var e := m.regions[x].endKey;
    if e != [] {
      var i :| 0 <= i < |r.keys| && r.keys[i] == e;
      LessIrreflexive(e);
      if p < i { LessAsymmetric(r.keys[p], r.keys[i]); }
    }
  }

  /** Otherwise that region covers everything up to its end key. */
  lemma Extends(m: Meta, r: MemStore<nat>, start: Bytes, s: Bytes, p: nat)
    requires Consistent(m) && Valid(r) && m.ranges == r.vals && Reached(m, r.keys, start, s, p) && p < |r.keys|
    requires !Less(s, m.regions[r.vals[r.keys[p]]].startKey)
    ensures Reached(m, r.keys, start, r.keys[p], p + 1)
  {
    var w, key0 := Initialized(m.regions), r.keys[p];
    var x := w[r.vals[key0]];
    BelowTransitive(start, s, key0);
    LessIrreflexive(key0);
    forall i | 0 <= i < p ensures AtMost(r.keys[i], key0) { LessAsymmetric(r.keys[i], key0); }
    forall key | AtMost(start, key) && Less(key, key0) ensures Covered(w, key) {
      if !Less(key, s) {
        if Less(key, x.startKey) { BelowThen(s, key, x.startKey); }
        assert Contains(x, key);
      }
    }
  }

  /** With no end key left up to `end`, none equals it. */
  lemma NoEnd(m: Meta, r: MemStore<nat>, start: Bytes, s: Bytes, p: nat, end: Bytes)
    requires Valid(r) && Reached(m, r.keys, start, s, p) && Less(s, end)
    requires p < |r.keys| ==> Less(end, r.keys[p])
    ensures end !in r.vals
  {
    forall i | 0 <= i < |r.keys| ensures r.keys[i] != end {
      if p < i { LessTransitive(end, r.keys[p], r.keys[i]); }
      LessIrreflexive(end);
    }
  }

  lemma SeekReached(m: Meta, r: MemStore<nat>, start: Bytes)
    requires Valid(r)
    ensures var p := SeekPos(r.keys, start);
      Reached(m, r.keys, start, start, if p < |r.keys| && r.keys[p] == start then p + 1 else p)
  {
    SeekSplits(r, start);
    var p := SeekPos(r.keys, start);
    LessIrreflexive(start);
    forall i | 0 <= i < p ensures AtMost(r.keys[i], start) { LessAsymmetric(r.keys[i], start); }
    forall i | p <= i < |r.keys| && r.keys[i] != start ensures Less(start, r.keys[i]) { LessTotal(start, r.keys[i]); }
  }

  // Overlap with a snapshot

  /** What the search for overlaps looks for: another region that ends after the snapshot starts and starts before
      it ends. An empty end key, which stands for no bound, is compared like any other and so never found. */
  predicate Meets(snap: Region, r: Region) {
    && r.id != snap.id && r.endKey != [] && snap.endKey != []
    && Less(snap.startKey, r.endKey) && Less(r.startKey, snap.endKey)
  }

  /** Between bounded regions that is overlap. */
  lemma MeetsIsOverlap(snap: Region, r: Region)
    requires WellFormed(snap) && WellFormed(r) && snap.endKey != [] && r.endKey != [] && snap.id != r.id
    ensures Meets(snap, r) <==> !Apart(snap, r)
  {
    LessIrreflexive(snap.startKey);
    LessIrreflexive(r.startKey);
    if Meets(snap, r) {
      var key := if Less(snap.startKey, r.startKey) then r.startKey else snap.startKey;
      if Less(snap.startKey, r.startKey) { LessAsymmetric(snap.startKey, r.startKey); }
      assert Contains(snap, key) && Contains(r, key);
    } else if !Apart(snap, r) {
      var key :| Contains(snap, key) && Contains(r, key);
      BelowThen(snap.startKey, key, r.endKey);
      BelowThen(r.startKey, key, snap.endKey);
    }
  }

  /** Of two bounded regions apart, the one that ends later starts no earlier than the other ends. */
  lemma LaterStarts(a: Region, b: Region)
    requires WellFormed(a) && WellFormed(b) && Apart(a, b)
    requires a.endKey != [] && b.endKey != [] && Less(a.endKey, b.endKey)
    ensures AtMost(a.endKey, b.startKey)
  {
    if Less(b.startKey, a.endKey) {
      var key := if Less(b.startKey, a.startKey) then a.startKey else b.startKey;
      LessIrreflexive(key);
      if Less(b.startKey, a.startKey) { LessAsymmetric(b.startKey, a.startKey); }
      LessTransitive(a.startKey, a.endKey, b.endKey);
      assert Contains(a, key) && Contains(b, key);
    }
  }

  /** No region with one of the first `p` end keys meets the snapshot. */
  ghost predicate NoneMet(m: Meta, keys: seq<Bytes>, snap: Region, p: nat)
  {
    forall i :: 0 <= i < p && i < |keys| && keys[i] in m.ranges && m.ranges[keys[i]] in m.regions ==>
      !Meets(snap, m.regions[m.ranges[keys[i]]])
  }

  /** A region that ends where the snapshot starts, or the region itself, does not count. */
  lemma Skipped(m: Meta, r: MemStore<nat>, snap: Region, p: nat)
    requires Consistent(m) && Valid(r) && m.ranges == r.vals && p < |r.keys| && NoneMet(m, r.keys, snap, p)
    requires r.keys[p] == snap.startKey || r.vals[r.keys[p]] == snap.id
    ensures NoneMet(m, r.keys, snap, p + 1)
  {
    LessIrreflexive(snap.startKey);
  }

  lemma NoneBefore(m: Meta, r: MemStore<nat>, snap: Region)
    requires Consistent(m) && Valid(r) && m.ranges == r.vals
    ensures NoneMet(m, r.keys, snap, SeekPos(r.keys, snap.startKey))
  {
    var p := SeekPos(r.keys, snap.startKey);
    forall i | 0 <= i < p ensures !Meets(snap, m.regions[m.ranges[r.keys[i]]]) {
      LessAsymmetric(r.keys[i], snap.startKey);
    }
  }

  ghost predicate SomeMet(m: Meta, snap: Region) {
    exists id :: id in Initialized(m.regions) && Meets(snap, m.regions[id])
  }

  lemma NoneAtAll(m: Meta, r: MemStore<nat>, snap: Region)
    requires Consistent(m) && Valid(r) && m.ranges == r.vals && NoneMet(m, r.keys, snap, |r.keys|)
    ensures !SomeMet(m, snap)
  {
    forall id | id in Initialized(m.regions) ensures !Meets(snap, m.regions[id]) {
      var i :| 0 <= i < |r.keys| && r.keys[i] == m.regions[id].endKey;
    }
  }

  lemma FirstMet(m: Meta, r: MemStore<nat>, snap: Region, p: nat)
    requires Consistent(m) && Valid(r) && m.ranges == r.vals && p < |r.keys|
    requires !Less(r.keys[p], snap.startKey) && r.keys[p] != snap.startKey && r.vals[r.keys[p]] != snap.id
    requires Less(m.regions[r.vals[r.keys[p]]].startKey, snap.endKey)
    ensures SomeMet(m, snap)
  {
    LessTotal(r.keys[p], snap.startKey);
    var id := r.vals[r.keys[p]];
    assert id in Initialized(m.regions) && Meets(snap, m.regions[id]);
  }

  /** If the region with the next end key starts at or after the snapshot's end, none behind it meets it. */
  lemma NoneBehind(m: Meta, r: MemStore<nat>, snap: Region, p: nat)
    requires Consistent(m) && Valid(r) && m.ranges == r.vals && p < |r.keys| && NoneMet(m, r.keys, snap, p)
    requires var x := m.regions[m.ranges[r.keys[p]]];
      r.keys[p] != snap.startKey && x.id != snap.id && !Less(x.startKey, snap.endKey)
    requires !Less(r.keys[p], snap.startKey)
    ensures NoneMet(m, r.keys, snap, |r.keys|)
  {
    var w := Initialized(m.regions);
    var x := w[m.ranges[r.keys[p]]];
    forall i | p < i < |r.keys| ensures !Meets(snap, w[m.ranges[r.keys[i]]]) {
      var y := w[m.ranges[r.keys[i]]];
      if Meets(snap, y) {
        if x.endKey == [] {
          LessTotal(r.keys[p], snap.startKey);
        } else {
          LaterStarts(x, y);
          BelowThen(x.endKey, y.startKey, snap.endKey);
          LessTransitive(x.startKey, x.endKey, snap.endKey);
        }
      }
    }
  }

  /** A snapshot the search lets through overlaps no other region exactly when it shares no key with those
      it cannot see: the unbounded ones, or all others if it is unbounded itself. */
  lemma SearchedSnapshotAllowed(m: Meta, snap: Region)
    requires Consistent(m) && snap.id in m.regions && snap.peers != [] && WellFormed(snap) && !SomeMet(m, snap)
    ensures var w := Initialized(m.regions);
      Allowed(m, InstallSnapshot(snap)) <==>
      (forall x :: x in w && x != snap.id && (snap.endKey == [] || w[x].endKey == []) ==> Apart(snap, w[x]))
  {
    var w := Initialized(m.regions);
    forall x | x in w && x != snap.id && snap.endKey != [] && w[x].endKey != [] ensures Apart(snap, w[x]) {
      MeetsIsOverlap(snap, w[x]);
      assert !Meets(snap, m.regions[x]);
    }
  }

  // The store's metadata, changed in place

  lemma {:induction false} InstallSnoc(w: World, rs: seq<Region>, i: nat)
    requires i < |rs|
    ensures Install(w, rs[..i + 1]) == Install(w, rs[..i])[rs[i].id := rs[i]]
    decreases i
  {
    if i > 0 {
      InstallSnoc(w[rs[0].id := rs[0]], rs[1..], i - 1);
      assert rs[..i + 1][1..] == rs[1..][..i] && rs[..i][1..] == rs[1..][..i - 1];
    } else {
      assert rs[..1] == [rs[0]];
    }
  }

  /** Putting the derived region in place first makes no difference. */
  lemma DerivedFirst(w: World, rs: seq<Region>, d: nat)
    requires d < |rs| && forall i, j :: 0 <= i < j < |rs| ==> rs[i].id != rs[j].id
    ensures Install(w[rs[d].id := rs[d]], rs) == Install(w, rs)
  {
    InstallMeaning(w, rs);
    InstallMeaning(w[rs[d].id := rs[d]], rs);
  }

  /** The metadata once the derived region and the first `i` parts are in. */
  ghost function SplitView(m: Meta, rs: seq<Region>, d: nat, i: nat): Meta
    requires i <= |rs| && d < |rs|
  {
    Meta(PutAll(Forget(m, rs[d].id), rs[..i]),
      Install(m.regions[rs[d].id := rs[d]], rs[..i]), Install(m.live[rs[d].id := rs[d]], rs[..i]))
  }

  lemma SplitViewDone(m: Meta, rs: seq<Region>, d: nat)
    requires d < |rs| && forall i, j :: 0 <= i < j < |rs| ==> rs[i].id != rs[j].id
    ensures SplitView(m, rs, d, |rs|) ==
      Meta(PutAll(Forget(m, rs[d].id), rs), Install(m.regions, rs), Install(m.live, rs))
  {
    assert rs[..|rs|] == rs;
    DerivedFirst(m.regions, rs, d);
    DerivedFirst(m.live, rs, d);
  }

  /** The next part's end key is free. */
  lemma EndKeyFree(m: Meta, id: nat, rs: seq<Region>, d: nat, i: nat)
    requires Consistent(m) && Replaces(Initialized(m.regions), id, rs)
    requires i < |rs| && d < |rs| && rs[d].id == id
    ensures rs[i].endKey !in PutAll(Forget(m, id), rs[..i])
  {
    PartsEndApart(Initialized(m.regions), id, rs, m.ranges);
    PutAllMeaning(Forget(m, id), rs[..i]);
  }

  /** The next part meets neither its end key nor an initialized region of its id. */
  lemma NoClash(m: Meta, id: nat, rs: seq<Region>, d: nat, i: nat)
    requires Consistent(m) && Replaces(Initialized(m.regions), id, rs)
    requires i < |rs| && d < |rs| && rs[d].id == id
    ensures !Clashes(SplitView(m, rs, d, i), id, rs[i])
  {
    EndKeyFree(m, id, rs, d, i);
    InstallMeaning(m.regions[id := rs[d]], rs[..i]);
    assert forall j :: 0 <= j < i ==> rs[..i][j].id != rs[i].id;
  }

  /** One more part in place; the derived one is there already. */
  lemma OnePartMore(w: World, rs: seq<Region>, d: nat, i: nat)
    requires i < |rs| && d < |rs| && forall i, j :: 0 <= i < j < |rs| ==> rs[i].id != rs[j].id
    ensures var now := Install(w[rs[d].id := rs[d]], rs[..i]);
      Install(w[rs[d].id := rs[d]], rs[..i + 1]) ==
      if rs[i].id == rs[d].id then now else now[rs[i].id := rs[i]]
  {
    var w' := w[rs[d].id := rs[d]];
    var now := Install(w', rs[..i]);
    InstallMeaning(w', rs[..i]);
    InstallSnoc(w', rs, i);
    if rs[i].id == rs[d].id {
      assert now[rs[i].id := rs[i]] == now;
    }
  }

  lemma SplitRound(m: Meta, rs: seq<Region>, d: nat, i: nat)
    requires i < |rs| && d < |rs| && forall i, j :: 0 <= i < j < |rs| ==> rs[i].id != rs[j].id
    ensures var now := SplitView(m, rs, d, i);
      SplitView(m, rs, d, i + 1) == Meta(now.ranges[rs[i].endKey := rs[i].id],
        if rs[i].id == rs[d].id then now.regions else now.regions[rs[i].id := rs[i]],
        if rs[i].id == rs[d].id then now.live else now.live[rs[i].id := rs[i]])
  {
    OnePartMore(m.regions, rs, d, i);
    OnePartMore(m.live, rs, d, i);
    assert rs[..i + 1][..i] == rs[..i];
  }

  /** The end key is taken, or the id belongs to an initialized region. */
  predicate Clashes(m: Meta, derivedId: nat, part: Region) {
    part.endKey in m.ranges || (part.id != derivedId && part.id in m.regions && m.regions[part.id].peers != [])
  }

  class StoreMeta {
    var ranges: MemStore<nat>
    var regions: World
    /** The router's peers, each with its own region. */
    var peers: World

    constructor ()
      ensures Valid(ranges) && View() == Meta(map[], map[], map[]) && Consistent(View())
    {
      ranges, regions, peers := Empty(), map[], map[];
    }

    ghost function View(): Meta
      reads this
    {
      Meta(ranges.vals, regions, peers)
    }

    /** `Put`, which tells whether the key was new. */
    method PutRange(endKey: Bytes, id: nat) returns (notExist: bool)
      requires Valid(ranges)
      modifies `ranges
      ensures Valid(ranges) && ranges.vals == old(ranges.vals)[endKey := id]
      ensures notExist <==> endKey !in old(ranges.vals)
    {
      notExist := endKey !in ranges.vals;
      PutValid(ranges, endKey, id);
      ranges := Put(ranges, endKey, id);
    }

    /** `Delete`, which tells whether the key was there. */
    method DeleteRange(endKey: Bytes) returns (existed: bool)
      requires Valid(ranges)
      modifies `ranges
      ensures Valid(ranges) && ranges.vals == old(ranges.vals) - {endKey}
      ensures existed <==> endKey in old(ranges.vals)
    {
      existed := endKey in ranges.vals;
      DeleteValid(ranges, endKey);
      ranges := Delete(ranges, endKey);
    }

    /** One part of a split; `panicked` stands for the source's assertion and its duplicated-region panic. */
    method AddPart(derivedId: nat, part: Region) returns (panicked: bool)
      requires Valid(ranges)
      modifies this
      ensures Valid(ranges) && ranges.vals == old(ranges.vals)[part.endKey := part.id]
      ensures panicked <==> Clashes(old(View()), derivedId, part)
      ensures !panicked ==> regions == if part.id == derivedId then old(regions) else old(regions)[part.id := part]
      ensures !panicked ==> peers == if part.id == derivedId then old(peers) else old(peers)[part.id := part]
    {
      var notExist := PutRange(part.endKey, part.id);
      if !notExist {
        return true;
      }
      panicked := false;
      if part.id == derivedId {
        return;
      }
      if part.id in regions {
        if |regions[part.id].peers| > 0 {
          return true;
        }
        peers := peers - {part.id};
      }
      regions := regions[part.id := part];
      peers := peers[part.id := part];
    }

    method AddParts(derivedId: nat, parts: seq<Region>, ghost m: Meta, ghost d: nat) returns (panicked: bool)
      requires Valid(ranges) && Consistent(m) && Replaces(Initialized(m.regions), derivedId, parts)
      requires d < |parts| && parts[d].id == derivedId && View() == SplitView(m, parts, d, 0)
      modifies this
      ensures !panicked && Valid(ranges) && View() == SplitView(m, parts, d, |parts|)
    {
      var i := 0;
      panicked := false;
      while i < |parts|
        invariant 0 <= i <= |parts| && Valid(ranges) && !panicked
        invariant View() == SplitView(m, parts, d, i)
      {
        NoClash(m, derivedId, parts, d, i);
        SplitRound(m, parts, d, i);
        panicked := AddPart(derivedId, parts[i]);
        if panicked {
          return;
        }
        i := i + 1;
      }
    }

    /** Gives the store and the peer the same region. */
    method SetRegion(region: Region)
      modifies `regions, `peers
      ensures regions == old(regions)[region.id := region] && peers == old(peers)[region.id := region]
    {
      regions, peers := regions[region.id := region], peers[region.id := region];
    }

    /** Puts the parts of an applied split in place of the old region; no panic can fire. */
    method OnReadySplitRegion(derived: Region, parts: seq<Region>, ghost c: Change) returns (panicked: bool)
      requires Valid(ranges) && Consistent(View()) && Allowed(View(), c) && c.Split?
      requires parts == Parts(regions[c.id], c.reqs, c.rightDerive)
      requires derived == parts[DerivedAt(|c.reqs|, c.rightDerive)]
      modifies this
      ensures !panicked && Valid(ranges) && View() == Next(old(View()), c)
    {
      ghost var m, d := View(), DerivedAt(|c.reqs|, c.rightDerive);
      SplitReplaces(Initialized(m.regions), c.id, c.reqs, c.rightDerive);
      SetRegion(derived);
      var last := parts[|parts| - 1];
      var existed := DeleteRange(last.endKey);
      if !existed {
        return true;
      }
      panicked := AddParts(derived.id, parts, m, d);
      SplitViewDone(m, parts, d);
    }

    method OnReadyChangePeer(region: Region, ghost c: Change)
      requires Consistent(View()) && Allowed(View(), c) && c.ConfChange?
      requires region == Changed(regions[c.id], c.ct, c.peer)
      modifies `regions, `peers
      ensures View() == Next(old(View()), c)
    {
      SetRegion(region);
    }

    /**
     The metadata part of destroying a peer, with both corruption panics. The peer decides by its own region;
     as long as the metadata is consistent neither can fire.
     */
    method DestroyPeer(id: nat) returns (panicked: bool)
      requires Valid(ranges) && Allowed(View(), Destroy(id))
      modifies this
      ensures Valid(ranges)
      ensures panicked <==> old((|peers[id].peers| > 0 && peers[id].endKey !in ranges.vals) || id !in regions)
      ensures Consistent(old(View())) ==> !panicked
      ensures !panicked ==> View() == Next(old(View()), Destroy(id))
    {
      assert Consistent(View()) && |peers[id].peers| > 0 ==> id in Initialized(regions);
      var region := peers[id];
      peers := peers - {id};
      if |region.peers| > 0 {
        var existed := DeleteRange(region.endKey);
        if !existed {
          return true;
        }
      }
      if id !in regions {
        return true;
      }
      regions := regions - {id};
      panicked := false;
    }

    /** A region as of an applied snapshot takes the place of the old one; the end key is always free. */
    method OnReadyApplySnapshot(region: Region) returns (panicked: bool)
      requires Valid(ranges) && Consistent(View()) && Allowed(View(), InstallSnapshot(region))
      modifies this
      ensures !panicked && Valid(ranges) && View() == Next(old(View()), InstallSnapshot(region))
    {
      SnapshotConsistent(View(), InstallSnapshot(region));
      var prev := peers[region.id];
      if |prev.peers| > 0 {
        var _ := DeleteRange(prev.endKey);
      }
      var notExist := PutRange(region.endKey, region.id);
      if !notExist {
        return true;
      }
      SetRegion(region);
      panicked := false;
    }

    /** A peer created by a first message has no range yet and stays out of the index. */
    method CreatePeer(id: nat)
      modifies `regions, `peers
      ensures View() == Next(old(View()), Change.CreatePeer(id))
    {
      if id in regions {
        return;
      }
      SetRegion(NewRegion(id));
    }

    /**
     `findOverlapRegions` for an incoming snapshot. It moves on only past regions it skips, so it returns, with
     nothing found, exactly when no region meets the snapshot; `stuck` is a loop that never ends.
     */
    method FindOverlapRegions(snap: Region) returns (stuck: bool)
      requires Valid(ranges) && Consistent(View())
      ensures stuck <==> SomeMet(View(), snap)
    {
      ghost var m := View();
      SeekSplits(ranges, snap.startKey);
      NoneBefore(m, ranges, snap);
      var it: nat := SeekPos(ranges.keys, snap.startKey);
      stuck := false;
      while it < |ranges.keys|
        invariant SeekPos(ranges.keys, snap.startKey) <= it <= |ranges.keys| && NoneMet(m, ranges.keys, snap, it)
        decreases |ranges.keys| - it
      {
        var id := ranges.vals[ranges.keys[it]];
        if ranges.keys[it] == snap.startKey || id == snap.id {
          Skipped(m, ranges, snap, it);
          it := it + 1;
          continue;
        }
        if Less(regions[id].startKey, snap.endKey) {
          FirstMet(m, ranges, snap, it);
          return true;
        }
        NoneBehind(m, ranges, snap, it);
        break;
      }
      NoneAtAll(m, ranges, snap);
    }

    /** True exactly when [start, end) is non-empty, has no hole, and ends where some region ends. */
    method IsRangeCovered(start: Bytes, end: Bytes) returns (covered: bool)
      requires Valid(ranges) && Consistent(View())
      ensures covered <==>
        Less(start, end) && end in ranges.vals && RangeCovered(Initialized(regions), start, end)
    {
      ghost var m := View();
      SeekReached(m, ranges, start);
      var s := start;
      var it: nat := SeekPos(ranges.keys, start);
      if it < |ranges.keys| && ranges.keys[it] == start {
        it := it + 1;
      }
      while it < |ranges.keys| && !Less(end, ranges.keys[it])
        invariant it <= |ranges.keys| && Reached(m, ranges.keys, start, s, it)
        invariant if Less(start, end) then Less(s, end) else s == start
      {
        var region := regions[ranges.vals[ranges.keys[it]]];
        ThenBelow(s, ranges.keys[it], end);
        if Less(s, region.startKey) {
          Gap(m, ranges, start, s, it);
          assert InRange(start, end, s);
          return false;
        }
        Extends(m, ranges, start, s, it);
        if !Less(region.endKey, end) {
          LessTotal(region.endKey, end);
          return true;
        }
        s := region.endKey;
        it := it + 1;
      }
      if Less(start, end) { NoEnd(m, ranges, start, s, it, end); }
      return false;
    }
  }
}
