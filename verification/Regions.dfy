/**
 Regions as values: batch splits, membership changes and epoch checks
 (raftstore/applier.go and raftstore/util.go).
 */
module Regions {
  import opened Bytes

  datatype Role = Voter | Learner

  datatype Peer = Peer(id: nat, storeId: nat, role: Role)

  datatype Epoch = Epoch(confVer: nat, version: nat)

  /** An empty end key stands for plus infinity. */
  datatype Region = Region(id: nat, startKey: Bytes, endKey: Bytes, epoch: Epoch, peers: seq<Peer>)

  predicate InRange(start: Bytes, end: Bytes, key: Bytes) {
    AtMost(start, key) && (end == [] || Less(key, end))
  }

  /** `CheckKeyInRegion`. */
  predicate Contains(r: Region, key: Bytes) {
    InRange(r.startKey, r.endKey, key)
  }

  ghost predicate OnePerStore(peers: seq<Peer>) {
    forall i, j :: 0 <= i < j < |peers| ==> peers[i].storeId != peers[j].storeId
  }

  // Splits

  datatype SplitRequest = SplitRequest(splitKey: Bytes, newRegionId: nat, newPeerIds: seq<nat>)

  datatype Fault =
    | Fine
    | MissingSplitKey
    | InvalidSplit
    | PeerCount
    | KeyNotInRegion
    | EpochNotMatch
    | DuplicatedPeer
    | UnmatchedPeer
    | MissingPeer
    | Unsupported

  /** The bounds of the parts: the start key, the split keys, the end key. */
  function Bounds(r: Region, reqs: seq<SplitRequest>): (keys: seq<Bytes>)
    ensures |keys| == |reqs| + 2
    ensures keys[0] == r.startKey && keys[|reqs| + 1] == r.endKey
    ensures forall i :: 0 <= i < |reqs| ==> keys[i + 1] == reqs[i].splitKey
  {
    [r.startKey] + seq(|reqs|, i requires 0 <= i < |reqs| => reqs[i].splitKey) + [r.endKey]
  }

  /** Bounds that climb, except that the last may be plus infinity. */
  ghost predicate Ladder(keys: seq<Bytes>) {
    && |keys| >= 2
    && (forall i :: 0 <= i < |keys| - 1 ==> Climbing(keys, i))
  }

  predicate Climbing(keys: seq<Bytes>, i: nat)
    requires i + 1 < |keys|
  {
    Less(keys[i], keys[i + 1]) || (i + 2 == |keys| && keys[i + 1] == [])
  }

  /** What is wrong with the `i`-th request, given the bound before it. */
  function RequestFault(r: Region, req: SplitRequest, before: Bytes): Fault {
    if req.splitKey == [] then MissingSplitKey
    else if !Less(before, req.splitKey) then InvalidSplit
    else if |req.newPeerIds| != |r.peers| then PeerCount
    else Fine
  }

  function FaultFrom(r: Region, reqs: seq<SplitRequest>, keys: seq<Bytes>, i: nat): Fault
    requires i <= |reqs| < |keys|
    decreases |reqs| - i
  {
    if i == |reqs| then (if Contains(r, keys[i]) then Fine else KeyNotInRegion)
    else
      var f := RequestFault(r, reqs[i], keys[i]);
      if f != Fine then f else FaultFrom(r, reqs, keys, i + 1)
  }

  /** The first fault of a batch split, in the order the source looks for them. */
  function SplitFault(r: Region, reqs: seq<SplitRequest>): Fault {
    if |reqs| == 0 then MissingSplitKey else FaultFrom(r, reqs, Bounds(r, reqs), 0)
  }

  /** The split keys climb strictly inside the region and every request names one new id per peer. */
  ghost predicate SplitOk(r: Region, reqs: seq<SplitRequest>) {
    && |reqs| > 0
    && Ladder(Bounds(r, reqs))
    && (forall i :: 0 <= i < |reqs| ==> |reqs[i].newPeerIds| == |r.peers|)
  }

  lemma {:induction false} FaultFromMeaning(r: Region, reqs: seq<SplitRequest>, keys: seq<Bytes>, i: nat)
    requires i <= |reqs| < |keys|
    ensures FaultFrom(r, reqs, keys, i) == Fine <==>
      && (forall j :: i <= j < |reqs| ==> RequestFault(r, reqs[j], keys[j]) == Fine)
      && Contains(r, keys[|reqs|])
    decreases |reqs| - i
  {
    if i < |reqs| { FaultFromMeaning(r, reqs, keys, i + 1); }
  }

  lemma {:induction false} Climbs(keys: seq<Bytes>, i: nat, j: nat)
    requires Ladder(keys) && i < j < |keys| && (j + 1 == |keys| ==> keys[j] != [])
    ensures Less(keys[i], keys[j])
  {
    assert Climbing(keys, j - 1);
    if i + 1 < j {
      assert Climbing(keys, j - 2);
      Climbs(keys, i, j - 1);
      LessTransitive(keys[i], keys[j - 1], keys[j]);
    }
  }

  /** A batch split is carried out exactly when its keys climb inside the region. */
  lemma SplitFaultMeaning(r: Region, reqs: seq<SplitRequest>)
    ensures SplitFault(r, reqs) == Fine <==> SplitOk(r, reqs)
  {
    if SplitFault(r, reqs) == Fine { FineSplits(r, reqs); }
    if SplitOk(r, reqs) { SplitsFine(r, reqs); }
  }

  lemma FineSplits(r: Region, reqs: seq<SplitRequest>)
    requires SplitFault(r, reqs) == Fine
    ensures SplitOk(r, reqs)
  {
    var n, keys := |reqs|, Bounds(r, reqs);
    FaultFromMeaning(r, reqs, keys, 0);
    forall i | 0 <= i < |keys| - 1 ensures Climbing(keys, i) {
      assert i < n ==> RequestFault(r, reqs[i], keys[i]) == Fine;
    }
    forall i | 0 <= i < n ensures |reqs[i].newPeerIds| == |r.peers| {
      assert RequestFault(r, reqs[i], keys[i]) == Fine;
    }
  }

  lemma SplitsFine(r: Region, reqs: seq<SplitRequest>)
    requires SplitOk(r, reqs)
    ensures SplitFault(r, reqs) == Fine
  {
    var n, keys := |reqs|, Bounds(r, reqs);
    FaultFromMeaning(r, reqs, keys, 0);
    Climbs(keys, 0, n);
    LessAsymmetric(keys[0], keys[n]);
    assert Climbing(keys, n);
    forall i | 0 <= i < n ensures RequestFault(r, reqs[i], keys[i]) == Fine {
      assert Climbing(keys, i);
    }
  }

  function NewPeers(peers: seq<Peer>, ids: seq<nat>): (ps: seq<Peer>)
    requires |ids| == |peers|
    ensures |ps| == |peers|
    ensures forall j :: 0 <= j < |ps| ==> ps[j] == Peer(ids[j], peers[j].storeId, peers[j].role)
  {
    seq(|peers|, j requires 0 <= j < |peers| => Peer(ids[j], peers[j].storeId, peers[j].role))
  }

  /** Where the derived region stands among the parts. */
  function DerivedAt(n: nat, rightDerive: bool): nat {
    if rightDerive then n else 0
  }

  /** The `i`-th part in key order: the derived region keeps id and peers, the others take theirs from a request. */
  function Part(r: Region, reqs: seq<SplitRequest>, rightDerive: bool, i: nat): Region
    requires i <= |reqs|
    requires forall j :: 0 <= j < |reqs| ==> |reqs[j].newPeerIds| == |r.peers|
  {
    var keys, epoch := Bounds(r, reqs), Epoch(r.epoch.confVer, r.epoch.version + |reqs|);
    if i == DerivedAt(|reqs|, rightDerive) then Region(r.id, keys[i], keys[i + 1], epoch, r.peers)
    else
      var req := reqs[if rightDerive then i else i - 1];
      Region(req.newRegionId, keys[i], keys[i + 1], epoch, NewPeers(r.peers, req.newPeerIds))
  }

  function Parts(r: Region, reqs: seq<SplitRequest>, rightDerive: bool): (ps: seq<Region>)
    requires forall j :: 0 <= j < |reqs| ==> |reqs[j].newPeerIds| == |r.peers|
    ensures |ps| == |reqs| + 1
    ensures forall i :: 0 <= i < |ps| ==> ps[i] == Part(r, reqs, rightDerive, i)
  {
    seq(|reqs| + 1, i requires 0 <= i <= |reqs| => Part(r, reqs, rightDerive, i))
  }

  /** The rung a key falls on. */
  ghost function Rung(keys: seq<Bytes>, key: Bytes, n: nat): (i: nat)
    requires Ladder(keys) && n + 1 < |keys| && AtMost(keys[0], key)
    ensures i <= n && AtMost(keys[i], key)
    ensures i < n ==> Less(key, keys[i + 1])
  {
    if n == 0 || AtMost(keys[n], key) then n else Rung(keys, key, n - 1)
  }

  lemma RungUnique(keys: seq<Bytes>, key: Bytes, i: nat, j: nat)
    requires Ladder(keys) && i < j < |keys| - 1
    ensures !(InRange(keys[i], keys[i + 1], key) && InRange(keys[j], keys[j + 1], key))
  {
    assert Climbing(keys, i);
    if InRange(keys[i], keys[i + 1], key) && i + 1 < j {
      Climbs(keys, i + 1, j);
      LessTransitive(key, keys[i + 1], keys[j]);
    }
  }

  lemma RungInside(keys: seq<Bytes>, key: Bytes, i: nat)
    requires Ladder(keys) && i < |keys| - 1 && InRange(keys[i], keys[i + 1], key)
    ensures InRange(keys[0], keys[|keys| - 1], key)
  {
    var last := |keys| - 1;
    if 0 < i {
      Climbs(keys, 0, i);
      if Less(key, keys[0]) { LessTransitive(key, keys[0], keys[i]); }
    }
    if i + 1 < last && keys[last] != [] {
      Climbs(keys, i + 1, last);
      assert Climbing(keys, i);
      LessTransitive(key, keys[i + 1], keys[last]);
    }
  }

  /** `parts` cuts `r` up: each key of it lies in exactly one part, no other key lies in any. */
  ghost predicate Partitions(r: Region, parts: seq<Region>) {
    && (forall key :: Contains(r, key) ==> exists i :: 0 <= i < |parts| && Contains(parts[i], key))
    && (forall key, i, j :: 0 <= i < j < |parts| ==> !(Contains(parts[i], key) && Contains(parts[j], key)))
    && (forall key, i :: 0 <= i < |parts| && Contains(parts[i], key) ==> Contains(r, key))
  }

  /** The parts lie one after the other between the bounds. */
  ghost predicate LaidOut(keys: seq<Bytes>, parts: seq<Region>) {
    |keys| == |parts| + 1 && forall i :: 0 <= i < |parts| ==>
      parts[i].startKey == keys[i] && parts[i].endKey == keys[i + 1]
  }

  lemma LadderPartitions(r: Region, keys: seq<Bytes>, parts: seq<Region>)
    requires Ladder(keys) && LaidOut(keys, parts) && r.startKey == keys[0] && r.endKey == keys[|keys| - 1]
    ensures Partitions(r, parts)
  {
    forall key | Contains(r, key) ensures exists i :: 0 <= i < |parts| && Contains(parts[i], key) {
      var i := Rung(keys, key, |keys| - 2);
      assert Contains(parts[i], key);
    }
    forall key, i, j | 0 <= i < j < |parts| ensures !(Contains(parts[i], key) && Contains(parts[j], key)) {
      RungUnique(keys, key, i, j);
    }
    forall key, i | 0 <= i < |parts| && Contains(parts[i], key) ensures Contains(r, key) {
      RungInside(keys, key, i);
    }
  }

  lemma SplitPartitions(r: Region, reqs: seq<SplitRequest>, rightDerive: bool)
    requires SplitOk(r, reqs)
    ensures Partitions(r, Parts(r, reqs, rightDerive))
  {
    assert LaidOut(Bounds(r, reqs), Parts(r, reqs, rightDerive));
    LadderPartitions(r, Bounds(r, reqs), Parts(r, reqs, rightDerive));
  }

  /** Every part has the stores and roles of the old region, one place each, and a later version. */
  lemma SplitCopies(r: Region, reqs: seq<SplitRequest>, rightDerive: bool, i: nat)
    requires SplitOk(r, reqs) && OnePerStore(r.peers) && i <= |reqs|
    ensures var p := Part(r, reqs, rightDerive, i);
      && |p.peers| == |r.peers| && OnePerStore(p.peers)
      && (forall j :: 0 <= j < |p.peers| ==>
        p.peers[j].storeId == r.peers[j].storeId && p.peers[j].role == r.peers[j].role)
      && p.epoch.confVer == r.epoch.confVer && p.epoch.version == r.epoch.version + |reqs| > r.epoch.version
      && (p.endKey == [] || Less(p.startKey, p.endKey))
  {
    assert Climbing(Bounds(r, reqs), i);
  }

  // Membership changes

  datatype ChangeType = AddNode | RemoveNode | AddLearner

  /** The first peer on a store, or the number of peers. */
  function PeerAt(peers: seq<Peer>, store: nat): (i: nat)
    ensures i <= |peers|
    ensures i < |peers| ==> peers[i].storeId == store
    ensures forall j :: 0 <= j < i ==> peers[j].storeId != store
  {
    if peers == [] || peers[0].storeId == store then 0 else 1 + PeerAt(peers[1..], store)
  }

  function ChangeFault(peers: seq<Peer>, ct: ChangeType, peer: Peer): Fault {
    var i := PeerAt(peers, peer.storeId);
    match ct
    case AddNode =>
      if i < |peers| && !(peers[i].role == Learner && peers[i].id == peer.id) then DuplicatedPeer else Fine
    case RemoveNode => if i == |peers| then MissingPeer else if peers[i] != peer then UnmatchedPeer else Fine
    case AddLearner => if i < |peers| then DuplicatedPeer else Fine
  }

  function ChangedPeers(peers: seq<Peer>, ct: ChangeType, peer: Peer): seq<Peer> {
    var i := PeerAt(peers, peer.storeId);
    if i == |peers| then peers + [peer]
    else if ct == RemoveNode then peers[..i] + peers[i + 1..]
    else peers[i := peers[i].(role := Voter)]
  }

  function Changed(r: Region, ct: ChangeType, peer: Peer): Region {
    r.(epoch := r.epoch.(confVer := r.epoch.confVer + 1), peers := ChangedPeers(r.peers, ct, peer))
  }

  ghost function Members(peers: seq<Peer>): set<Peer> {
    set p | p in peers
  }

  /** A change goes through on exactly these conditions on who is a member. */
  lemma ChangeFaultMeaning(peers: seq<Peer>, ct: ChangeType, peer: Peer)
    requires OnePerStore(peers)
    ensures ChangeFault(peers, ct, peer) == Fine <==>
      match ct
      case AddNode => forall p :: p in peers && p.storeId == peer.storeId ==> p == Peer(peer.id, peer.storeId, Learner)
      case RemoveNode => peer in peers
      case AddLearner => forall p :: p in peers ==> p.storeId != peer.storeId
  {
    var i := PeerAt(peers, peer.storeId);
    assert i < |peers| ==> peers[i] in peers;
  }

  /** What a change does to the members, and that no store ever holds two. */
  lemma ChangeMeaning(peers: seq<Peer>, ct: ChangeType, peer: Peer)
    requires OnePerStore(peers) && ChangeFault(peers, ct, peer) == Fine
    ensures var peers', learner := ChangedPeers(peers, ct, peer), Peer(peer.id, peer.storeId, Learner);
      && OnePerStore(peers')
      && Members(peers') ==
        if ct == RemoveNode then Members(peers) - {peer}
        else if ct == AddNode && learner in peers then Members(peers) - {learner} + {Peer(peer.id, peer.storeId, Voter)}
        else Members(peers) + {peer}
  {
    var i, peers' := PeerAt(peers, peer.storeId), ChangedPeers(peers, ct, peer);
    if i == |peers| {
      assert Members(peers') == Members(peers) + {peer};
    } else if ct == RemoveNode {
      RemoveMeaning(peers, i);
    } else {
      PromoteMeaning(peers, i);
    }
  }

  lemma RemoveMeaning(peers: seq<Peer>, i: nat)
    requires OnePerStore(peers) && i < |peers|
    ensures OnePerStore(peers[..i] + peers[i + 1..])
    ensures Members(peers[..i] + peers[i + 1..]) == Members(peers) - {peers[i]}
  {
    var rest := peers[..i] + peers[i + 1..];
    forall p | p in peers && p != peers[i] ensures p in rest {
      var j :| 0 <= j < |peers| && peers[j] == p;
      assert if j < i then rest[j] == p else rest[j - 1] == p;
    }
  }

  lemma PromoteMeaning(peers: seq<Peer>, i: nat)
    requires OnePerStore(peers) && i < |peers|
    ensures var voter := peers[i].(role := Voter);
      && OnePerStore(peers[i := voter])
      && Members(peers[i := voter]) == Members(peers) - {peers[i]} + {voter}
  {
    var peers' := peers[i := peers[i].(role := Voter)];
    forall p | p in peers && p != peers[i] ensures p in peers' {
      var j :| 0 <= j < |peers| && peers[j] == p;
      assert peers'[j] == p;
    }
    assert peers'[i] in peers';
  }

  // Commands and the epoch check

  datatype Cmd =
    | Write
    | ChangePeer(ct: ChangeType, peer: Peer)
    | BatchSplit(reqs: seq<SplitRequest>, rightDerive: bool)
    | CompactLog
    | ComputeHash
    | VerifyHash
    | TransferLeader
    | InvalidAdmin

  datatype Request = Request(sent: Epoch, cmd: Cmd)

  predicate ChecksVersion(cmd: Cmd) {
    cmd.Write? || cmd.BatchSplit? || cmd.TransferLeader?
  }

  predicate ChecksConfVer(cmd: Cmd) {
    cmd.ChangePeer? || cmd.BatchSplit? || cmd.TransferLeader?
  }

  /** A raft log carries both parts of an epoch as unsigned 32-bit numbers. */
  function Truncated(n: nat): nat {
    n % 0x1_0000_0000
  }

  function EpochFault(epoch: Epoch, req: Request): Fault {
    if (ChecksConfVer(req.cmd) && Truncated(req.sent.confVer) != epoch.confVer) ||
       (ChecksVersion(req.cmd) && Truncated(req.sent.version) != epoch.version) then EpochNotMatch
    else Fine
  }

  /** The sender's epoch is behind in a part that the command checks. */
  predicate Outdated(epoch: Epoch, req: Request) {
    || (ChecksConfVer(req.cmd) && req.sent.confVer < epoch.confVer)
    || (ChecksVersion(req.cmd) && req.sent.version < epoch.version)
  }

  /** An outdated command is always refused; below 2^32 any difference is, and only a difference. A command that
      carries the region's own epoch passes exactly while the checked parts of it fit their 32 bits. */
  lemma EpochFaultMeaning(epoch: Epoch, req: Request)
    ensures Outdated(epoch, req) ==> EpochFault(epoch, req) == EpochNotMatch
    ensures req.sent.confVer < 0x1_0000_0000 && req.sent.version < 0x1_0000_0000 ==>
      (EpochFault(epoch, req) == Fine <==>
        && (ChecksConfVer(req.cmd) ==> req.sent.confVer == epoch.confVer)
        && (ChecksVersion(req.cmd) ==> req.sent.version == epoch.version))
    ensures req.sent == epoch ==>
      (EpochFault(epoch, req) == Fine <==>
        && (ChecksConfVer(req.cmd) ==> epoch.confVer < 0x1_0000_0000)
        && (ChecksVersion(req.cmd) ==> epoch.version < 0x1_0000_0000))
  {
  }

  /** Which commands ask for which part of the epoch. */
  lemma EpochByCommand(epoch: Epoch, sent: Epoch, cmd: Cmd)
    ensures var sameConf, sameVersion :=
        sent.confVer % 0x1_0000_0000 == epoch.confVer, sent.version % 0x1_0000_0000 == epoch.version;
      EpochFault(epoch, Request(sent, cmd)) == Fine <==>
        match cmd
        case Write => sameVersion
        case ChangePeer(_, _) => sameConf
        case BatchSplit(_, _) => sameConf && sameVersion
        case TransferLeader => sameConf && sameVersion
        case CompactLog => true
        case ComputeHash => true
        case VerifyHash => true
        case InvalidAdmin => true
  {
  }

  /** Above 2^32 an epoch that never was can pass the check. */
  lemma EpochWraps()
    ensures EpochFault(Epoch(1, 1), Request(Epoch(1, 0x1_0000_0001), Write)) == Fine
  {
  }

  /** What a command does to one region: a fault and no change, or the regions that take its place. */
  datatype Effect = Effect(fault: Fault, regions: seq<Region>)

  function Exec(r: Region, req: Request): Effect {
    if EpochFault(r.epoch, req) != Fine then Effect(EpochNotMatch, [r])
    else match req.cmd
      case ChangePeer(ct, peer) =>
        var f := ChangeFault(r.peers, ct, peer);
        if f != Fine then Effect(f, [r]) else Effect(Fine, [Changed(r, ct, peer)])
      case BatchSplit(reqs, rightDerive) =>
        var f := SplitFault(r, reqs);
        SplitFaultMeaning(r, reqs);
        if f != Fine then Effect(f, [r]) else Effect(Fine, Parts(r, reqs, rightDerive))
      case TransferLeader => Effect(Unsupported, [r])
      case InvalidAdmin => Effect(Unsupported, [r])
      case _ => Effect(Fine, [r])
  }

  // What a command that goes through leaves

  /** The members a change is meant to leave: a learner of that id is promoted, any other peer is new. */
  ghost function MembersAfter(peers: seq<Peer>, ct: ChangeType, peer: Peer): set<Peer> {
    var learner, voter := Peer(peer.id, peer.storeId, Learner), Peer(peer.id, peer.storeId, Voter);
    match ct
    case AddNode => Members(peers) - {learner} + {if learner in peers then voter else peer}
    case RemoveNode => Members(peers) - {peer}
    case AddLearner => Members(peers) + {peer}
  }

  /** A membership change moves the conf version by one and the members, and nothing else. */
  lemma ChangeTakesEffect(r: Region, sent: Epoch, ct: ChangeType, peer: Peer)
    requires OnePerStore(r.peers) && Exec(r, Request(sent, ChangePeer(ct, peer))).fault == Fine
    ensures var rs := Exec(r, Request(sent, ChangePeer(ct, peer))).regions;
      && |rs| == 1 && rs[0].id == r.id && rs[0].startKey == r.startKey && rs[0].endKey == r.endKey
      && rs[0].epoch == Epoch(r.epoch.confVer + 1, r.epoch.version)
      && Members(rs[0].peers) == MembersAfter(r.peers, ct, peer)
  {
    ChangeFaultMeaning(r.peers, ct, peer);
    ChangeMeaning(r.peers, ct, peer);
  }

  /** The part that the `i`-th request asks for, and the one that keeps the region's id and peers. */
  lemma SplitTakesEffect(r: Region, sent: Epoch, reqs: seq<SplitRequest>, rightDerive: bool, i: nat)
    requires Exec(r, Request(sent, BatchSplit(reqs, rightDerive))).fault == Fine && i < |reqs|
    ensures var rs := Exec(r, Request(sent, BatchSplit(reqs, rightDerive))).regions;
      && |rs| == |reqs| + 1
      && var p, kept := rs[if rightDerive then i else i + 1], rs[if rightDerive then |reqs| else 0];
      && p.id == reqs[i].newRegionId && |p.peers| == |r.peers| == |reqs[i].newPeerIds|
      && (forall j :: 0 <= j < |r.peers| ==>
        p.peers[j] == Peer(reqs[i].newPeerIds[j], r.peers[j].storeId, r.peers[j].role))
      && reqs[i].splitKey == (if rightDerive then p.endKey else p.startKey)
      && kept.id == r.id && kept.peers == r.peers
      && p.epoch == kept.epoch == Epoch(r.epoch.confVer, r.epoch.version + |reqs|)
  {
    SplitFaultMeaning(r, reqs);
    var k := if rightDerive then i else i + 1;
    assert Parts(r, reqs, rightDerive)[k] == Part(r, reqs, rightDerive, k);
  }

  // Runs over all regions

  type World = map<nat, Region>

  function Install(w: World, regions: seq<Region>): World
    decreases |regions|
  {
    if regions == [] then w else Install(w[regions[0].id := regions[0]], regions[1..])
  }

  datatype Op = Op(id: nat, req: Request)

  function Step(w: World, op: Op): World {
    if op.id !in w then w
    else var e := Exec(w[op.id], op.req); if e.fault != Fine then w else Install(w, e.regions)
  }

  function Run(w: World, ops: seq<Op>): World
    decreases |ops|
  {
    if ops == [] then w else Run(Step(w, ops[0]), ops[1..])
  }

  /** The placement driver hands out new region ids once. */
  ghost predicate FreshIds(w: World, id: nat, regions: seq<Region>) {
    && (forall i, j :: 0 <= i < j < |regions| ==> regions[i].id != regions[j].id)
    && (forall i :: 0 <= i < |regions| && regions[i].id in w ==> regions[i].id == id)
  }

  ghost predicate Legal(w: World, op: Op) {
    op.id in w ==> FreshIds(w, op.id, Exec(w[op.id], op.req).regions)
  }

  ghost predicate LegalRun(w: World, ops: seq<Op>)
    decreases |ops|
  {
    ops == [] || (Legal(w, ops[0]) && LegalRun(Step(w, ops[0]), ops[1..]))
  }

  ghost predicate WellFormed(r: Region) {
    OnePerStore(r.peers) && (r.endKey == [] || Less(r.startKey, r.endKey))
  }

  ghost predicate Apart(a: Region, b: Region) {
    forall key :: !(Contains(a, key) && Contains(b, key))
  }

  ghost predicate Inv(w: World) {
    && (forall id :: id in w ==> w[id].id == id && WellFormed(w[id]))
    && (forall a, b :: a in w && b in w && a != b ==> Apart(w[a], w[b]))
  }

  ghost predicate Covered(w: World, key: Bytes) {
    exists id :: id in w && Contains(w[id], key)
  }

  predicate NotLater(a: Epoch, b: Epoch) {
    a.confVer <= b.confVer && a.version <= b.version
  }

  /** A command puts in place well-formed regions that cut the old one up, the old id among them. */
  lemma ExecMeaning(r: Region, req: Request)
    requires WellFormed(r)
    ensures var rs := Exec(r, req).regions;
      && Partitions(r, rs)
      && (forall i :: 0 <= i < |rs| ==> WellFormed(rs[i]) && NotLater(r.epoch, rs[i].epoch))
      && (exists i :: 0 <= i < |rs| && rs[i].id == r.id)
  {
    var rs := Exec(r, req).regions;
    if req.cmd.BatchSplit? && Exec(r, req).fault == Fine {
      SplitFaultMeaning(r, req.cmd.reqs);
      SplitPartitions(r, req.cmd.reqs, req.cmd.rightDerive);
      forall i | 0 <= i < |rs| ensures WellFormed(rs[i]) && NotLater(r.epoch, rs[i].epoch) {
        SplitCopies(r, req.cmd.reqs, req.cmd.rightDerive, i);
      }
      assert rs[DerivedAt(|req.cmd.reqs|, req.cmd.rightDerive)].id == r.id;
    } else {
      if req.cmd.ChangePeer? && Exec(r, req).fault == Fine { ChangeMeaning(r.peers, req.cmd.ct, req.cmd.peer); }
      assert rs[0].id == r.id && rs[0].startKey == r.startKey && rs[0].endKey == r.endKey;
    }
  }

  lemma {:induction false} InstallMeaning(w: World, rs: seq<Region>)
    requires forall i, j :: 0 <= i < j < |rs| ==> rs[i].id != rs[j].id
    ensures var w' := Install(w, rs);
      && (forall i :: 0 <= i < |rs| ==> rs[i].id in w' && w'[rs[i].id] == rs[i])
      && (forall id :: id in w' ==> (exists i :: 0 <= i < |rs| && rs[i].id == id) || (id in w && w'[id] == w[id]))
      && (forall id :: id in w ==> id in w')
    decreases |rs|
  {
    if rs != [] {
      InstallMeaning(w[rs[0].id := rs[0]], rs[1..]);
    }
  }

  /** The position in `rs` that an id of the new world comes from. */
  ghost predicate ComesFrom(rs: seq<Region>, id: nat, i: nat) {
    i < |rs| && rs[i].id == id
  }

  /** `rs` may take the place of region `id`. */
  ghost predicate Replaces(w: World, id: nat, rs: seq<Region>) {
    && id in w && FreshIds(w, id, rs) && Partitions(w[id], rs)
    && (forall i :: 0 <= i < |rs| ==> WellFormed(rs[i]))
    && (exists i: nat :: ComesFrom(rs, id, i))
  }

  lemma StepInstalls(w: World, op: Op)
    requires Inv(w) && Legal(w, op) && op.id in w
    ensures var rs := Exec(w[op.id], op.req).regions;
      Replaces(w, op.id, rs) && Step(w, op) == Install(w, rs)
  {
    ExecMeaning(w[op.id], op.req);
    var rs := Exec(w[op.id], op.req).regions;
    var i :| 0 <= i < |rs| && rs[i].id == op.id;
    assert ComesFrom(rs, op.id, i);
    if Exec(w[op.id], op.req).fault != Fine {
      assert w[op.id := w[op.id]] == w;
    }
  }

  lemma InstallPlaces(w: World, id: nat, rs: seq<Region>, w': World)
    requires Inv(w) && Replaces(w, id, rs) && w' == Install(w, rs)
    ensures forall x: nat, i: nat :: ComesFrom(rs, x, i) ==> x in w' && w'[x] == rs[i]
    ensures forall x :: x in w' && x != id && x in w ==> w'[x] == w[x]
    ensures forall x :: x in w' && (x == id || x !in w) ==> exists i: nat :: ComesFrom(rs, x, i)
    ensures forall x :: x in w ==> x in w'
  {
    InstallMeaning(w, rs);
    forall x | x in w' && (x == id || x !in w) ensures exists i: nat :: ComesFrom(rs, x, i) {
      if x != id {
        var i :| 0 <= i < |rs| && rs[i].id == x;
        assert ComesFrom(rs, x, i);
      }
    }
  }

  lemma InstallInv(w: World, id: nat, rs: seq<Region>)
    requires Inv(w) && Replaces(w, id, rs)
    ensures Inv(Install(w, rs))
  {
    var w' := Install(w, rs);
    InstallPlaces(w, id, rs, w');
    forall a, b | a in w' && b in w' && a != b ensures Apart(w'[a], w'[b]) {
      InstallApart(w, id, rs, w', a, b);
    }
    forall x | x in w' ensures w'[x].id == x && WellFormed(w'[x]) {
      if x == id || x !in w {
        var i: nat :| ComesFrom(rs, x, i);
      }
    }
  }

  lemma InstallApart(w: World, id: nat, rs: seq<Region>, w': World, a: nat, b: nat)
    requires Inv(w) && Replaces(w, id, rs) && w' == Install(w, rs)
    requires a in w' && b in w' && a != b
    ensures Apart(w'[a], w'[b])
  {
    InstallPlaces(w, id, rs, w');
    var newA, newB := a == id || a !in w, b == id || b !in w;
    if newA && newB {
      var i: nat :| ComesFrom(rs, a, i);
      var j: nat :| ComesFrom(rs, b, j);
      if i < j { PartsApart(w[id], rs, i, j); } else { PartsApart(w[id], rs, j, i); }
    } else if newA {
      var i: nat :| ComesFrom(rs, a, i);
      PartApart(w[id], rs, i, w[b]);
    } else if newB {
      var j: nat :| ComesFrom(rs, b, j);
      PartApart(w[id], rs, j, w[a]);
    }
  }

  lemma StepInv(w: World, op: Op)
    requires Inv(w) && Legal(w, op)
    ensures Inv(Step(w, op))
  {
    if op.id in w {
      StepInstalls(w, op);
      InstallInv(w, op.id, Exec(w[op.id], op.req).regions);
    }
  }

  lemma PartsApart(r: Region, rs: seq<Region>, i: nat, j: nat)
    requires Partitions(r, rs) && i < j < |rs|
    ensures Apart(rs[i], rs[j]) && Apart(rs[j], rs[i])
  {
  }

  lemma PartApart(r: Region, rs: seq<Region>, i: nat, other: Region)
    requires Partitions(r, rs) && i < |rs| && Apart(r, other)
    ensures Apart(rs[i], other) && Apart(other, rs[i])
  {
  }

  /** No command ever loses a key or takes one that no region had. */
  lemma StepCovers(w: World, op: Op, key: Bytes)
    requires Inv(w) && Legal(w, op)
    ensures Covered(w, key) <==> Covered(Step(w, op), key)
  {
    if op.id in w {
      StepInstalls(w, op);
      InstallCovers(w, op.id, Exec(w[op.id], op.req).regions, Step(w, op), key);
    }
  }

  lemma InstallCovers(w: World, id: nat, rs: seq<Region>, w': World, key: Bytes)
    requires Inv(w) && Replaces(w, id, rs) && w' == Install(w, rs)
    ensures Covered(w, key) <==> Covered(w', key)
  {
    InstallPlaces(w, id, rs, w');
    if Covered(w, key) {
      var x :| x in w && Contains(w[x], key);
      if x == id {
        var i :| 0 <= i < |rs| && Contains(rs[i], key);
        assert ComesFrom(rs, rs[i].id, i);
      }
    }
    if Covered(w', key) {
      var x :| x in w' && Contains(w'[x], key);
      if x == id || x !in w {
        var i: nat :| ComesFrom(rs, x, i);
        assert Contains(w[id], key);
      }
    }
  }

  lemma StepEpochs(w: World, op: Op)
    requires Inv(w) && Legal(w, op)
    ensures forall id :: id in w ==> id in Step(w, op) && NotLater(w[id].epoch, Step(w, op)[id].epoch)
  {
    if op.id in w {
      var rs := Exec(w[op.id], op.req).regions;
      StepInstalls(w, op);
      InstallPlaces(w, op.id, rs, Step(w, op));
      ExecMeaning(w[op.id], op.req);
      var i: nat :| ComesFrom(rs, op.id, i);
    }
  }

  /** Over every run: regions stay disjoint and well formed, the covered keys stay the same, epochs only grow. */
  lemma {:induction false} RunSafe(w: World, ops: seq<Op>)
    requires Inv(w) && LegalRun(w, ops)
    ensures Inv(Run(w, ops))
    ensures forall key :: Covered(w, key) <==> Covered(Run(w, ops), key)
    ensures forall id :: id in w ==> id in Run(w, ops) && NotLater(w[id].epoch, Run(w, ops)[id].epoch)
    decreases |ops|
  {
    if ops != [] {
      var w1 := Step(w, ops[0]);
      StepInv(w, ops[0]);
      StepEpochs(w, ops[0]);
      forall key ensures Covered(w, key) <==> Covered(w1, key) { StepCovers(w, ops[0], key); }
      RunSafe(w1, ops[1..]);
    }
  }

  ghost predicate MovedOn(w: World, op: Op) {
    && op.id in w
    && ((ChecksConfVer(op.req.cmd) && w[op.id].epoch.confVer != op.req.sent.confVer) ||
      (ChecksVersion(op.req.cmd) && w[op.id].epoch.version != op.req.sent.version))
  }

  /** A command sent under the epoch a region had is refused, with no effect, once a part it checks has moved on. */
  lemma StaleRefused(w: World, ops: seq<Op>, op: Op)
    requires Inv(w) && LegalRun(w, ops) && op.id in w && op.req.sent == w[op.id].epoch
    requires MovedOn(Run(w, ops), op)
    ensures Exec(Run(w, ops)[op.id], op.req) == Effect(EpochNotMatch, [Run(w, ops)[op.id]])
    ensures Step(Run(w, ops), op) == Run(w, ops)
  {
    RunSafe(w, ops);
    EpochFaultMeaning(Run(w, ops)[op.id].epoch, op.req);
  }

  // Two commands under one epoch

  lemma {:induction false} RunJoin(w: World, a: seq<Op>, b: seq<Op>)
    ensures Run(w, a + b) == Run(Run(w, a), b)
    ensures LegalRun(w, a + b) <==> LegalRun(w, a) && LegalRun(Run(w, a), b)
    decreases |a|
  {
    if a == [] {
      assert a + b == b;
    } else {
      assert (a + b)[1..] == a[1..] + b;
      RunJoin(Step(w, a[0]), a[1..], b);
    }
  }

  predicate TakesEffect(w: World, op: Op) {
    op.id in w && Exec(w[op.id], op.req).fault == Fine
  }

  /** `first` changes a part of the epoch that `second` asks for. */
  predicate Overtakes(first: Cmd, second: Cmd) {
    || (first.ChangePeer? && (second.ChangePeer? || second.BatchSplit? || second.TransferLeader?))
    || (first.BatchSplit? && (second.Write? || second.BatchSplit? || second.TransferLeader?))
  }

  /** The epoch of a region after a command that changes it. */
  lemma EpochRaised(w: World, op: Op)
    requires Inv(w) && Legal(w, op) && TakesEffect(w, op) && (op.req.cmd.ChangePeer? || op.req.cmd.BatchSplit?)
    ensures var e, w' := w[op.id].epoch, Step(w, op);
      op.id in w' && w'[op.id].epoch ==
        if op.req.cmd.ChangePeer? then Epoch(e.confVer + 1, e.version)
        else Epoch(e.confVer, e.version + |op.req.cmd.reqs|)
  {
    var r, cmd := w[op.id], op.req.cmd;
    StepInstalls(w, op);
    var rs := Exec(r, op.req).regions;
    InstallPlaces(w, op.id, rs, Step(w, op));
    if cmd.ChangePeer? {
      ChangeTakesEffect(r, op.req.sent, cmd.ct, cmd.peer);
      assert ComesFrom(rs, op.id, 0);
    } else {
      SplitFaultMeaning(r, cmd.reqs);
      SplitTakesEffect(r, op.req.sent, cmd.reqs, cmd.rightDerive, 0);
      assert ComesFrom(rs, op.id, if cmd.rightDerive then |cmd.reqs| else 0);
    }
  }

  /** Once a command has gone through, one that it overtakes is refused for good under the same epoch. */
  lemma OvertakenRefused(w: World, first: Op, ops: seq<Op>, second: Op)
    requires Inv(w) && Legal(w, first) && TakesEffect(w, first) && LegalRun(Step(w, first), ops)
    requires first.id == second.id && first.req.sent == second.req.sent && Overtakes(first.req.cmd, second.req.cmd)
    ensures var w' := Run(Step(w, first), ops);
      second.id in w' && Exec(w'[second.id], second.req).fault == EpochNotMatch
  {
    StepInv(w, first);
    EpochRaised(w, first);
    RunSafe(Step(w, first), ops);
    var w' := Run(Step(w, first), ops);
    if first.req.cmd.BatchSplit? { SplitFaultMeaning(w[first.id], first.req.cmd.reqs); }
    EpochByCommand(w[first.id].epoch, first.req.sent, first.req.cmd);
    EpochByCommand(w'[second.id].epoch, second.req.sent, second.req.cmd);
  }

  /**
   Over every run: of two membership changes sent to a region under one epoch at most one takes effect, and
   likewise of any two commands the first of which changes what the second asks for. The second changes nothing.
   */
  lemma OneEffectPerEpoch(w: World, ops: seq<Op>, i: nat, j: nat)
    requires Inv(w) && LegalRun(w, ops) && i < j < |ops|
    requires ops[i].id == ops[j].id && ops[i].req.sent == ops[j].req.sent
    requires Overtakes(ops[i].req.cmd, ops[j].req.cmd) && TakesEffect(Run(w, ops[..i]), ops[i])
    ensures !TakesEffect(Run(w, ops[..j]), ops[j]) && Step(Run(w, ops[..j]), ops[j]) == Run(w, ops[..j])
  {
    var m, rest := Run(w, ops[..i]), ops[i + 1..j];
    assert ops[..j] == ops[..i] + ([ops[i]] + rest) && ops == ops[..j] + ops[j..];
    RunJoin(w, ops[..j], ops[j..]);
    RunJoin(w, ops[..i], [ops[i]] + rest);
    assert ([ops[i]] + rest)[1..] == rest;
    RunSafe(w, ops[..i]);
    OvertakenRefused(m, ops[i], rest, ops[j]);
  }
}
