/**
 Regions as the applier holds them: objects whose epoch is an object of its own, which the results
 of a split share. Nothing here writes to an object that existed before the call, apart from the
 applier's own fields.
 */
module RegionExec {
  import opened Bytes
  import opened Regions

  class EpochCell {
    var confVer: nat
    var version: nat

    constructor (confVer: nat, version: nat)
      ensures this.confVer == confVer && this.version == version
    {
      this.confVer, this.version := confVer, version;
    }
  }

  class RegionObj {
    var id: nat
    var startKey: Bytes
    var endKey: Bytes
    var epoch: EpochCell
    var peers: seq<Peer>

    constructor (id: nat, startKey: Bytes, endKey: Bytes, epoch: EpochCell, peers: seq<Peer>)
      ensures this.epoch == epoch && View() == Region(id, startKey, endKey, Epoch(epoch.confVer, epoch.version), peers)
    {
      this.id, this.startKey, this.endKey, this.epoch, this.peers := id, startKey, endKey, epoch, peers;
    }

    ghost function View(): Region
      reads this, epoch
    {
      Region(id, startKey, endKey, Epoch(epoch.confVer, epoch.version), peers)
    }

    /** `CloneMsg`: a deep copy, with an epoch of its own. */
    method Clone() returns (c: RegionObj)
      ensures fresh(c) && fresh(c.epoch) && c.View() == View()
    {
      var e := new EpochCell(epoch.confVer, epoch.version);
      c := new RegionObj(id, startKey, endKey, e, peers);
    }
  }

  // Splits

  /** The checks on a batch split, gathering the bounds of the parts. */
  method CheckSplit(ghost r: Region, startKey: Bytes, endKey: Bytes, peerCount: nat, reqs: seq<SplitRequest>)
    returns (fault: Fault, keys: seq<Bytes>)
    requires r.startKey == startKey && r.endKey == endKey && |r.peers| == peerCount
    ensures fault == SplitFault(r, reqs)
    ensures fault == Fine ==> keys == Bounds(r, reqs)
  {
    keys := [];
    if |reqs| == 0 {
      fault := MissingSplitKey;
      return;
    }
    keys := [startKey];
    ghost var all := Bounds(r, reqs);
    var i := 0;
    while i < |reqs|
      invariant 0 <= i <= |reqs|
      invariant keys == all[..i + 1]
      invariant SplitFault(r, reqs) == FaultFrom(r, reqs, all, i)
    {
      if reqs[i].splitKey == [] {
        fault := MissingSplitKey;
        return;
      }
      if !Less(keys[|keys| - 1], reqs[i].splitKey) {
        fault := InvalidSplit;
        return;
      }
      if |reqs[i].newPeerIds| != peerCount {
        fault := PeerCount;
        return;
      }
      keys := keys + [reqs[i].splitKey];
      i := i + 1;
    }
    keys := keys + [endKey];
    fault := if InRange(startKey, endKey, keys[|keys| - 2]) then Fine else KeyNotInRegion;
  }

  /** Copies stores and roles under new peer ids. */
  method CopyPeers(peers: seq<Peer>, ids: seq<nat>) returns (ps: seq<Peer>)
    requires |ids| == |peers|
    ensures ps == NewPeers(peers, ids)
  {
    ps := [];
    var j := 0;
    while j < |peers|
      invariant 0 <= j <= |peers| && |ps| == j
      invariant forall i :: 0 <= i < j ==> ps[i] == Peer(ids[i], peers[i].storeId, peers[i].role)
    {
      ps := ps + [Peer(ids[j], peers[j].storeId, peers[j].role)];
      j := j + 1;
    }
  }

  /** `regions` are new objects sharing one epoch object, and look like the parts from `lo` on. */
  ghost predicate Holds(regions: seq<RegionObj>, epoch: EpochCell, parts: seq<Region>, lo: nat)
    reads regions, epoch
  {
    && lo + |regions| <= |parts|
    && (forall i :: 0 <= i < |regions| ==> regions[i].epoch == epoch && regions[i].View() == parts[lo + i])
  }

  /** The new regions of a split, in order; they point at the derived region's epoch. */
  method NewRegions(epoch: EpochCell, peers: seq<Peer>, reqs: seq<SplitRequest>, keys: seq<Bytes>,
                    ghost parts: seq<Region>, ghost lo: nat)
    returns (regions: seq<RegionObj>)
    requires |keys| == |reqs| + 1 && lo + |reqs| <= |parts|
    requires forall i :: 0 <= i < |reqs| ==> |reqs[i].newPeerIds| == |peers|
    requires forall i :: 0 <= i < |reqs| ==>
      parts[lo + i] == Region(reqs[i].newRegionId, keys[i], keys[i + 1],
                              Epoch(epoch.confVer, epoch.version), NewPeers(peers, reqs[i].newPeerIds))
    ensures |regions| == |reqs| && Holds(regions, epoch, parts, lo)
    ensures forall x :: x in regions ==> fresh(x)
  {
    regions := [];
    var i := 0;
    while i < |reqs|
      invariant 0 <= i <= |reqs| && |regions| == i
      invariant Holds(regions, epoch, parts, lo)
      invariant forall x :: x in regions ==> fresh(x)
    {
      var ps := CopyPeers(peers, reqs[i].newPeerIds);
      var r := new RegionObj(reqs[i].newRegionId, keys[i], keys[i + 1], epoch, ps);
      regions := regions + [r];
      i := i + 1;
    }
  }

  /** The part that the `i`-th request asks for, `lo` of them coming before it. */
  lemma RequestedPart(r: Region, reqs: seq<SplitRequest>, rightDerive: bool, epoch: Epoch, lo: nat, i: nat)
    requires SplitOk(r, reqs) && epoch == r.epoch.(version := r.epoch.version + |reqs|)
    requires i < |reqs| && lo == if rightDerive then 0 else 1
    ensures Parts(r, reqs, rightDerive)[lo + i] ==
      Region(reqs[i].newRegionId, Bounds(r, reqs)[lo + i], Bounds(r, reqs)[lo + i + 1],
             epoch, NewPeers(r.peers, reqs[i].newPeerIds))
  {
    assert Parts(r, reqs, rightDerive)[lo + i] == Part(r, reqs, rightDerive, lo + i);
  }

  /** Cuts the copy down to the first part and adds the others behind it. */
  method DivideLeft(derived: RegionObj, reqs: seq<SplitRequest>, keys: seq<Bytes>, ghost r: Region)
    returns (regions: seq<RegionObj>)
    requires SplitOk(r, reqs) && keys == Bounds(r, reqs)
    requires derived.View() == r.(epoch := r.epoch.(version := r.epoch.version + |reqs|))
    modifies derived
    ensures derived.epoch == old(derived.epoch)
    ensures |regions| == |reqs| + 1 && derived == regions[0] && (forall x :: x in regions[1..] ==> fresh(x))
    ensures Holds(regions, derived.epoch, Parts(r, reqs, false), 0)
  {
    ghost var parts := Parts(r, reqs, false);
    ghost var epoch := derived.View().epoch;
    derived.endKey := keys[1];
    var rest := keys[1..];
    forall i | 0 <= i < |reqs|
      ensures parts[1 + i] ==
        Region(reqs[i].newRegionId, rest[i], rest[i + 1], epoch, NewPeers(r.peers, reqs[i].newPeerIds))
    {
      RequestedPart(r, reqs, false, epoch, 1, i);
    }
    var others := NewRegions(derived.epoch, derived.peers, reqs, rest, parts, 1);
    regions := [derived] + others;
    forall i | 0 <= i < |regions| ensures regions[i].epoch == derived.epoch && regions[i].View() == parts[i] {
      if i > 0 { assert regions[i] == others[i - 1]; }
    }
  }

  /** Cuts the copy down to the last part and adds the others before it. */
  method DivideRight(derived: RegionObj, reqs: seq<SplitRequest>, keys: seq<Bytes>, ghost r: Region)
    returns (regions: seq<RegionObj>)
    requires SplitOk(r, reqs) && keys == Bounds(r, reqs)
    requires derived.View() == r.(epoch := r.epoch.(version := r.epoch.version + |reqs|))
    modifies derived
    ensures derived.epoch == old(derived.epoch)
    ensures |regions| == |reqs| + 1 && derived == regions[|reqs|] && (forall x :: x in regions[..|reqs|] ==> fresh(x))
    ensures Holds(regions, derived.epoch, Parts(r, reqs, true), 0)
  {
    ghost var parts := Parts(r, reqs, true);
    ghost var epoch := derived.View().epoch;
    derived.startKey := keys[|keys| - 2];
    var front := keys[..|reqs| + 1];
    forall i | 0 <= i < |reqs|
      ensures parts[0 + i] ==
        Region(reqs[i].newRegionId, front[i], front[i + 1], epoch, NewPeers(r.peers, reqs[i].newPeerIds))
    {
      RequestedPart(r, reqs, true, epoch, 0, i);
    }
    var others := NewRegions(derived.epoch, derived.peers, reqs, front, parts, 0);
    regions := others + [derived];
    forall i | 0 <= i < |regions| ensures regions[i].epoch == derived.epoch && regions[i].View() == parts[i] {
      if i < |reqs| { assert regions[i] == others[i]; }
    }
  }

  /** Splits a region without touching it, or anything else that was there before. */
  method ExecBatchSplit(region: RegionObj, reqs: seq<SplitRequest>, rightDerive: bool)
    returns (fault: Fault, regions: seq<RegionObj>, derived: RegionObj)
    ensures fault == SplitFault(region.View(), reqs)
    ensures fault == Fine ==>
      && SplitOk(region.View(), reqs)
      && |regions| == |reqs| + 1 && derived == regions[DerivedAt(|reqs|, rightDerive)]
      && fresh(derived.epoch) && (forall x :: x in regions ==> fresh(x))
      && Holds(regions, derived.epoch, Parts(region.View(), reqs, rightDerive), 0)
  {
    regions := [];
    ghost var r := region.View();
    derived := region.Clone();
    var keys;
    fault, keys := CheckSplit(r, derived.startKey, derived.endKey, |derived.peers|, reqs);
    if fault != Fine {
      return;
    }
    SplitFaultMeaning(r, reqs);
    derived.epoch.version := derived.epoch.version + |reqs|;
    if rightDerive {
      regions := DivideRight(derived, reqs, keys, r);
    } else {
      regions := DivideLeft(derived, reqs, keys, r);
    }
  }

  // Membership changes

  /** Position of the first peer on a store, or -1. */
  method FindPeer(peers: seq<Peer>, storeId: nat) returns (at: int)
    ensures at == if PeerAt(peers, storeId) < |peers| then PeerAt(peers, storeId) else -1
  {
    var i := 0;
    while i < |peers|
      invariant 0 <= i <= |peers|
      invariant forall j :: 0 <= j < i ==> peers[j].storeId != storeId
    {
      if peers[i].storeId == storeId {
        return i;
      }
      i := i + 1;
    }
    return -1;
  }

  /** Changes the members of a copy; whether the applier's own peer was removed comes back as `removed`. */
  method ExecChangePeer(region: RegionObj, ownId: nat, ct: ChangeType, peer: Peer)
    returns (fault: Fault, changed: RegionObj, removed: bool)
    ensures fault == ChangeFault(region.View().peers, ct, peer)
    ensures fault == Fine ==>
      fresh(changed) && fresh(changed.epoch) && changed.View() == Changed(region.View(), ct, peer)
    ensures removed <==> fault == Fine && ct == RemoveNode && ownId == peer.id
  {
    fault, removed := Fine, false;
    changed := region.Clone();
    changed.epoch.confVer := changed.epoch.confVer + 1;
    var at := FindPeer(changed.peers, peer.storeId);
    match ct {
      case AddNode =>
        if at >= 0 {
          if !(changed.peers[at].role == Learner) || changed.peers[at].id != peer.id {
            fault := DuplicatedPeer;
            return;
          }
          changed.peers := changed.peers[at := changed.peers[at].(role := Voter)];
        } else {
          changed.peers := changed.peers + [peer];
        }
      case RemoveNode =>
        if at >= 0 {
          var p := changed.peers[at];
          changed.peers := changed.peers[..at] + changed.peers[at + 1..];
          if p != peer {
            fault := UnmatchedPeer;
            return;
          }
          removed := ownId == peer.id;
        } else {
          fault := MissingPeer;
          return;
        }
      case AddLearner =>
        if at >= 0 {
          fault := DuplicatedPeer;
          return;
        }
        changed.peers := changed.peers + [peer];
    }
  }

  // Commands

  class Applier {
    const id: nat
    var region: RegionObj
    var stopped: bool
    var pendingRemove: bool

    constructor (id: nat, region: RegionObj)
      ensures this.id == id && this.region == region && !stopped && !pendingRemove
    {
      this.id, this.region, this.stopped, this.pendingRemove := id, region, false, false;
    }

    /**
     One command. A refused one changes nothing. One that goes through leaves the applier with the
     region that kept its id, and returns all regions that take the old one's place. Only the
     applier's own fields are written: no region and no epoch held elsewhere changes.
     */
    method ApplyRaftCmd(req: Request) returns (fault: Fault, regions: seq<RegionObj>)
      requires !pendingRemove
      modifies this
      ensures var effect := Exec(old(region.View()), req);
        && fault == effect.fault
        && |regions| == |effect.regions| && (forall i :: 0 <= i < |regions| ==> regions[i].View() == effect.regions[i])
      ensures fault == Fine ==> region in regions && region.id == old(region.id)
      ensures fault != Fine ==> region == old(region) && stopped == old(stopped) && !pendingRemove
      ensures pendingRemove <==>
        fault == Fine && req.cmd.ChangePeer? && req.cmd.ct == RemoveNode && req.cmd.peer.id == id
      ensures stopped <==> old(stopped) || pendingRemove
    {
      var current := region;
      regions := [current];
      fault := EpochFault(Epoch(current.epoch.confVer, current.epoch.version), req);
      if fault != Fine {
        return;
      }
      match req.cmd {
        case ChangePeer(ct, peer) =>
          var changed, removed;
          fault, changed, removed := ExecChangePeer(current, id, ct, peer);
          if fault == Fine {
            if removed {
              stopped, pendingRemove := true, true;
            }
            region := changed;
            regions := [changed];
          }
        case BatchSplit(reqs, rightDerive) =>
          var parts, derived;
          fault, parts, derived := ExecBatchSplit(current, reqs, rightDerive);
          if fault == Fine {
            region := derived;
            regions := parts;
          }
        case TransferLeader =>
          fault := Unsupported;
        case InvalidAdmin =>
          fault := Unsupported;
        case Write =>
        case CompactLog =>
        case ComputeHash =>
        case VerifyHash =>
      }
    }
  }
}
