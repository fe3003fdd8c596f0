/**
 Leader lease and the remote leases handed to the local reader (raftstore/util.go).

 A Go time has a wall reading, in nanoseconds since the Unix epoch, and, if it comes from the clock, a
 monotonic one. Two times that both have a monotonic reading are compared by it, others by the wall.
 */
module Lease {
  import opened Options

  datatype LeaseState = Suspect | Valid | Expired

  const NSEC_PER_SEC := 1_000_000_000
  const NSEC_PER_MSEC := 1_000_000
  const SEC_SHIFT := 1024                       // 1 << SecShift
  const U64 := 0x1_0000_0000_0000_0000
  const MAX_DURATION := 0x7fff_ffff_ffff_ffff

  // ---------------------------------------------------------------------------
  // Times
  // ---------------------------------------------------------------------------

  datatype Time = Time(wall: int, mono: Option<int>)

  const ZERO_TIME := Time(-62_135_596_800 * NSEC_PER_SEC, None)

  predicate Before(a: Time, b: Time) {
    if a.mono.Some? && b.mono.Some? then a.mono.value < b.mono.value else a.wall < b.wall
  }

  function Add(t: Time, d: int): Time {
    Time(t.wall + d, if t.mono.Some? then Some(t.mono.value + d) else None)
  }

  /** `Time.Sub` saturates. */
  function Sub(a: Time, b: Time): int {
    var d := if a.mono.Some? && b.mono.Some? then a.mono.value - b.mono.value else a.wall - b.wall;
    if d > MAX_DURATION then MAX_DURATION else if d < -MAX_DURATION - 1 then -MAX_DURATION - 1 else d
  }

  /** The reading that decides among times that all have a monotonic one, or all have none. */
  function Tick(t: Time): int {
    if t.mono.Some? then t.mono.value else t.wall
  }

  /** How far the wall clock is ahead of the monotonic one; setting the wall clock back lowers it. */
  function Offset(t: Time): int {
    t.wall - Tick(t)
  }

  // ---------------------------------------------------------------------------
  // Millisecond rounding
  // ---------------------------------------------------------------------------

  /** `t.Unix()` and `t.Nanosecond()`: floor division, so the nanoseconds are never negative. */
  function Seconds(t: int): int { t / NSEC_PER_SEC }

  function Nanos(t: int): nat { t % NSEC_PER_SEC }

  /** `uint64(sec) << SecShift | msec`: milliseconds stay below 1000 and so below the shift. */
  function TimeToU64(t: int): (u: nat)
    ensures u < U64
  {
    ShiftWraps(Seconds(t));
    (Seconds(t) * SEC_SHIFT) % U64 + Nanos(t) / NSEC_PER_MSEC
  }

  /** A shift by ten bits keeps the low 54 bits of the seconds. */
  lemma ShiftWraps(sec: int)
    ensures (sec * SEC_SHIFT) % U64 == (sec % 0x40_0000_0000_0000) * SEC_SHIFT
  {
    var wrapped, turns := sec % 0x40_0000_0000_0000, sec / 0x40_0000_0000_0000;
    assert sec * SEC_SHIFT == turns * U64 + wrapped * SEC_SHIFT;
  }

  function U64ToTime(u: nat): int {
    (u / SEC_SHIFT) * NSEC_PER_SEC + (u % SEC_SHIFT) * NSEC_PER_MSEC
  }

  /** What the pair of conversions does: seconds wrap at 2^54, the rest is cut to milliseconds. */
  lemma ConversionShape(t: int)
    ensures U64ToTime(TimeToU64(t)) ==
            (Seconds(t) % 0x40_0000_0000_0000) * NSEC_PER_SEC + Nanos(t) / NSEC_PER_MSEC * NSEC_PER_MSEC
  {
    var msec := Nanos(t) / NSEC_PER_MSEC;
    assert msec < 1000;
    var wrapped := Seconds(t) % 0x40_0000_0000_0000;
    ShiftWraps(Seconds(t));
    assert TimeToU64(t) == wrapped * SEC_SHIFT + msec;
    assert TimeToU64(t) / SEC_SHIFT == wrapped;
    assert TimeToU64(t) % SEC_SHIFT == msec;
  }

  /** Rounding never lengthens a lease, exactly for times that are not before 1970. */
  lemma RoundTripNeverLater(t: int)
    ensures U64ToTime(TimeToU64(t)) <= t <==> t >= 0
  {
    ConversionShape(t);
  }

  /** The wall time a remote of this bound goes by. */
  function Rounded(wall: int): int {
    U64ToTime(TimeToU64(wall))
  }

  // ---------------------------------------------------------------------------
  // The lease as a state machine
  // ---------------------------------------------------------------------------

  /** The expiry cell that a lease shares with the clone it handed out. */
  datatype Remote = Remote(expiredTime: nat, term: nat)

  /**
   `remotes` lists every cell ever handed out; `attached` is the one the lease still updates, and `source` the
   bound it was last rounded from.
   */
  datatype State = State(
    boundSuspect: Option<Time>,
    boundValid: Option<Time>,
    maxLease: nat,
    lastUpdate: Time,
    attached: Option<nat>,
    source: Option<Time>,
    remotes: seq<Remote>)

  datatype Op = Renew(sendTs: Time) | Suspend(sendTs: Time) | Expire | ExpireRemote | NewRemote(term: nat)

  function NewState(maxLease: nat): State {
    State(None, None, maxLease, ZERO_TIME, None, None, [])
  }

  function MaxDrift(s: State): nat { s.maxLease / 3 }

  function WallToU64(bound: Option<Time>): nat {
    if bound.Some? then TimeToU64(bound.value.wall) else 0
  }

  /** Rounds a bound, or none, into the attached cell. */
  function SetAttached(s: State, bound: Option<Time>): State {
    if s.attached.Some? && s.attached.value < |s.remotes| then
      var i := s.attached.value;
      s.(remotes := s.remotes[i := s.remotes[i].(expiredTime := WallToU64(bound))], source := bound)
    else s
  }

  function DoExpireRemote(s: State): State {
    SetAttached(s, None).(attached := None)
  }

  /** A later bound takes over, also from a suspect one that it outlasts. */
  function Extended(s: State, bound: Time): State {
    if s.boundSuspect.Some? then
      if Before(s.boundSuspect.value, bound) then s.(boundSuspect := None, boundValid := Some(bound)) else s
    else if s.boundValid.Some? then
      if Before(s.boundValid.value, bound) then s.(boundValid := Some(bound)) else s
    else
      s.(boundValid := Some(bound))
  }

  /** The remote follows once the bound has moved on by more than the drift. */
  function FollowedUp(s: State): State {
    if s.boundValid.Some? && Sub(s.boundValid.value, s.lastUpdate) > MaxDrift(s)
    then SetAttached(s, s.boundValid).(lastUpdate := s.boundValid.value)
    else s
  }

  function DoRenew(s: State, sendTs: Time): State {
    FollowedUp(Extended(s, Add(sendTs, s.maxLease)))
  }

  function DoNewRemote(s: State, term: nat): State {
    if s.attached.Some? then s
    else
      s.(remotes := s.remotes + [Remote(WallToU64(s.boundValid), term)],
         attached := Some(|s.remotes|), source := s.boundValid)
  }

  function Step(s: State, op: Op): State {
    match op
    case Renew(sendTs) => DoRenew(s, sendTs)
    case Suspend(sendTs) => DoExpireRemote(s).(boundValid := None, boundSuspect := Some(Add(sendTs, s.maxLease)))
    case Expire => DoExpireRemote(s).(boundValid := None, boundSuspect := None)
    case ExpireRemote => DoExpireRemote(s)
    case NewRemote(term) => DoNewRemote(s, term)
  }

  /** `MaybeNewRemoteLease` panics when a remote of another term is still attached. */
  predicate Panics(s: State, op: Op) {
    op.NewRemote? && s.attached.Some? && s.attached.value < |s.remotes| && s.remotes[s.attached.value].term != op.term
  }

  function Run(s: State, ops: seq<Op>): State
    decreases |ops|
  {
    if ops == [] then s else Run(Step(s, ops[0]), ops[1..])
  }

  function InspectLease(s: State, ts: Time): LeaseState {
    if s.boundSuspect.Some? then Suspect
    else if s.boundValid.Some? && Before(ts, s.boundValid.value) then Valid
    else Expired
  }

  /** The time a cell stands for has no monotonic reading. */
  function InspectRemote(r: Remote, ts: Time): LeaseState {
    if Before(ts, Time(U64ToTime(r.expiredTime), None)) then Valid else Expired
  }

  // ---------------------------------------------------------------------------
  // What every run keeps
  // ---------------------------------------------------------------------------

  /** At most one bound; detached cells are zero; the attached one is zero, or its source bound rounded while
      there is a valid bound. */
  ghost predicate Inv(s: State) {
    && !(s.boundSuspect.Some? && s.boundValid.Some?)
    && (s.attached.Some? ==> s.attached.value < |s.remotes|)
    && (s.attached.Some? && s.source.Some? ==> s.boundValid.Some?)
    && (forall i :: 0 <= i < |s.remotes| ==>
          s.remotes[i].expiredTime == if s.attached == Some(i) then WallToU64(s.source) else 0)
  }

  lemma StepInv(s: State, op: Op)
    requires Inv(s)
    ensures Inv(Step(s, op)) && Step(s, op).maxLease == s.maxLease
  {
  }

  /** A detached cell is never touched again. */
  lemma StepDetached(s: State, op: Op, i: nat)
    requires i < |s.remotes| && s.attached != Some(i)
    ensures i < |Step(s, op).remotes| && Step(s, op).remotes[i] == s.remotes[i] && Step(s, op).attached != Some(i)
  {
  }

  lemma {:induction false} RunInv(s: State, ops: seq<Op>)
    requires Inv(s)
    ensures Inv(Run(s, ops)) && Run(s, ops).maxLease == s.maxLease
    decreases |ops|
  {
    if ops != [] {
      StepInv(s, ops[0]);
      RunInv(Step(s, ops[0]), ops[1..]);
    }
  }

  lemma {:induction false} RunDetached(s: State, ops: seq<Op>, i: nat)
    requires i < |s.remotes| && s.attached != Some(i)
    ensures i < |Run(s, ops).remotes| && Run(s, ops).remotes[i] == s.remotes[i]
    decreases |ops|
  {
    if ops != [] {
      StepDetached(s, ops[0], i);
      RunDetached(Step(s, ops[0]), ops[1..], i);
    }
  }

  /**
   A renewal at `sendTs`: the valid bound becomes the later of the old one and `sendTs` plus the lease; a suspect
   bound that this outlasts gives way to it, one that it does not stays. The attached cell follows as soon as the
   bound is more than a third of the lease past the last update.
   */
  lemma RenewMeaning(s: State, sendTs: Time)
    requires Inv(s)
    ensures var s', end := Step(s, Renew(sendTs)), Add(sendTs, s.maxLease);
      && (s.boundSuspect.Some? && !Before(s.boundSuspect.value, end) ==>
            s'.boundSuspect == s.boundSuspect && s'.boundValid.None? && s'.remotes == s.remotes)
      && (s.boundSuspect.Some? && Before(s.boundSuspect.value, end) ==>
            s'.boundSuspect.None? && s'.boundValid == Some(end))
      && (s.boundSuspect.None? ==>
            && s'.boundSuspect.None? && s'.boundValid.Some? && s'.boundValid in {Some(end), s.boundValid}
            && !Before(s'.boundValid.value, end)
            && (s.boundValid.Some? ==> !Before(s'.boundValid.value, s.boundValid.value)))
      && (s'.boundValid.Some? ==>
            && Sub(s'.boundValid.value, s'.lastUpdate) <= s.maxLease / 3
            && (s.attached.Some? ==>
                  && |s'.remotes| == |s.remotes|
                  && s'.remotes[s.attached.value].expiredTime ==
                     if Sub(s'.boundValid.value, s.lastUpdate) > s.maxLease / 3
                     then TimeToU64(s'.boundValid.value.wall)
                     else s.remotes[s.attached.value].expiredTime))
  {
  }

  /** A renewal leaves the lease valid at the time it was sent, unless a suspect bound outlasts it. */
  lemma RenewedIsValid(s: State, sendTs: Time)
    requires Inv(s) && s.maxLease > 0
    requires s.boundSuspect.Some? ==> Before(s.boundSuspect.value, Add(sendTs, s.maxLease))
    requires s.boundValid.Some? ==> s.boundValid.value.mono.Some? == sendTs.mono.Some?
    ensures InspectLease(Step(s, Renew(sendTs)), sendTs) == Valid
  {
  }

  /** A suspended lease is suspect at all times and an expired one expired. */
  lemma EndedLease(s: State, sendTs: Time, ts: Time)
    ensures InspectLease(Step(s, Suspend(sendTs)), ts) == Suspect
    ensures Step(s, Suspend(sendTs)).boundSuspect == Some(Add(sendTs, s.maxLease))
    ensures InspectLease(Step(s, Expire), ts) == Expired
  {
  }

  // ---------------------------------------------------------------------------
  // Safety over every run
  // ---------------------------------------------------------------------------

  /** A bound of the same kind as the other times, not before 1970, made when the wall clock was no further ahead
      than by `ahead`. */
  predicate Sound(bound: Time, stamped: bool, ahead: int) {
    bound.mono.Some? == stamped && bound.wall >= 0 && Offset(bound) <= ahead
  }

  predicate SoundOp(maxLease: nat, op: Op, stamped: bool, ahead: int) {
    op.Renew? ==> Sound(Add(op.sendTs, maxLease), stamped, ahead)
  }

  /** The valid bound and the one the attached cell was rounded from are sound, the latter being no later. */
  ghost predicate Kept(s: State, stamped: bool, ahead: int) {
    && Inv(s)
    && (s.boundValid.Some? ==> Sound(s.boundValid.value, stamped, ahead))
    && (s.attached.Some? && s.source.Some? ==>
          Sound(s.source.value, stamped, ahead) && Tick(s.source.value) <= Tick(s.boundValid.value))
  }

  lemma StepKept(s: State, op: Op, stamped: bool, ahead: int)
    requires Kept(s, stamped, ahead) && SoundOp(s.maxLease, op, stamped, ahead)
    ensures Kept(Step(s, op), stamped, ahead)
  {
    StepInv(s, op);
  }

  lemma {:induction false} RunKept(s: State, ops: seq<Op>, stamped: bool, ahead: int)
    requires Kept(s, stamped, ahead) && forall k :: 0 <= k < |ops| ==> SoundOp(s.maxLease, ops[k], stamped, ahead)
    ensures Kept(Run(s, ops), stamped, ahead)
    decreases |ops|
  {
    if ops != [] {
      StepKept(s, ops[0], stamped, ahead);
      StepInv(s, ops[0]);
      RunKept(Step(s, ops[0]), ops[1..], stamped, ahead);
    }
  }

  /**
   Whenever any remote ever handed out says Valid, the lease itself says Valid: if all bounds and times are from
   1970 on, and at no renewal the wall clock was further ahead of the monotonic one than it is now.
   */
  lemma LeaseSafety(maxLease: nat, ops: seq<Op>, i: nat, ts: Time)
    requires forall k :: 0 <= k < |ops| ==> SoundOp(maxLease, ops[k], ts.mono.Some?, Offset(ts))
    requires i < |Run(NewState(maxLease), ops).remotes| && ts.wall >= 0
    ensures var s := Run(NewState(maxLease), ops);
      InspectRemote(s.remotes[i], ts) == Valid ==> InspectLease(s, ts) == Valid
  {
    var s := Run(NewState(maxLease), ops);
    RunKept(NewState(maxLease), ops, ts.mono.Some?, Offset(ts));
    if s.attached == Some(i) && s.source.Some? { RoundTripNeverLater(s.source.value.wall); }
  }

  /** The attached remote implies the lease for all times at which the wall clock is ahead by `ahead`. */
  ghost predicate SafeAt(s: State, r: Remote, ahead: int) {
    forall ts: Time :: ts.mono.Some? && Offset(ts) == ahead && InspectRemote(r, ts) == Valid ==>
      InspectLease(s, ts) == Valid
  }

  /** With the wall clock ahead by `ahead`, the attached remote is safe exactly when that takes the wall time at the
      end of the lease up to the rounded time in the cell. */
  lemma SafeExactly(s: State, i: nat, bound: Time, source: Time, ahead: int)
    requires Inv(s) && s.attached == Some(i) && s.source == Some(source)
    requires s.boundValid == Some(bound) && bound.mono.Some?
    ensures SafeAt(s, s.remotes[i], ahead) <==> Tick(bound) + ahead >= Rounded(source.wall)
  {
    var end := Time(bound.mono.value + ahead, bound.mono);
    if Tick(bound) + ahead < Rounded(source.wall) {
      assert InspectRemote(s.remotes[i], end) == Valid && InspectLease(s, end) == Expired;
    }
  }

  lemma RunTwo(s: State, a: Op, b: Op)
    ensures Run(s, [a, b]) == Step(Step(s, a), b)
  {
    assert [a, b][1..] == [b];
    assert Run(Step(s, a), [b]) == Run(Step(Step(s, a), b), []);
  }

  /** After a renewal: once the lease has run out, with the wall clock set back by `back` in between, the remote still
      says Valid exactly when that is more than rounding took off. */
  lemma ClockSetBack(maxLease: nat, sendTs: Time, back: nat)
    requires sendTs.mono.Some?
    ensures var bound, s := Add(sendTs, maxLease), Run(NewState(maxLease), [Renew(sendTs), NewRemote(1)]);
      var ts := bound.(wall := bound.wall - back);
      && |s.remotes| == 1 && InspectLease(s, ts) == Expired
      && (InspectRemote(s.remotes[0], ts) == Valid <==> back > bound.wall - Rounded(bound.wall))
  {
    RunTwo(NewState(maxLease), Renew(sendTs), NewRemote(1));
  }

  /** The wall clock is set back by five seconds while a lease of one second runs out. */
  lemma ClockStepWitness()
    ensures var s := Run(NewState(1 * NSEC_PER_SEC),
        [Renew(Time(9 * NSEC_PER_SEC, Some(9 * NSEC_PER_SEC))), NewRemote(1)]);
      var ts := Time(5 * NSEC_PER_SEC, Some(10 * NSEC_PER_SEC));
      |s.remotes| == 1 && InspectRemote(s.remotes[0], ts) == Valid && InspectLease(s, ts) == Expired
  {
    ConversionShape(10 * NSEC_PER_SEC);
    ClockSetBack(1 * NSEC_PER_SEC, Time(9 * NSEC_PER_SEC, Some(9 * NSEC_PER_SEC)), 5 * NSEC_PER_SEC);
  }

  /** A remote that was expired through its lease never says Valid again, whatever happens next. */
  lemma ExpiredStaysExpired(maxLease: nat, ops: seq<Op>, op: Op, later: seq<Op>, i: nat, ts: Time)
    requires op.Suspend? || op.Expire? || op.ExpireRemote?
    requires i < |Run(NewState(maxLease), ops).remotes| && ts.wall >= 0
    ensures var end := Run(Step(Run(NewState(maxLease), ops), op), later);
      i < |end.remotes| && InspectRemote(end.remotes[i], ts) == Expired
  {
    var s := Run(NewState(maxLease), ops);
    RunInv(NewState(maxLease), ops);
    assert i < |Step(s, op).remotes| && Step(s, op).remotes[i].expiredTime == 0 && Step(s, op).attached.None?;
    RunDetached(Step(s, op), later, i);
  }

  /** The conditions on 1970 are needed with a steady clock too: a bound before it wraps to a remote that outlives its
      lease, and an expired remote says Valid about times before it. */
  lemma EpochConditionsNeeded(mono: int)
    ensures var s, ts := Run(NewState(0), [Renew(Time(-1, Some(mono))), NewRemote(1)]), Time(0, Some(mono + 1));
      && |s.remotes| == 1 && InspectRemote(s.remotes[0], ts) == Valid && InspectLease(s, ts) == Expired
      && Offset(ts) == Offset(Time(-1, Some(mono)))
    ensures var s, ts := Step(NewState(0), NewRemote(1)), Time(-1, Some(mono));
      InspectRemote(s.remotes[0], ts) == Valid && InspectLease(s, ts) == Expired
  {
    RunTwo(NewState(0), Renew(Time(-1, Some(mono))), NewRemote(1));
    ConversionShape(-1);
  }

  // ---------------------------------------------------------------------------
  // The objects: a lease and its clones share one expiry cell
  // ---------------------------------------------------------------------------

  class ExpiryCell {
    var time: nat

    constructor (time: nat)
      ensures this.time == time
    {
      this.time := time;
    }
  }

  class RemoteLease {
    const expiredTime: ExpiryCell
    const term: nat

    constructor (expiredTime: ExpiryCell, term: nat)
      ensures this.expiredTime == expiredTime && this.term == term
    {
      this.expiredTime, this.term := expiredTime, term;
    }

    function View(): Remote
      reads expiredTime
    {
      Remote(expiredTime.time, term)
    }

    method Inspect(ts: Time) returns (state: LeaseState)
      ensures state == InspectRemote(View(), ts)
    {
      state := if Before(ts, Time(U64ToTime(expiredTime.time), None)) then LeaseState.Valid else Expired;
    }

    method Renew(bound: Time)
      modifies expiredTime
      ensures View() == Remote(TimeToU64(bound.wall), term)
    {
      expiredTime.time := TimeToU64(bound.wall);
    }

    method Expire()
      modifies expiredTime
      ensures View() == Remote(0, term)
    {
      expiredTime.time := 0;
    }
  }

  class LeaderLease {
    var boundSuspect: Option<Time>
    var boundValid: Option<Time>
    const maxLease: nat
    const maxDrift: nat
    var lastUpdate: Time
    var remote: RemoteLease?

    ghost var issued: seq<RemoteLease>  // every clone handed out, oldest first
    ghost var attached: nat             // the clone that shares its cell with `remote`
    ghost var source: Option<Time>      // the bound that cell was last rounded from

    ghost function Cells(): set<ExpiryCell>
      reads this
    {
      set r | r in issued :: r.expiredTime
    }

    ghost predicate Valid()
      reads this
    {
      && maxDrift == maxLease / 3
      && (forall i, j :: 0 <= i < j < |issued| ==> issued[i].expiredTime != issued[j].expiredTime)
      && (remote != null ==>
            attached < |issued| && remote.expiredTime == issued[attached].expiredTime &&
              remote.term == issued[attached].term)
    }

    ghost function Abs(): State
      reads this, Cells()
    {
      State(boundSuspect, boundValid, maxLease, lastUpdate,
            if remote == null then None else Some(attached), source,
            seq(|issued|, i requires 0 <= i < |issued| reads this, Cells() => issued[i].View()))
    }

    constructor (maxLease: nat)
      ensures Valid() && Abs() == NewState(maxLease)
    {
      boundSuspect, boundValid := None, None;
      this.maxLease, maxDrift := maxLease, maxLease / 3;
      lastUpdate, remote := ZERO_TIME, null;
      issued, attached, source := [], 0, None;
    }

    method Inspect(ts: Time) returns (state: LeaseState)
      requires Valid()
      ensures state == InspectLease(Abs(), ts)
    {
      state := if boundSuspect.Some? then LeaseState.Suspect
               else if boundValid.Some? && Before(ts, boundValid.value) then LeaseState.Valid
               else Expired;
    }

    method Extend(bound: Time)
      requires Valid()
      modifies `boundSuspect, `boundValid
      ensures Valid() && Abs() == Extended(old(Abs()), bound)
    {
      if boundSuspect.Some? {
        if Before(boundSuspect.value, bound) {
          boundSuspect, boundValid := None, Some(bound);
        }
      } else if boundValid.Some? {
        if Before(boundValid.value, bound) {
          boundValid := Some(bound);
        }
      } else {
        boundValid := Some(bound);
      }
      assert Abs().remotes == Extended(old(Abs()), bound).remotes;
    }

    method FollowUp()
      requires Valid()
      modifies `lastUpdate, `source, Cells()
      ensures Valid() && Abs() == FollowedUp(old(Abs()))
    {
      if boundValid.Some? && Sub(boundValid.value, lastUpdate) > maxDrift {
        lastUpdate := boundValid.value;
        if remote != null {
          assert issued[attached] in issued;
          remote.Renew(boundValid.value);
          source := boundValid;
        }
      }
      assert Abs().remotes == FollowedUp(old(Abs())).remotes;
    }

    method Renew(sendTs: Time)
      requires Valid()
      modifies this, Cells()
      ensures Valid() && issued == old(issued)
      ensures Abs() == Step(old(Abs()), Op.Renew(sendTs))
    {
      Extend(Add(sendTs, maxLease));
      FollowUp();
    }

    method ExpireRemoteLease()
      requires Valid()
      modifies `remote, `source, Cells()
      ensures Valid()
      ensures Abs() == Step(old(Abs()), ExpireRemote)
    {
      if remote != null {
        assert issued[attached] in issued;
        remote.Expire();
        remote, source := null, None;
      }
      assert Abs().remotes == Step(old(Abs()), ExpireRemote).remotes;
    }

    method Suspect(sendTs: Time)
      requires Valid()
      modifies this, Cells()
      ensures Valid() && issued == old(issued)
      ensures Abs() == Step(old(Abs()), Suspend(sendTs))
    {
      ExpireRemoteLease();
      boundValid, boundSuspect := None, Some(Add(sendTs, maxLease));
    }

    method Expire()
      requires Valid()
      modifies this, Cells()
      ensures Valid() && issued == old(issued)
      ensures Abs() == Step(old(Abs()), Op.Expire)
    {
      ExpireRemoteLease();
      boundValid, boundSuspect := None, None;
    }

    /** Returns no lease when one of this term is attached; `panicked` when one of another term is. */
    method MaybeNewRemoteLease(term: nat) returns (clone: RemoteLease?, panicked: bool)
      requires Valid()
      modifies this
      ensures Valid()
      ensures panicked == Panics(old(Abs()), NewRemote(term))
      ensures clone == null <==> old(remote) != null
      ensures clone != null ==> issued == old(issued) + [clone] && fresh(clone.expiredTime)
      ensures Abs() == Step(old(Abs()), NewRemote(term))
    {
      clone, panicked := null, false;
      if remote != null {
        panicked := remote.term != term;
        return;
      }
      var cell := new ExpiryCell(if boundValid.Some? then TimeToU64(boundValid.value.wall) else 0);
      remote := new RemoteLease(cell, term);
      clone := new RemoteLease(cell, term);
      attached, issued, source := |issued|, issued + [clone], boundValid;
      assert Abs().remotes == Step(old(Abs()), NewRemote(term)).remotes;
    }
  }
}
