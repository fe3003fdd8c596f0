/**
 Key latches of a region (raftstore/region.go).

 A session is one `acquire` call followed by the matching `release`. Its wait group is
 identified with the session's number. Every access to a slot map happens under the
 slot's mutex, so the atomic steps are: one lookup-or-insert of `acquireOne`, waking up
 from `Wait`, one deletion of `release`, and the final `Done`.
 */
module Latches {
  import opened Options

  type Hash = h: nat | h < 0x1_0000_0000_0000_0000

  /** Where a session stands. `wg` is the variable `w` of `release`. */
  datatype Phase =
    | Acquiring(next: nat)
    | Waiting(next: nat, holder: nat)
    | Releasing(next: nat, wg: Option<nat>)
    | Finished

  datatype Session = Session(hashes: seq<Hash>, phase: Phase)

  /** `table` is the union of the 256 slot maps, `done` the wait groups that were signalled. */
  datatype State = State(table: map<Hash, nat>, sessions: seq<Session>, done: set<nat>)

  predicate StrictlySorted(hashes: seq<Hash>) {
    forall i, j :: 0 <= i < j < |hashes| ==> hashes[i] < hashes[j]
  }

  function Init(lists: seq<seq<Hash>>): (s: State) {
    State(map[], seq(|lists|, i requires 0 <= i < |lists| => Session(lists[i], Acquiring(0))), {})
  }

  predicate Enabled(s: State, i: nat) {
    i < |s.sessions| &&
    match s.sessions[i].phase
    case Finished => false
    case Waiting(_, holder) => holder in s.done
    case Acquiring(n) => n <= |s.sessions[i].hashes|
    case Releasing(n, _) => n <= |s.sessions[i].hashes|
  }

  function Goto(s: State, i: nat, phase: Phase): State
    requires i < |s.sessions|
  {
    s.(sessions := s.sessions[i := s.sessions[i].(phase := phase)])
  }

  /** The next atomic step of session `i`. */
  function Step(s: State, i: nat): State
    requires Enabled(s, i)
  {
    var hashes := s.sessions[i].hashes;
    match s.sessions[i].phase
    case Acquiring(n) =>
      if n == |hashes| then
        Goto(s, i, Releasing(0, None))
      else if hashes[n] in s.table then
        Goto(s, i, Waiting(n, s.table[hashes[n]]))
      else
        Goto(s, i, Acquiring(n + 1)).(table := s.table[hashes[n] := i])
    case Waiting(n, _) =>
      Goto(s, i, Acquiring(n))
    case Releasing(n, wg) =>
      if n == |hashes| then
        Goto(s, i, Finished).(done := if wg.Some? then s.done + {wg.value} else s.done)
      else
        var wg' := if wg.None? && hashes[n] in s.table then Some(s.table[hashes[n]]) else wg;
        Goto(s, i, Releasing(n + 1, wg')).(table := s.table - {hashes[n]})
  }

  /** A schedule lists which session moves at each point. */
  predicate Executable(s: State, schedule: seq<nat>)
    decreases |schedule|
  {
    schedule == [] || (Enabled(s, schedule[0]) && Executable(Step(s, schedule[0]), schedule[1..]))
  }

  function Run(s: State, schedule: seq<nat>): State
    requires Executable(s, schedule)
    decreases |schedule|
  {
    if schedule == [] then s else Run(Step(s, schedule[0]), schedule[1..])
  }

  // ---------------------------------------------------------------------------
  // Safety
  // ---------------------------------------------------------------------------

  /** Session `i` is inside its critical section for position `k` of its hash list. */
  ghost predicate HoldsAt(s: State, i: nat, k: nat) {
    i < |s.sessions| && k < |s.sessions[i].hashes| &&
    match s.sessions[i].phase
    case Acquiring(n) => k < n
    case Waiting(n, _) => k < n
    case Releasing(n, _) => n <= k
    case Finished => false
  }

  ghost predicate Holds(s: State, i: nat, h: Hash) {
    exists k: nat :: HoldsAt(s, i, k) && s.sessions[i].hashes[k] == h
  }

  ghost predicate WellFormed(s: State) {
    forall i :: 0 <= i < |s.sessions| ==>
      var session := s.sessions[i];
      StrictlySorted(session.hashes) &&
      match session.phase
      case Acquiring(n) => n <= |session.hashes|
      case Waiting(n, holder) => n < |session.hashes| && holder < |s.sessions|
      case Releasing(n, wg) =>
        n <= |session.hashes| && wg == (if n == 0 then None else Some(i))
      case Finished => true
  }

  ghost predicate Recorded(s: State, i: nat, k: nat) {
    i < |s.sessions| && k < |s.sessions[i].hashes|
    && s.sessions[i].hashes[k] in s.table && s.table[s.sessions[i].hashes[k]] == i
  }

  /** The table records exactly who is inside which critical section. */
  ghost predicate TableExact(s: State) {
    && (forall i: nat, k: nat :: HoldsAt(s, i, k) ==> Recorded(s, i, k))
    && (forall h :: h in s.table ==> Holds(s, s.table[h], h))
  }

  /** Only finished sessions were signalled; whoever is waited for held the hash, and still does
      until it is released or finished. */
  ghost predicate WaitsJustified(s: State) {
    && (forall i :: 0 <= i < |s.sessions| && s.sessions[i].phase.Finished? && s.sessions[i].hashes != [] ==>
      i in s.done)
    && (forall i: nat :: i in s.done ==> i < |s.sessions| && s.sessions[i].phase.Finished?)
    && (forall i :: 0 <= i < |s.sessions| && s.sessions[i].phase.Waiting? ==>
          var holder := s.sessions[i].phase.holder;
          && holder < |s.sessions|
          && s.sessions[holder].hashes != []
          && (s.sessions[holder].phase.Acquiring? || s.sessions[holder].phase.Waiting? ==>
                s.sessions[i].phase.next < |s.sessions[i].hashes| &&
                Holds(s, holder, s.sessions[i].hashes[s.sessions[i].phase.next])))
  }

  ghost predicate Inv(s: State) {
    WellFormed(s) && TableExact(s) && WaitsJustified(s)
  }

  lemma InitInv(lists: seq<seq<Hash>>)
    requires forall i :: 0 <= i < |lists| ==> StrictlySorted(lists[i])
    ensures Inv(Init(lists))
  {
  }

  lemma StepWellFormed(s: State, i: nat)
    requires Inv(s) && Enabled(s, i)
    ensures WellFormed(Step(s, i))
  {
    var session := s.sessions[i];
    if session.phase.Releasing? && session.phase.next < |session.hashes| {
      assert HoldsAt(s, i, session.phase.next);
    }
    if session.phase.Acquiring? && session.phase.next < |session.hashes| &&
      session.hashes[session.phase.next] in s.table {
      var h := session.hashes[session.phase.next];
      assert Holds(s, s.table[h], h);
    }
  }

  /** Whoever holds a hash after the step is the one the table names. */
  lemma StepHeldRecorded(s: State, i: nat, j: nat, k: nat)
    requires Inv(s) && Enabled(s, i) && HoldsAt(Step(s, i), j, k)
    ensures Recorded(Step(s, i), j, k)
  {
    var hashes := s.sessions[i].hashes;
    match s.sessions[i].phase
    case Acquiring(n) =>
      if !(j == i && k == n) { assert HoldsAt(s, j, k); assert Recorded(s, j, k); }
    case Waiting(n, _) =>
      assert HoldsAt(s, j, k);
    case Releasing(n, _) =>
      assert HoldsAt(s, j, k);
      if n < |hashes| {
        assert HoldsAt(s, i, n) && Recorded(s, i, n);
        assert j == i ==> hashes[n] != hashes[k];
      }
  }

  /** Whoever the table names after the step holds the hash. */
  lemma StepRecordedHeld(s: State, i: nat, h: Hash)
    requires Inv(s) && Enabled(s, i) && h in Step(s, i).table
    ensures Holds(Step(s, i), Step(s, i).table[h], h)
  {
    var s' := Step(s, i);
    var n := s.sessions[i].phase.next;
    if h in s.table {
      var j := s.table[h];
      var k: nat :| HoldsAt(s, j, k) && s.sessions[j].hashes[k] == h;
      assert s'.table[h] == j;
      if j == i && s.sessions[i].phase.Releasing? {
        assert k != n;
      }
      assert HoldsAt(s', j, k);
    } else {
      assert HoldsAt(s', i, n);
    }
  }

  lemma StepTable(s: State, i: nat, s': State)
    requires Inv(s) && Enabled(s, i) && s' == Step(s, i)
    ensures TableExact(s')
  {
    forall j: nat, k: nat | HoldsAt(s', j, k)
      ensures Recorded(s', j, k)
    {
      StepHeldRecorded(s, i, j, k);
    }
    forall h | h in s'.table
      ensures Holds(s', s'.table[h], h)
    {
      StepRecordedHeld(s, i, h);
    }
  }

  lemma StepWaits(s: State, i: nat)
    requires Inv(s) && Enabled(s, i)
    ensures WaitsJustified(Step(s, i))
  {
    var s' := Step(s, i);
    forall j | 0 <= j < |s'.sessions| && s'.sessions[j].phase.Waiting?
      ensures
        var holder := s'.sessions[j].phase.holder;
        && holder < |s'.sessions|
        && s'.sessions[holder].hashes != []
        && (s'.sessions[holder].phase.Acquiring? || s'.sessions[holder].phase.Waiting? ==>
              s'.sessions[j].phase.next < |s'.sessions[j].hashes| &&
              Holds(s', holder, s'.sessions[j].hashes[s'.sessions[j].phase.next]))
    {
      var holder := s'.sessions[j].phase.holder;
      var h := s.sessions[j].hashes[s'.sessions[j].phase.next];
      if j == i {
        assert Holds(s, s.table[h], h);
      }
      if s'.sessions[holder].phase.Acquiring? || s'.sessions[holder].phase.Waiting? {
        assert Holds(s, holder, h);
        var k: nat :| HoldsAt(s, holder, k) && s.sessions[holder].hashes[k] == h;
        assert HoldsAt(s', holder, k);
      }
    }
  }

  lemma StepInv(s: State, i: nat)
    requires Inv(s) && Enabled(s, i)
    ensures Inv(Step(s, i))
  {
    StepWellFormed(s, i);
    StepTable(s, i, Step(s, i));
    StepWaits(s, i);
  }

  lemma {:induction false} RunInv(s: State, schedule: seq<nat>)
    requires Inv(s) && Executable(s, schedule)
    ensures Inv(Run(s, schedule))
    ensures |Run(s, schedule).sessions| == |s.sessions|
    decreases |schedule|
  {
    if schedule != [] {
      StepInv(s, schedule[0]);
      RunInv(Step(s, schedule[0]), schedule[1..]);
    }
  }

  /** In every interleaving no hash has two holders, and a deletion only ever removes the entry
      of the session that performs it; the wait group that `release` signals is its own. */
  lemma Safety(lists: seq<seq<Hash>>, schedule: seq<nat>)
    requires forall i :: 0 <= i < |lists| ==> StrictlySorted(lists[i])
    requires Executable(Init(lists), schedule)
    ensures var s := Run(Init(lists), schedule);
      && (forall h, i, j :: Holds(s, i, h) && Holds(s, j, h) ==> i == j)
      && (forall i :: 0 <= i < |s.sessions| && s.sessions[i].phase.Releasing? ==>
            var session := s.sessions[i];
            && (session.phase.next < |session.hashes| ==>
                  var h := session.hashes[session.phase.next];
                  h in s.table && s.table[h] == i)
            && (session.phase.next == |session.hashes| > 0 ==> session.phase.wg == Some(i)))
  {
    InitInv(lists);
    RunInv(Init(lists), schedule);
    var s := Run(Init(lists), schedule);
    forall i | 0 <= i < |s.sessions| && s.sessions[i].phase.Releasing? &&
      s.sessions[i].phase.next < |s.sessions[i].hashes|
      ensures s.sessions[i].hashes[s.sessions[i].phase.next] in s.table &&
        s.table[s.sessions[i].hashes[s.sessions[i].phase.next]] == i
    {
      assert HoldsAt(s, i, s.sessions[i].phase.next);
    }
  }

  // ---------------------------------------------------------------------------
  // No deadlock
  // ---------------------------------------------------------------------------

  predicate AllFinished(s: State) {
    forall i :: 0 <= i < |s.sessions| ==> s.sessions[i].phase.Finished?
  }

  /** The blocked session waiting for the largest hash, among the first `n` sessions. */
  function LastBlocked(s: State, n: nat): (b: nat)
    requires n <= |s.sessions|
    requires exists i :: 0 <= i < n && s.sessions[i].phase.Waiting?
    requires forall i :: 0 <= i < n && s.sessions[i].phase.Waiting? ==>
      s.sessions[i].phase.next < |s.sessions[i].hashes|
    ensures b < n && s.sessions[b].phase.Waiting?
    ensures forall i :: 0 <= i < n && s.sessions[i].phase.Waiting? ==>
      s.sessions[i].hashes[s.sessions[i].phase.next] <= s.sessions[b].hashes[s.sessions[b].phase.next]
  {
    if exists i :: 0 <= i < n - 1 && s.sessions[i].phase.Waiting? then
      var b := LastBlocked(s, n - 1);
      if s.sessions[n - 1].phase.Waiting?
         && s.sessions[n - 1].hashes[s.sessions[n - 1].phase.next] > s.sessions[b].hashes[s.sessions[b].phase.next]
      then n - 1 else b
    else n - 1
  }

  /** A blocked session that waits for a blocked session waits for a smaller hash than that one. */
  lemma WaitsUpward(s: State, i: nat)
    requires Inv(s) && i < |s.sessions| && s.sessions[i].phase.Waiting?
    ensures var holder := s.sessions[s.sessions[i].phase.holder];
      holder.phase.Waiting? ==> s.sessions[i].hashes[s.sessions[i].phase.next] < holder.hashes[holder.phase.next]
  {
    var h := s.sessions[i].hashes[s.sessions[i].phase.next];
    var holder := s.sessions[s.sessions[i].phase.holder];
    if holder.phase.Waiting? {
      var k: nat :| HoldsAt(s, s.sessions[i].phase.holder, k) && holder.hashes[k] == h;
      assert holder.hashes[k] < holder.hashes[holder.phase.next];
    }
  }

  /** While a session is unfinished some session can move: the blocked session that waits for the
      largest hash waits for one that is not blocked itself. */
  lemma NoDeadlock(s: State)
    requires Inv(s) && !AllFinished(s)
    ensures exists i :: Enabled(s, i)
  {
    var u: nat :| u < |s.sessions| && !s.sessions[u].phase.Finished?;
    if !Enabled(s, u) {
      var b := LastBlocked(s, |s.sessions|);
      WaitsUpward(s, b);
      var holder := s.sessions[b].phase.holder;
      assert Enabled(s, b) || Enabled(s, holder);
    }
  }

  // ---------------------------------------------------------------------------
  // Termination
  // ---------------------------------------------------------------------------

  /** Insertions, deletions and phase changes still ahead of a session. */
  function Work(session: Session): nat {
    var n := |session.hashes|;
    match session.phase
    case Acquiring(k) => if k <= n then 2 * n + 2 - k else 0
    case Waiting(k, _) => if k <= n then 2 * n + 2 - k else 0
    case Releasing(k, _) => if k <= n then n + 1 - k else 0
    case Finished => 0
  }

  /** A retry costs rank: woken, about to test, blocked. */
  function Rank(session: Session, done: set<nat>): nat {
    match session.phase
    case Waiting(_, holder) => if holder in done then 2 else 0
    case Acquiring(_) => 1
    case _ => 0
  }

  function TotalWork(sessions: seq<Session>): nat {
    if sessions == [] then 0 else TotalWork(sessions[..|sessions| - 1]) + Work(sessions[|sessions| - 1])
  }

  function TotalRank(sessions: seq<Session>, done: set<nat>): nat {
    if sessions == [] then 0 else TotalRank(sessions[..|sessions| - 1], done) + Rank(sessions[|sessions| - 1], done)
  }

  function Measure(s: State): nat {
    TotalWork(s.sessions) * (2 * |s.sessions| + 1) + TotalRank(s.sessions, s.done)
  }

  lemma {:induction false} TotalsUpdate(sessions: seq<Session>, done: set<nat>, i: nat, session: Session)
    requires i < |sessions|
    ensures TotalWork(sessions[i := session]) == TotalWork(sessions) - Work(sessions[i]) + Work(session)
    ensures TotalRank(sessions[i := session], done) ==
      TotalRank(sessions, done) - Rank(sessions[i], done) + Rank(session, done)
  {
    var n := |sessions| - 1;
    if i < n {
      TotalsUpdate(sessions[..n], done, i, session);
      assert sessions[i := session][..n] == sessions[..n][i := session];
    } else {
      assert sessions[i := session][..n] == sessions[..n];
    }
  }

  lemma {:induction false} TotalRankBound(sessions: seq<Session>, done: set<nat>)
    ensures TotalRank(sessions, done) <= 2 * |sessions|
  {
    if sessions != [] { TotalRankBound(sessions[..|sessions| - 1], done); }
  }

  lemma MoreWorkMeasuresMore(w: nat, w': nat, r: nat, r': nat, n: nat)
    requires w' < w && r' <= 2 * n
    ensures w' * (2 * n + 1) + r' < w * (2 * n + 1) + r
  {
    assert (w' + 1) * (2 * n + 1) <= w * (2 * n + 1);
  }

  /** A step either does work, or lowers the rank of the session that moves. */
  lemma StepProgress(s: State, i: nat)
    requires Inv(s) && Enabled(s, i)
    ensures var s' := Step(s, i);
      || Work(s'.sessions[i]) < Work(s.sessions[i])
      || (s'.done == s.done && Work(s'.sessions[i]) == Work(s.sessions[i])
          && Rank(s'.sessions[i], s.done) < Rank(s.sessions[i], s.done))
  {
    var session := s.sessions[i];
    if session.phase.Acquiring? && session.phase.next < |session.hashes| &&
      session.hashes[session.phase.next] in s.table {
      var h := session.hashes[session.phase.next];
      assert Holds(s, s.table[h], h);
    }
  }

  /** What one session gained outweighs what the others can have lost in rank. */
  lemma ProgressMeasures(s: State, s': State, i: nat)
    requires i < |s.sessions| == |s'.sessions| && s'.sessions == s.sessions[i := s'.sessions[i]]
    requires
      || Work(s'.sessions[i]) < Work(s.sessions[i])
      || (s'.done == s.done && Work(s'.sessions[i]) == Work(s.sessions[i])
          && Rank(s'.sessions[i], s.done) < Rank(s.sessions[i], s.done))
    ensures Measure(s') < Measure(s)
  {
    TotalsUpdate(s.sessions, s.done, i, s'.sessions[i]);
    if Work(s'.sessions[i]) < Work(s.sessions[i]) {
      TotalRankBound(s'.sessions, s'.done);
      MoreWorkMeasuresMore(TotalWork(s.sessions), TotalWork(s'.sessions),
                           TotalRank(s.sessions, s.done), TotalRank(s'.sessions, s'.done), |s.sessions|);
    }
  }

  lemma StepDecreases(s: State, i: nat)
    requires Inv(s) && Enabled(s, i)
    ensures Measure(Step(s, i)) < Measure(s)
  {
    StepProgress(s, i);
    ProgressMeasures(s, Step(s, i), i);
  }

  lemma {:induction false} RunBound(s: State, schedule: seq<nat>)
    requires Inv(s) && Executable(s, schedule)
    ensures |schedule| + Measure(Run(s, schedule)) <= Measure(s)
    decreases |schedule|
  {
    if schedule != [] {
      StepInv(s, schedule[0]);
      StepDecreases(s, schedule[0]);
      RunBound(Step(s, schedule[0]), schedule[1..]);
    }
  }

  /** Every interleaving is finite, within an explicit bound, and one that cannot be continued has
      finished every session and left every slot empty. */
  lemma Termination(lists: seq<seq<Hash>>, schedule: seq<nat>)
    requires forall i :: 0 <= i < |lists| ==> StrictlySorted(lists[i])
    requires Executable(Init(lists), schedule)
    ensures |schedule| <= Measure(Init(lists))
    ensures var s := Run(Init(lists), schedule);
      (forall i :: !Enabled(s, i)) ==> AllFinished(s) && s.table == map[]
  {
    InitInv(lists);
    RunInv(Init(lists), schedule);
    RunBound(Init(lists), schedule);
    var s := Run(Init(lists), schedule);
    if forall i :: !Enabled(s, i) {
      if !AllFinished(s) { NoDeadlock(s); }
      assert forall i: nat, h :: !Holds(s, i, h);
      assert s.table.Keys == {};
    }
  }

  // ---------------------------------------------------------------------------
  // The slot maps behind the table
  // ---------------------------------------------------------------------------

  const SLOTS := 256

  /** `hash >> 56` */
  function SlotOf(hash: Hash): (slot: nat)
    ensures slot < SLOTS
  {
    hash / 0x100_0000_0000_0000
  }

  class SlotTable {
    const slots: array<map<Hash, nat>>
    ghost var table: map<Hash, nat>

    /** Every hash lives in the slot its top byte selects. */
    ghost predicate Valid()
      reads this, slots
    {
      && slots.Length == SLOTS
      && (forall h :: h in table ==> h in slots[SlotOf(h)] && slots[SlotOf(h)][h] == table[h])
      && (forall k, h :: 0 <= k < SLOTS && h in slots[k] ==> k == SlotOf(h) && h in table)
    }

    constructor ()
      ensures Valid() && fresh(slots) && table == map[]
    {
      slots := new map<Hash, nat>[SLOTS](_ => map[]);
      table := map[];
    }

    /** One round of the retry loop of `acquireOne`: the table step of an acquiring session. */
    method TryAcquire(hash: Hash, wg: nat) returns (holder: Option<nat>)
      requires Valid()
      modifies this, slots
      ensures Valid()
      ensures holder == if hash in old(table) then Some(old(table)[hash]) else None
      ensures table == if holder.None? then old(table)[hash := wg] else old(table)
    {
      var m := slots[SlotOf(hash)];
      if hash in m {
        holder := Some(m[hash]);
      } else {
        slots[SlotOf(hash)] := m[hash := wg];
        table := table[hash := wg];
        holder := None;
      }
    }

    /** One round of the loop of `release`: the table step of a releasing session. */
    method ReleaseOne(hash: Hash, w: Option<nat>) returns (w': Option<nat>)
      requires Valid()
      modifies this, slots
      ensures Valid()
      ensures table == old(table) - {hash}
      ensures w' == if w.None? && hash in old(table) then Some(old(table)[hash]) else w
    {
      var m := slots[SlotOf(hash)];
      w' := if w.None? && hash in m then Some(m[hash]) else w;
      slots[SlotOf(hash)] := m - {hash};
      table := table - {hash};
    }
  }

  /** Running a session's next step on the slot maps is the protocol step. */
  method Perform(latches: SlotTable, s: State, i: nat) returns (phase: Phase)
    requires latches.Valid() && latches.table == s.table && Enabled(s, i)
    modifies latches, latches.slots
    ensures latches.Valid()
    ensures latches.table == Step(s, i).table && phase == Step(s, i).sessions[i].phase
  {
    var session := s.sessions[i];
    match session.phase
    case Acquiring(n) =>
      if n == |session.hashes| {
        phase := Releasing(0, None);
      } else {
        var holder := latches.TryAcquire(session.hashes[n], i);
        phase := if holder.Some? then Waiting(n, holder.value) else Acquiring(n + 1);
      }
    case Waiting(n, _) =>
      phase := Acquiring(n);
    case Releasing(n, wg) =>
      if n == |session.hashes| {
        phase := Finished;
      } else {
        var wg' := latches.ReleaseOne(session.hashes[n], wg);
        phase := Releasing(n + 1, wg');
      }
  }
}
