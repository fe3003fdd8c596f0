/**
 When a proposed command may be told that it is stale: the applier guesses this from terms and
 indexes alone, and under what raft promises the guess is never wrong.
 */
module StaleNotices {
  import opened PendingCmds

  /** Log order: by term, then by index. */
  predicate Before(term: nat, index: nat, term': nat, index': nat) {
    term < term' || (term == term' && index < index')
  }

  predicate CmdBefore(c: PendingCmd, d: PendingCmd) {
    Before(c.term, c.index, d.term, d.index)
  }

  datatype Entry = Entry(index: nat, term: nat)

  /** Conf changes proposed here and applied, and those that were told stale. */
  datatype Confs = Confs(proposed: seq<PendingCmd>, applied: seq<Entry>, stale: seq<PendingCmd>)

  /**
   The applier with its history: proposals that arrived since it was last registered, data entries applied,
   the last entry of any kind, the proposals that an applied entry declared stale, and the conf changes.
   `seen` are all normal proposals ever queued, `cut` the commands dropped by a registration or sent to an applier
   that was stopped; `removed` says that the peer was once removed.
   */
  datatype World = World(s: State, proposed: seq<PendingCmd>, applied: seq<Entry>, last: Entry,
    stale: seq<PendingCmd>, confs: Confs, seen: seq<PendingCmd>, cut: seq<PendingCmd>, removed: bool)

  predicate Alive(s: State) {
    !s.stopped && !s.crashed
  }

  predicate Applied(w: World, c: PendingCmd) {
    Entry(c.index, c.term) in w.applied
  }

  predicate ConfApplied(w: World, c: PendingCmd) {
    Entry(c.index, c.term) in w.confs.applied
  }

  /** A pending conf change is told stale when another one is proposed, or another one's entry is applied. */
  function AddConf(w: World, c: PendingCmd): Confs {
    Confs(w.confs.proposed + [c], w.confs.applied,
      w.confs.stale + if w.s.confChange.Some? then [w.s.confChange.value] else [])
  }

  function ApplyConf(w: World, index: nat, term: nat): Confs {
    var c := w.s.confChange;
    Confs(w.confs.proposed, w.confs.applied + [Entry(index, term)],
      w.confs.stale + if c.Some? && !IsFor(c.value, index, term) then [c.value] else [])
  }

  /** A step of an applier that is there, with its history. */
  function NextAlive(w: World, op: Op): World {
    var s' := Step(w.s, op);
    match op
    case Propose(p) =>
      if p.isConfChange then w.(s := s', confs := AddConf(w, p.cmd))
      else w.(s := s', proposed := w.proposed + [p.cmd], seen := w.seen + [p.cmd])
    case ApplyData(index, term) =>
      w.(s := s', applied := w.applied + [Entry(index, term)], last := Entry(index, term),
         stale := w.stale + w.s.normals[..StaleRun(w.s.normals, index, term)])
    case ApplyEmpty(index, term) =>
      if s'.crashed then w.(s := s')
      else w.(s := s', last := Entry(index, term), stale := w.stale + w.s.normals[..OlderRun(w.s.normals, term)])
    case ApplyConfChange(index, term, removesSelf) =>
      w.(s := s', last := Entry(index, term), confs := ApplyConf(w, index, term), removed := w.removed || removesSelf)
    case Register =>
      w.(s := s', proposed := [],
         cut := w.cut + w.s.normals + if w.s.confChange.Some? then [w.s.confChange.value] else [])
    case Destroy => w.(s := s', removed := true)
    case Flush => w.(s := s')
  }

  /** A stopped applier still answers proposals. */
  function NextStopped(w: World, op: Op): World {
    w.(s := Step(w.s, op), cut := if op.Propose? && !w.s.crashed then w.cut + [op.p.cmd] else w.cut)
  }

  function Next(w: World, op: Op): World {
    if Alive(w.s) || (op.Register? && !w.s.crashed) then NextAlive(w, op) else NextStopped(w, op)
  }

  ghost predicate TermProposed(w: World, term: nat) {
    exists i :: 0 <= i < |w.proposed| && w.proposed[i].term == term
  }

  ghost predicate EntryProposed(w: World, index: nat, term: nat) {
    exists i :: 0 <= i < |w.proposed| && IsFor(w.proposed[i], index, term)
  }

  /**
   What raft promises. Proposals arrive in log order, each before its own entry is applied; entries
   are applied in log order; a data entry of a term in which this applier has seen a proposal was itself
   proposed. No conf change is proposed while an earlier one may still be applied.
   */
  ghost predicate Legal(w: World, op: Op) {
    OtherPromises(w, op) &&
    (op.ApplyData? && TermProposed(w, op.term) ==> EntryProposed(w, op.index, op.term))
  }

  /** All but the promise on entries of a term in which something was proposed. */
  ghost predicate OtherPromises(w: World, op: Op) {
    match op
    case Propose(p) => w.s.stopped || (if p.isConfChange then LegalConf(w, p.cmd) else LegalNormal(w, p.cmd))
    case ApplyData(index, term) => Before(w.last.term, w.last.index, term, index)
    case ApplyEmpty(index, term) => Before(w.last.term, w.last.index, term, index)
    case ApplyConfChange(index, term, _) =>
      && Before(w.last.term, w.last.index, term, index)
      && (forall d :: d in w.confs.proposed ==> !Before(term, index, d.term, d.index))
    case _ => true
  }

  ghost predicate LegalNormal(w: World, c: PendingCmd) {
    !Applied(w, c) && forall i :: 0 <= i < |w.proposed| ==> CmdBefore(w.proposed[i], c)
  }

  ghost predicate LegalConf(w: World, c: PendingCmd) {
    !ConfApplied(w, c) && forall d :: d in w.confs.proposed ==> CmdBefore(d, c)
  }

  ghost predicate LegalRun(w: World, ops: seq<Op>)
    decreases |ops|
  {
    ops == [] || (Legal(w, ops[0]) && LegalRun(Next(w, ops[0]), ops[1..]))
  }

  function After(w: World, ops: seq<Op>): World
    decreases |ops|
  {
    if ops == [] then w else After(Next(w, ops[0]), ops[1..])
  }

  // The invariant

  /** The queue is what is left of the proposals once `k` of them are gone. */
  ghost predicate QueueAfter(w: World, k: nat) {
    && k <= |w.proposed| && w.s.normals == w.proposed[k..]
    && (forall i :: 0 <= i < k ==> !Before(w.last.term, w.last.index, w.proposed[i].term, w.proposed[i].index))
    && (forall i :: k <= i < |w.proposed| ==> !Applied(w, w.proposed[i]))
  }

  ghost predicate Sorted(cmds: seq<PendingCmd>) {
    forall i, j {:trigger CmdBefore(cmds[i], cmds[j])} :: 0 <= i < j < |cmds| ==> CmdBefore(cmds[i], cmds[j])
  }

  ghost predicate Sound(w: World) {
    && (forall e :: e in w.applied ==> !Before(w.last.term, w.last.index, e.term, e.index))
    && (forall c :: c in w.stale ==> !Applied(w, c) && !Before(w.last.term, w.last.index, c.term, c.index))
  }

  /** Too late for a conf change: its place in the log has passed, or a later one has been proposed. */
  ghost predicate TooLate(w: World, c: PendingCmd) {
    || !Before(w.last.term, w.last.index, c.term, c.index)
    || (exists d :: d in w.confs.proposed && CmdBefore(c, d))
  }

  ghost predicate ConfSound(w: World) {
    && (forall e :: e in w.confs.applied ==> !Before(w.last.term, w.last.index, e.term, e.index))
    && (forall c :: c in w.confs.stale ==> !ConfApplied(w, c) && TooLate(w, c))
    && (w.s.confChange.Some? ==> w.s.confChange.value in w.confs.proposed && !ConfApplied(w, w.s.confChange.value))
  }

  ghost predicate Inv(w: World, k: nat) {
    Sound(w) && ConfSound(w) && (Alive(w.s) ==> Sorted(w.proposed) && QueueAfter(w, k))
  }

  /** Popping `j` commands that all lie before an entry about to be applied, whose own proposal is not kept. */
  ghost predicate Pops(w: World, w': World, e: Entry, j: nat, stale: nat) {
    && stale <= j <= |w.s.normals|
    && w'.s.normals == w.s.normals[j..] && Alive(w'.s)
    && w'.proposed == w.proposed && w'.last == e && w'.stale == w.stale + w.s.normals[..stale]
    && Before(w.last.term, w.last.index, e.term, e.index)
    && (w'.applied == w.applied || w'.applied == w.applied + [e])
    && (forall i :: 0 <= i < stale ==> Before(w.s.normals[i].term, w.s.normals[i].index, e.term, e.index))
    && (forall i :: stale <= i < j ==> IsFor(w.s.normals[i], e.index, e.term))
    && (w'.applied != w.applied ==> forall i :: j <= i < |w.s.normals| ==> !IsFor(w.s.normals[i], e.index, e.term))
  }

  lemma PopsSound(w: World, w': World, e: Entry, j: nat, stale: nat, k: nat)
    requires Inv(w, k) && Alive(w.s) && Pops(w, w', e, j, stale)
    ensures Sound(w')
  {
    forall c | c in w'.stale ensures !Applied(w', c) && !Before(e.term, e.index, c.term, c.index) {
      if c !in w.stale {
        var i :| 0 <= i < stale && w.s.normals[i] == c;
        assert w.proposed[k + i] == c;
      }
    }
  }

  lemma PopsInv(w: World, w': World, e: Entry, j: nat, stale: nat, k: nat)
    requires Inv(w, k) && Alive(w.s) && Pops(w, w', e, j, stale) && ConfSound(w')
    ensures Inv(w', k + j)
  {
    PopsSound(w, w', e, j, stale, k);
    forall i | 0 <= i < k + j ensures !Before(e.term, e.index, w.proposed[i].term, w.proposed[i].index) {
      if k <= i { assert w.proposed[i] == w.s.normals[i - k]; }
    }
    forall i | k + j <= i < |w.proposed| ensures !Applied(w', w.proposed[i]) {
      assert w.proposed[i] == w.s.normals[i - k];
    }
  }

  lemma Ordered(cmds: seq<PendingCmd>, i: nat, j: nat)
    requires Sorted(cmds) && i < |cmds| && j < |cmds|
    ensures if i < j then CmdBefore(cmds[i], cmds[j]) else if j < i then CmdBefore(cmds[j], cmds[i])
      else cmds[i] == cmds[j]
  {
  }

  /** The proposal of an entry about to be applied is found exactly where the stale ones end. */
  lemma EntryFound(w: World, index: nat, term: nat, k: nat)
    requires Inv(w, k) && Alive(w.s) && Legal(w, ApplyData(index, term))
    ensures EntryProposed(w, index, term) <==> Found(w.s.normals, index, term)
    ensures forall i :: 0 <= i < StaleRun(w.s.normals, index, term) ==>
      Before(w.s.normals[i].term, w.s.normals[i].index, term, index)
  {
    var q, n := w.s.normals, StaleRun(w.s.normals, index, term);
    if EntryProposed(w, index, term) {
      var p :| 0 <= p < |w.proposed| && IsFor(w.proposed[p], index, term);
      assert k <= p && q[p - k] == w.proposed[p];
      if n < |q| {
        assert q[n] == w.proposed[k + n];
        Ordered(w.proposed, k + n, p);
      }
      assert n == p - k;
      forall i | 0 <= i < n ensures Before(q[i].term, q[i].index, term, index) {
        assert CmdBefore(w.proposed[k + i], w.proposed[p]) && q[i] == w.proposed[k + i];
      }
    } else {
      forall i | 0 <= i < |q| ensures q[i].term != term {
        assert q[i] == w.proposed[k + i];
      }
    }
  }

  /** How many proposals have left the queue after a step. */
  ghost function Gone(w: World, op: Op, k: nat): nat {
    if op.Register? then 0
    else if !Alive(w.s) then k
    else if op.ApplyData? then
      k + StaleRun(w.s.normals, op.index, op.term) + (if Found(w.s.normals, op.index, op.term) then 1 else 0)
    else if op.ApplyEmpty? then k + OlderRun(w.s.normals, op.term)
    else k
  }

  /** Behind the place where the search stops no command is for the entry. */
  lemma NoneForLater(w: World, index: nat, term: nat, k: nat, i: nat)
    requires Inv(w, k) && Alive(w.s) && Legal(w, ApplyData(index, term))
    requires StaleRun(w.s.normals, index, term) +
      (if Found(w.s.normals, index, term) then 1 else 0) <= i < |w.s.normals|
    ensures !IsFor(w.s.normals[i], index, term)
  {
    var q, n := w.s.normals, StaleRun(w.s.normals, index, term);
    EntryFound(w, index, term, k);
    assert q[i] == w.proposed[k + i];
    if Found(q, index, term) {
      assert CmdBefore(w.proposed[k + n], w.proposed[k + i]);
    }
  }

  /** What a data entry leaves of the queue and adds to the history. */
  ghost predicate AfterEntry(w: World, index: nat, term: nat, w': World) {
    var n := StaleRun(w.s.normals, index, term);
    && w'.s.normals == w.s.normals[if Found(w.s.normals, index, term) then n + 1 else n..] && Alive(w'.s)
    && w'.proposed == w.proposed && w'.last == Entry(index, term) && w'.stale == w.stale + w.s.normals[..n]
    && w'.applied == w.applied + [Entry(index, term)]
  }

  lemma NextData(w: World, index: nat, term: nat)
    requires Alive(w.s)
    ensures AfterEntry(w, index, term, Next(w, ApplyData(index, term)))
  {
  }

  lemma DataPops(w: World, index: nat, term: nat, w': World, k: nat)
    requires Inv(w, k) && Alive(w.s) && Legal(w, ApplyData(index, term)) && AfterEntry(w, index, term, w')
    ensures var n := StaleRun(w.s.normals, index, term);
      Pops(w, w', Entry(index, term), if Found(w.s.normals, index, term) then n + 1 else n, n)
  {
    var q, n := w.s.normals, StaleRun(w.s.normals, index, term);
    var j := if Found(q, index, term) then n + 1 else n;
    EntryFound(w, index, term, k);
    forall i | j <= i < |q| ensures !IsFor(q[i], index, term) {
      NoneForLater(w, index, term, k, i);
    }
  }

  lemma EmptyPops(w: World, index: nat, term: nat, w': World)
    requires Alive(w.s) && !CrashesOn(w.s, term) && w' == Next(w, ApplyEmpty(index, term))
    requires Before(w.last.term, w.last.index, term, index)
    ensures var n := OlderRun(w.s.normals, term);
      Pops(w, w', Entry(index, term), n, n)
  {
  }

  lemma CrashKeeps(w: World, op: Op, k: nat)
    requires Inv(w, k) && Alive(w.s) && Legal(w, op) && op.ApplyEmpty? && CrashesOn(w.s, op.term)
    requires ConfSound(Next(w, op))
    ensures Inv(Next(w, op), Gone(w, op, k))
  {
  }

  /** Entries that are no conf changes leave conf changes alone. */
  lemma EntryConf(w: World, op: Op, k: nat)
    requires Inv(w, k) && Alive(w.s) && Legal(w, op) && (op.ApplyData? || op.ApplyEmpty?)
    ensures ConfSound(Next(w, op))
  {
    var w' := Next(w, op);
    forall c | c in w'.confs.stale ensures TooLate(w', c) {
      assert TooLate(w, c);
    }
  }

  lemma AppliedConf(w: World, op: Op, k: nat)
    requires Inv(w, k) && Alive(w.s) && Legal(w, op) && op.ApplyConfChange?
    ensures ConfSound(Next(w, op))
  {
    var w' := Next(w, op);
    forall c | c in w'.confs.stale ensures !ConfApplied(w', c) && TooLate(w', c) {
      if c in w.confs.stale {
        assert TooLate(w, c);
      } else {
        assert c == w.s.confChange.value;
      }
    }
  }

  lemma ProposedConf(w: World, op: Op, k: nat)
    requires Inv(w, k) && Alive(w.s) && Legal(w, op) && op.Propose?
    ensures ConfSound(Next(w, op))
  {
    var w' := Next(w, op);
    forall c | c in w'.confs.stale ensures !ConfApplied(w', c) && TooLate(w', c) {
      if c in w.confs.stale {
        assert TooLate(w, c);
        if d :| d in w.confs.proposed && CmdBefore(c, d) { assert d in w'.confs.proposed; }
      } else {
        assert c == w.s.confChange.value && op.p.cmd in w'.confs.proposed && CmdBefore(c, op.p.cmd);
      }
    }
  }

  lemma ProposeInv(w: World, op: Op, k: nat)
    requires Inv(w, k) && Alive(w.s) && Legal(w, op) && op.Propose?
    ensures Inv(Next(w, op), k)
  {
    ProposedConf(w, op, k);
  }

  /** Nothing proposed or applied, and no pending conf change but the old one. */
  lemma QuietConf(w: World, op: Op, k: nat)
    requires Inv(w, k) && (!Alive(w.s) || op.Flush? || op.Register? || op.Destroy?)
    ensures ConfSound(Next(w, op))
  {
    var w' := Next(w, op);
    forall c | c in w'.confs.stale ensures TooLate(w', c) {
      assert TooLate(w, c);
    }
  }

  lemma EntryInv(w: World, e: Entry, w': World, n: nat, j: nat, k: nat)
    requires Inv(w, k) && Alive(w.s) && Legal(w, ApplyData(e.index, e.term)) && AfterEntry(w, e.index, e.term, w')
    requires n == StaleRun(w.s.normals, e.index, e.term) && ConfSound(w')
    requires j == if Found(w.s.normals, e.index, e.term) then n + 1 else n
    ensures Inv(w', k + j)
  {
    DataPops(w, e.index, e.term, w', k);
    PopsInv(w, w', e, j, n, k);
  }

  lemma DataInv(w: World, op: Op, k: nat)
    requires Inv(w, k) && Alive(w.s) && Legal(w, op) && op.ApplyData?
    ensures Inv(Next(w, op), Gone(w, op, k))
  {
    NextData(w, op.index, op.term);
    EntryConf(w, op, k);
    var n := StaleRun(w.s.normals, op.index, op.term);
    EntryInv(w, Entry(op.index, op.term), Next(w, op), n,
             if Found(w.s.normals, op.index, op.term) then n + 1 else n, k);
  }

  lemma EmptyInv(w: World, op: Op, k: nat)
    requires Inv(w, k) && Alive(w.s) && Legal(w, op) && op.ApplyEmpty?
    ensures Inv(Next(w, op), Gone(w, op, k))
  {
    var n := OlderRun(w.s.normals, op.term);
    EntryConf(w, op, k);
    if CrashesOn(w.s, op.term) {
      CrashKeeps(w, op, k);
    } else {
      EmptyPops(w, op.index, op.term, Next(w, op));
      PopsInv(w, Next(w, op), Entry(op.index, op.term), n, n, k);
    }
  }

  lemma ConfChangeInv(w: World, op: Op, k: nat)
    requires Inv(w, k) && Alive(w.s) && Legal(w, op) && op.ApplyConfChange?
    ensures Inv(Next(w, op), Gone(w, op, k))
  {
    AppliedConf(w, op, k);
    if !op.removesSelf { PopsInv(w, Next(w, op), Entry(op.index, op.term), 0, 0, k); }
  }

  lemma StepInv(w: World, op: Op, k: nat)
    requires Inv(w, k) && Legal(w, op)
    ensures Inv(Next(w, op), Gone(w, op, k))
  {
    if Alive(w.s) {
      match op
      case Propose(_) => ProposeInv(w, op, k);
      case ApplyData(_, _) => DataInv(w, op, k);
      case ApplyEmpty(_, _) => EmptyInv(w, op, k);
      case ApplyConfChange(_, _, _) => ConfChangeInv(w, op, k);
      case _ => QuietConf(w, op, k);
    } else {
      QuietConf(w, op, k);
    }
  }

  lemma {:induction false} RunInv(w: World, ops: seq<Op>, k: nat) returns (k': nat)
    requires Inv(w, k) && LegalRun(w, ops)
    ensures Inv(After(w, ops), k')
    decreases |ops|
  {
    if ops == [] {
      k' := k;
    } else {
      StepInv(w, ops[0], k);
      k' := RunInv(Next(w, ops[0]), ops[1..], Gone(w, ops[0], k));
    }
  }

  function Start(last: Entry): World {
    World(Initial(), [], [], last, [], Confs([], [], []), [], [], false)
  }

  /** No command declared stale by an applied entry, and no conf change told stale by an entry or by a later
      proposal, is applied, before or after. */
  lemma StaleNeverApplied(last: Entry, ops: seq<Op>, c: PendingCmd)
    requires LegalRun(Start(last), ops)
    ensures var w := After(Start(last), ops);
      && (c in w.stale ==> !Applied(w, c))
      && (c in w.confs.stale ==> !ConfApplied(w, c))
  {
    var _ := RunInv(Start(last), ops, 0);
  }

  // What the callbacks are told

  /** Where the commands of the queue and of the history come from. */
  ghost predicate Known(w: World) {
    && (forall c :: c in w.s.normals ==> c in w.seen)
    && (forall c :: c in w.stale ==> c in w.seen)
    && (forall c :: c in w.confs.stale ==> c in w.confs.proposed)
    && (w.s.confChange.Some? ==> w.s.confChange.value in w.confs.proposed)
  }

  predicate WasApplied(w: World, c: PendingCmd) {
    (c in w.seen && Applied(w, c)) || (c in w.confs.proposed && ConfApplied(w, c))
  }

  /** What stands behind a notice. */
  predicate Backed(w: World, n: Notice) {
    n.cmd.cb == NoCallback ||
    match n.verdict
    case Executed => WasApplied(w, n.cmd)
    case Stale => n.cmd in w.stale || n.cmd in w.confs.stale || n.cmd in w.cut
    case Removed => w.removed
  }

  ghost predicate AllBacked(w: World, ns: seq<Notice>) {
    forall n :: n in ns ==> Backed(w, n)
  }

  /** The history only grows. */
  predicate Extends(w: World, w': World) {
    && w.seen <= w'.seen && w.applied <= w'.applied && w.stale <= w'.stale && w.cut <= w'.cut
    && w.confs.proposed <= w'.confs.proposed && w.confs.applied <= w'.confs.applied
    && w.confs.stale <= w'.confs.stale && (w.removed ==> w'.removed)
  }

  lemma PrefixIn<T>(a: seq<T>, b: seq<T>, x: T)
    requires a <= b && x in a
    ensures x in b
  {
    var i :| 0 <= i < |a| && a[i] == x;
    assert b[i] == x;
  }

  lemma BackedStays(w: World, w': World, n: Notice)
    requires Extends(w, w') && Backed(w, n)
    ensures Backed(w', n)
  {
    var e := Entry(n.cmd.index, n.cmd.term);
    if n.cmd in w.seen { PrefixIn(w.seen, w'.seen, n.cmd); }
    if n.cmd in w.confs.proposed { PrefixIn(w.confs.proposed, w'.confs.proposed, n.cmd); }
    if e in w.applied { PrefixIn(w.applied, w'.applied, e); }
    if e in w.confs.applied { PrefixIn(w.confs.applied, w'.confs.applied, e); }
    if n.cmd in w.stale { PrefixIn(w.stale, w'.stale, n.cmd); }
    if n.cmd in w.confs.stale { PrefixIn(w.confs.stale, w'.confs.stale, n.cmd); }
    if n.cmd in w.cut { PrefixIn(w.cut, w'.cut, n.cmd); }
  }

  lemma AllStay(w: World, w': World, ns: seq<Notice>)
    requires Extends(w, w') && AllBacked(w, ns)
    ensures AllBacked(w', ns)
  {
    forall n | n in ns ensures Backed(w', n) { BackedStays(w, w', n); }
  }

  lemma AllJoin(w: World, a: seq<Notice>, b: seq<Notice>)
    requires AllBacked(w, a) && AllBacked(w, b)
    ensures AllBacked(w, a + b)
  {
  }

  lemma NoticesBacked(w: World, cmds: seq<PendingCmd>, v: Verdict)
    requires forall c :: c in cmds ==> Backed(w, Notice(c, v))
    ensures AllBacked(w, Notices(cmds, v))
  {
    forall n | n in Notices(cmds, v) ensures Backed(w, n) {
      var i :| 0 <= i < |cmds| && Notices(cmds, v)[i] == n;
      assert cmds[i] in cmds;
    }
  }

  /** All that is told of the queue when it is emptied. */
  lemma ClearedBacked(w: World, s: State, v: Verdict)
    requires AllBacked(w, s.completed)
    requires forall c :: c in s.normals ==> Backed(w, Notice(c, v))
    requires s.confChange.Some? ==> Backed(w, Notice(s.confChange.value, v))
    ensures AllBacked(w, Cleared(s, v).completed)
  {
    NoticesBacked(w, s.normals, v);
    AllJoin(w, s.completed, Notices(s.normals, v));
    AllJoin(w, s.completed + Notices(s.normals, v), ConfNotices(s.confChange, v));
  }

  ghost predicate AllTold(w: World) {
    Known(w) && AllBacked(w, w.s.awaiting) && AllBacked(w, w.s.completed)
  }

  lemma ProposalTold(w: World, op: Op)
    requires AllTold(w) && op.Propose?
    ensures AllTold(Next(w, op))
  {
    var w' := Next(w, op);
    AllStay(w, w', w.s.awaiting);
    AllStay(w, w', w.s.completed);
    if w.s.stopped {
      AllJoin(w', w.s.completed, if w.s.crashed then [] else [Notice(op.p.cmd, Stale)]);
    } else if op.p.isConfChange && !w.s.crashed {
      AllJoin(w', w.s.completed, ConfNotices(w.s.confChange, Stale));
    }
  }

  lemma DataTold(w: World, op: Op)
    requires AllTold(w) && Alive(w.s) && op.ApplyData?
    ensures AllTold(Next(w, op))
  {
    var w', k := Next(w, op), StaleRun(w.s.normals, op.index, op.term);
    AllStay(w, w', w.s.awaiting);
    AllStay(w, w', w.s.completed);
    NoticesBacked(w', w.s.normals[..k], Stale);
    AllJoin(w', w.s.completed, Notices(w.s.normals[..k], Stale));
    assert w'.applied[|w.applied|] == Entry(op.index, op.term);
    if Found(w.s.normals, op.index, op.term) {
      assert w.s.normals[k] in w.seen;
      AllJoin(w', w.s.awaiting, [Notice(w.s.normals[k], Executed)]);
    } else {
      AllJoin(w', w.s.awaiting, [Notice(PendingCmd(op.index, op.term, NoCallback), Executed)]);
    }
  }

  lemma EmptyTold(w: World, op: Op)
    requires AllTold(w) && Alive(w.s) && op.ApplyEmpty?
    ensures AllTold(Next(w, op))
  {
    var w', k := Next(w, op), OlderRun(w.s.normals, op.term);
    AllStay(w, w', w.s.awaiting);
    AllStay(w, w', w.s.completed);
    if !w'.s.crashed {
      NoticesBacked(w', w.s.normals[..k], Stale);
      AllJoin(w', w.s.awaiting, Notices(w.s.normals[..k], Stale));
    }
  }

  lemma ConfChangeTold(w: World, op: Op)
    requires AllTold(w) && Alive(w.s) && op.ApplyConfChange?
    ensures AllTold(Next(w, op))
  {
    var w', s1 := Next(w, op), AfterConfChange(w.s, op.index, op.term);
    AllStay(w, w', w.s.awaiting);
    AllStay(w, w', w.s.completed);
    assert w'.confs.applied[|w.confs.applied|] == Entry(op.index, op.term);
    if w.s.confChange.Some? && IsFor(w.s.confChange.value, op.index, op.term) {
      AllJoin(w', w.s.awaiting, [Notice(w.s.confChange.value, Executed)]);
    } else {
      AllJoin(w', w.s.completed, ConfNotices(w.s.confChange, Stale));
      AllJoin(w', w.s.awaiting, [Notice(PendingCmd(op.index, op.term, NoCallback), Executed)]);
    }
    if op.removesSelf { ClearedBacked(w', s1, Removed); }
  }

  lemma StepTold(w: World, op: Op)
    requires AllTold(w)
    ensures AllTold(Next(w, op))
  {
    var w' := Next(w, op);
    AllStay(w, w', w.s.awaiting);
    AllStay(w, w', w.s.completed);
    match op
    case Propose(_) => ProposalTold(w, op);
    case ApplyData(_, _) => if Alive(w.s) { DataTold(w, op); }
    case ApplyEmpty(_, _) => if Alive(w.s) { EmptyTold(w, op); }
    case ApplyConfChange(_, _, _) => if Alive(w.s) { ConfChangeTold(w, op); }
    case Flush => AllJoin(w', w.s.completed, w.s.awaiting);
    case Register => if !w.s.crashed { ClearedBacked(w', w.s, Stale); }
    case Destroy => if Alive(w.s) { ClearedBacked(w', w.s, Removed); }
  }

  lemma {:induction false} RunTold(w: World, ops: seq<Op>)
    requires AllTold(w)
    ensures AllTold(After(w, ops))
    decreases |ops|
  {
    if ops != [] {
      StepTold(w, ops[0]);
      RunTold(Next(w, ops[0]), ops[1..]);
    }
  }

  /** `Executed` is told of an applied command; `Stale` of one that is not applied, or was cut off. */
  predicate Truthful(w: World, n: Notice) {
    n.cmd.cb == NoCallback ||
    match n.verdict
    case Executed =>
      (n.cmd in w.seen && Applied(w, n.cmd)) || (n.cmd in w.confs.proposed && ConfApplied(w, n.cmd))
    case Stale =>
      || n.cmd in w.cut
      || (n.cmd in w.seen && !Applied(w, n.cmd)) || (n.cmd in w.confs.proposed && !ConfApplied(w, n.cmd))
    case Removed => w.removed
  }

  /**
   Over every run: a callback that hears its command was executed is right, one that hears it is stale is right
   for good, unless a registration dropped the command or it was sent to a stopped applier.
   */
  lemma NoticesTruthful(last: Entry, ops: seq<Op>, n: Notice)
    requires LegalRun(Start(last), ops)
    ensures var w := After(Start(last), ops);
      n in w.s.awaiting || n in w.s.completed ==> Truthful(w, n)
  {
    var _ := RunInv(Start(last), ops, 0);
    RunTold(Start(last), ops);
  }

  lemma {:induction false} PassedForGood(w: World, ops: seq<Op>, c: PendingCmd)
    requires LegalRun(w, ops) && !Applied(w, c) && !Before(w.last.term, w.last.index, c.term, c.index)
    ensures !Applied(After(w, ops), c)
    decreases |ops|
  {
    if ops != [] { PassedForGood(Next(w, ops[0]), ops[1..], c); }
  }

  /** A legal run by the end of which a command is applied. */
  ghost predicate LeadsTo(w: World, ops: seq<Op>, c: PendingCmd) {
    LegalRun(w, ops) && Applied(After(w, ops), c)
  }

  /** With nothing proposed yet, a command not applied can be exactly if its place in the log is ahead. */
  lemma AppliedAhead(w: World, c: PendingCmd)
    requires Alive(w.s) && w.proposed == [] && !Applied(w, c)
    ensures (exists ops :: LeadsTo(w, ops, c)) <==>
      Before(w.last.term, w.last.index, c.term, c.index)
  {
    if Before(w.last.term, w.last.index, c.term, c.index) {
      var ops := [ApplyData(c.index, c.term)];
      assert ops[1..] == [] && LegalRun(Next(w, ops[0]), []);
      assert After(w, ops) == After(Next(w, ops[0]), []);
      assert LeadsTo(w, ops, c);
    } else {
      forall ops | LegalRun(w, ops) ensures !LeadsTo(w, ops, c) { PassedForGood(w, ops, c); }
    }
  }

  /** A command dropped by a registration is told it is stale, and can still be applied exactly if its place in the
      log is ahead. */
  lemma RegisteredAway(w: World, k: nat, c: PendingCmd)
    requires Inv(w, k) && Alive(w.s) && c in w.s.normals
    ensures var w' := Next(w, Register);
      && Notice(c, Stale) in w'.s.completed
      && ((exists ops :: LeadsTo(w', ops, c)) <==>
        Before(w.last.term, w.last.index, c.term, c.index))
  {
    var i :| 0 <= i < |w.s.normals| && w.s.normals[i] == c;
    assert Notices(w.s.normals, Stale)[i] == Notice(c, Stale);
    assert Next(w, Register).s.completed[|w.s.completed| + i] == Notice(c, Stale);
    assert w.proposed[k + i] == c;
    AppliedAhead(Next(w, Register), c);
  }

  /** So can a command that was sent to a stopped applier, once that is registered again. */
  lemma ProposedTooEarly(w: World, c: PendingCmd)
    requires w.s.stopped && !w.s.crashed && !Applied(w, c)
    ensures var w' := Next(Next(w, Propose(Proposal(false, c))), Register);
      && Notice(c, Stale) in w'.s.completed
      && ((exists ops :: LeadsTo(w', ops, c)) <==>
        Before(w.last.term, w.last.index, c.term, c.index))
  {
    var w1 := Next(w, Propose(Proposal(false, c)));
    assert w1.s.completed[|w.s.completed|] == Notice(c, Stale);
    var w' := Next(w1, Register);
    assert w'.s.completed[|w.s.completed|] == Notice(c, Stale);
    AppliedAhead(w', c);
  }

  lemma FindsCallback(w: World, index: nat, term: nat, k: nat, i: nat)
    requires Inv(w, k) && Legal(w, ApplyData(index, term)) && Alive(w.s)
    requires i < |w.proposed| && IsFor(w.proposed[i], index, term)
    ensures Step(w.s, ApplyData(index, term)).awaiting == w.s.awaiting + [Notice(w.proposed[i], Executed)]
  {
    EntryFound(w, index, term, k);
    var n := StaleRun(w.s.normals, index, term);
    assert w.s.normals[n] == w.proposed[k + n];
    Ordered(w.proposed, k + n, i);
  }

  /** An applied command whose proposal arrived is answered through exactly that proposal's callback. */
  lemma AppliedFindsCallback(last: Entry, ops: seq<Op>, index: nat, term: nat, i: nat)
    requires LegalRun(Start(last), ops) && Legal(After(Start(last), ops), ApplyData(index, term))
    requires var w := After(Start(last), ops); Alive(w.s) && i < |w.proposed| && IsFor(w.proposed[i], index, term)
    ensures var w := After(Start(last), ops);
      Step(w.s, ApplyData(index, term)).awaiting == w.s.awaiting + [Notice(w.proposed[i], Executed)]
  {
    var k := RunInv(Start(last), ops, 0);
    FindsCallback(After(Start(last), ops), index, term, k, i);
  }

  ghost predicate OthersKept(w: World, ops: seq<Op>)
    decreases |ops|
  {
    ops == [] || (OtherPromises(w, ops[0]) && OthersKept(Next(w, ops[0]), ops[1..]))
  }

  lemma Steps3(w: World, a: Op, b: Op, c: Op)
    ensures var w1 := Next(w, a); var w2 := Next(w1, b);
      && After(w, [a, b, c]) == Next(w2, c)
      && (OthersKept(w, [a, b, c]) <==> OtherPromises(w, a) && OtherPromises(w1, b) && OtherPromises(w2, c))
  {
    var w1 := Next(w, a);
    var w2 := Next(w1, b);
    assert [a, b, c][1..] == [b, c] && [b, c][1..] == [c] && [c][1..] == [];
    assert After(w1, [b, c]) == After(w2, [c]) == After(Next(w2, c), []);
    assert OthersKept(Next(w2, c), []);
    assert OthersKept(w2, [c]) <==> OtherPromises(w2, c);
    assert OthersKept(w1, [b, c]) <==> OtherPromises(w1, b) && OthersKept(w2, [c]);
  }

  lemma PassedOver(w: World, w1: World, w2: World, c: PendingCmd)
    requires c.index > 0 && w.s.normals == [c]
    requires AfterEntry(w, c.index - 1, c.term, w1) && AfterEntry(w1, c.index, c.term, w2)
    ensures c in w2.stale && Applied(w2, c)
  {
    assert StaleRun([c], c.index - 1, c.term) == 1 && [c][..1] == [c];
  }

  lemma FirstProposal(last: Entry, c: PendingCmd)
    ensures var w := Next(Start(last), Propose(Proposal(false, c)));
      Alive(w.s) && w.s.normals == [c] && w.last == last
    ensures OtherPromises(Start(last), Propose(Proposal(false, c)))
  {
  }

  lemma WaitsAlone(w: World, c: PendingCmd)
    requires c.index > 0 && Alive(w.s) && w.s.normals == [c]
    requires Before(w.last.term, w.last.index, c.term, c.index - 1)
    ensures var w1 := Next(w, ApplyData(c.index - 1, c.term)); var w2 := Next(w1, ApplyData(c.index, c.term));
      && OtherPromises(w, ApplyData(c.index - 1, c.term)) && OtherPromises(w1, ApplyData(c.index, c.term))
      && c in w2.stale && Applied(w2, c)
  {
    var w1 := Next(w, ApplyData(c.index - 1, c.term));
    NextData(w, c.index - 1, c.term);
    NextData(w1, c.index, c.term);
    PassedOver(w, w1, Next(w1, ApplyData(c.index, c.term)), c);
  }

  /** A run that keeps every promise but one, that entries of a led term were proposed here: the entry before a
      command's own has it told stale, and then it is applied. */
  lemma PromiseNeeded(last: Entry, c: PendingCmd)
    requires c.index > 0 && Before(last.term, last.index, c.term, c.index - 1)
    ensures var ops := [Propose(Proposal(false, c)), ApplyData(c.index - 1, c.term), ApplyData(c.index, c.term)];
      var w := After(Start(last), ops);
      OthersKept(Start(last), ops) && c in w.stale && Applied(w, c)
  {
    FirstProposal(last, c);
    WaitsAlone(Next(Start(last), Propose(Proposal(false, c))), c);
    Steps3(Start(last), Propose(Proposal(false, c)), ApplyData(c.index - 1, c.term), ApplyData(c.index, c.term));
  }
}
