/**
 The applier's queue of proposed commands and what becomes of their callbacks
 (raftstore/applier.go).
 */
module PendingCmds {
  import opened Options

  /** `NoCallback` is a nil callback. */
  datatype Callback = NoCallback | Callback(id: nat)

  datatype PendingCmd = PendingCmd(index: nat, term: nat, cb: Callback)

  datatype Verdict = Executed | Stale | Removed

  /** What a callback is told, and of which command. */
  datatype Notice = Notice(cmd: PendingCmd, verdict: Verdict)

  datatype Proposal = Proposal(isConfChange: bool, cmd: PendingCmd)

  /** `awaiting` is released by the next flush; `completed` has been told; after a crash nothing happens. */
  datatype State = State(
    normals: seq<PendingCmd>,
    confChange: Option<PendingCmd>,
    stopped: bool,
    awaiting: seq<Notice>,
    completed: seq<Notice>,
    crashed: bool
  )

  datatype Op =
    | Propose(p: Proposal)
    | ApplyData(index: nat, term: nat)
    | ApplyEmpty(index: nat, term: nat)
    | ApplyConfChange(index: nat, term: nat, removesSelf: bool)
    | Flush
    | Register
    | Destroy

  function Notices(cmds: seq<PendingCmd>, v: Verdict): (ns: seq<Notice>)
    ensures |ns| == |cmds| && forall i :: 0 <= i < |ns| ==> ns[i] == Notice(cmds[i], v)
  {
    seq(|cmds|, i requires 0 <= i < |cmds| => Notice(cmds[i], v))
  }

  lemma NoticesSnoc(cmds: seq<PendingCmd>, k: nat, v: Verdict)
    requires k < |cmds|
    ensures Notices(cmds[..k + 1], v) == Notices(cmds[..k], v) + [Notice(cmds[k], v)]
    ensures cmds[k..][1..] == cmds[k + 1..]
  {
  }

  function ConfNotices(c: Option<PendingCmd>, v: Verdict): seq<Notice> {
    if c.Some? then [Notice(c.value, v)] else []
  }

  predicate IsFor(c: PendingCmd, index: nat, term: nat) {
    c.index == index && c.term == term
  }

  /** How many commands from the front are of a term up to `term` and not the one at `index`. */
  function StaleRun(cmds: seq<PendingCmd>, index: nat, term: nat): (k: nat)
    ensures k <= |cmds|
    ensures forall i :: 0 <= i < k ==> cmds[i].term <= term && !IsFor(cmds[i], index, term)
    ensures k < |cmds| ==> cmds[k].term > term || IsFor(cmds[k], index, term)
  {
    if cmds == [] || cmds[0].term > term || IsFor(cmds[0], index, term) then 0 else 1 + StaleRun(cmds[1..], index, term)
  }

  predicate Found(cmds: seq<PendingCmd>, index: nat, term: nat) {
    var k := StaleRun(cmds, index, term);
    k < |cmds| && IsFor(cmds[k], index, term)
  }

  /** How many commands from the front are of a term below `term`. */
  function OlderRun(cmds: seq<PendingCmd>, term: nat): (k: nat)
    ensures k <= |cmds|
    ensures forall i :: 0 <= i < k ==> cmds[i].term < term
    ensures k < |cmds| ==> cmds[k].term >= term
  {
    if cmds == [] || cmds[0].term >= term then 0 else 1 + OlderRun(cmds[1..], term)
  }

  function AfterData(s: State, index: nat, term: nat): State {
    var k := StaleRun(s.normals, index, term);
    var done := s.completed + Notices(s.normals[..k], Stale);
    if Found(s.normals, index, term) then
      s.(normals := s.normals[k + 1..], completed := done, awaiting := s.awaiting + [Notice(s.normals[k], Executed)])
    else
      s.(normals := s.normals[k..], completed := done,
      awaiting := s.awaiting + [Notice(PendingCmd(index, term, NoCallback), Executed)])
  }

  /** The response is written into each stale callback without a check, so a nil one among them is a crash. */
  predicate CrashesOn(s: State, term: nat) {
    exists i :: 0 <= i < OlderRun(s.normals, term) && s.normals[i].cb == NoCallback
  }

  function AfterEmpty(s: State, term: nat): State {
    var k := OlderRun(s.normals, term);
    s.(normals := s.normals[k..], awaiting := s.awaiting + Notices(s.normals[..k], Stale))
  }

  function AfterConfChange(s: State, index: nat, term: nat): State {
    if s.confChange.Some? && IsFor(s.confChange.value, index, term) then
      s.(confChange := None, awaiting := s.awaiting + [Notice(s.confChange.value, Executed)])
    else
      s.(confChange := None, completed := s.completed + ConfNotices(s.confChange, Stale),
      awaiting := s.awaiting + [Notice(PendingCmd(index, term, NoCallback), Executed)])
  }

  /** Empties the queue, telling everyone `v`. */
  function Cleared(s: State, v: Verdict): State {
    s.(normals := [], confChange := None,
       completed := s.completed + Notices(s.normals, v) + ConfNotices(s.confChange, v))
  }

  function AfterProposal(s: State, p: Proposal): State {
    if s.stopped then s.(completed := s.completed + [Notice(p.cmd, Stale)])
    else if p.isConfChange then
      s.(confChange := Some(p.cmd), completed := s.completed + ConfNotices(s.confChange, Stale))
    else s.(normals := s.normals + [p.cmd])
  }

  function Step(s: State, op: Op): State {
    if s.crashed then s else StepAlive(s, op)
  }

  function StepAlive(s: State, op: Op): State {
    match op
    case Propose(p) => AfterProposal(s, p)
    case ApplyData(index, term) => if s.stopped then s else AfterData(s, index, term)
    case ApplyEmpty(_, term) =>
      if s.stopped then s else if CrashesOn(s, term) then s.(crashed := true) else AfterEmpty(s, term)
    case ApplyConfChange(index, term, removesSelf) =>
      if s.stopped then s
      else if removesSelf then Cleared(AfterConfChange(s, index, term), Removed).(stopped := true)
      else AfterConfChange(s, index, term)
    case Flush => s.(awaiting := [], completed := s.completed + s.awaiting)
    case Register => Cleared(s, Stale).(stopped := false)
    case Destroy => if s.stopped then s else Cleared(s, Removed).(stopped := true)
  }

  function Run(s: State, ops: seq<Op>): State
    decreases |ops|
  {
    if ops == [] then s else Run(Step(s, ops[0]), ops[1..])
  }

  // Conservation of callbacks, counted for each id

  function One(c: PendingCmd, id: nat): nat {
    if c.cb == Callback(id) then 1 else 0
  }

  ghost function Queued(cmds: seq<PendingCmd>, id: nat): nat
    decreases |cmds|
  {
    if cmds == [] then 0 else Queued(cmds[..|cmds| - 1], id) + One(cmds[|cmds| - 1], id)
  }

  ghost function Told(ns: seq<Notice>, id: nat): nat
    decreases |ns|
  {
    if ns == [] then 0 else Told(ns[..|ns| - 1], id) + One(ns[|ns| - 1].cmd, id)
  }

  ghost function Pending(s: State, id: nat): nat {
    Queued(s.normals, id) + if s.confChange.Some? then One(s.confChange.value, id) else 0
  }

  /** How often the applier knows of a callback: in its queue, awaiting a flush, or completed. */
  ghost function Held(s: State, id: nat): nat {
    Pending(s, id) + Told(s.awaiting, id) + Told(s.completed, id)
  }

  ghost function Submitted(ops: seq<Op>, id: nat): nat
    decreases |ops|
  {
    if ops == [] then 0 else (if ops[0].Propose? then One(ops[0].p.cmd, id) else 0) + Submitted(ops[1..], id)
  }

  lemma {:induction false} QueuedSplit(cmds: seq<PendingCmd>, k: nat, id: nat)
    requires k <= |cmds|
    ensures Queued(cmds, id) == Queued(cmds[..k], id) + Queued(cmds[k..], id)
    decreases |cmds|
  {
    if k == |cmds| {
      assert cmds[..k] == cmds;
    } else {
      QueuedSplit(cmds[..|cmds| - 1], k, id);
      assert cmds[..|cmds| - 1][..k] == cmds[..k];
      assert cmds[k..][..|cmds| - 1 - k] == cmds[..|cmds| - 1][k..];
    }
  }

  lemma {:induction false} ToldJoin(a: seq<Notice>, b: seq<Notice>, id: nat)
    ensures Told(a + b, id) == Told(a, id) + Told(b, id)
    decreases |b|
  {
    if b == [] {
      assert a + b == a;
    } else {
      ToldJoin(a, b[..|b| - 1], id);
      assert (a + b)[..|a + b| - 1] == a + b[..|b| - 1];
    }
  }

  lemma {:induction false} ToldNotices(cmds: seq<PendingCmd>, v: Verdict, id: nat)
    ensures Told(Notices(cmds, v), id) == Queued(cmds, id)
    decreases |cmds|
  {
    if cmds != [] {
      ToldNotices(cmds[..|cmds| - 1], v, id);
      assert Notices(cmds, v)[..|cmds| - 1] == Notices(cmds[..|cmds| - 1], v);
    }
  }

  /** Telling a prefix of the queue moves its callbacks and loses none. */
  lemma TellPrefix(ns: seq<Notice>, cmds: seq<PendingCmd>, k: nat, v: Verdict, id: nat)
    requires k <= |cmds|
    ensures Told(ns + Notices(cmds[..k], v), id) + Queued(cmds[k..], id) == Told(ns, id) + Queued(cmds, id)
  {
    QueuedSplit(cmds, k, id);
    ToldJoin(ns, Notices(cmds[..k], v), id);
    ToldNotices(cmds[..k], v, id);
  }

  lemma TellOne(ns: seq<Notice>, n: Notice, id: nat)
    ensures Told(ns + [n], id) == Told(ns, id) + One(n.cmd, id)
  {
    assert (ns + [n])[..|ns|] == ns;
  }

  lemma TellConf(ns: seq<Notice>, c: Option<PendingCmd>, v: Verdict, id: nat)
    ensures Told(ns + ConfNotices(c, v), id) == Told(ns, id) + if c.Some? then One(c.value, id) else 0
  {
    if c.Some? { TellOne(ns, Notice(c.value, v), id); } else { assert ns + [] == ns; }
  }

  lemma QueuedHead(cmds: seq<PendingCmd>, k: nat, id: nat)
    requires k < |cmds|
    ensures Queued(cmds[k..], id) == One(cmds[k], id) + Queued(cmds[k + 1..], id)
  {
    var rest := cmds[k..];
    QueuedSplit(rest, 1, id);
    assert rest[..1] == [cmds[k]] && rest[1..] == cmds[k + 1..];
    assert [cmds[k]][..0] == [];
  }

  /** Popping `k` commands as stale. */
  lemma PopAllHeld(s: State, s': State, k: nat, n: Notice, id: nat)
    requires k <= |s.normals| && n.cmd.cb == NoCallback && s'.confChange == s.confChange
    requires s'.normals == s.normals[k..] && s'.awaiting == s.awaiting + [n]
    requires s'.completed == s.completed + Notices(s.normals[..k], Stale)
    ensures Held(s', id) == Held(s, id)
  {
    TellPrefix(s.completed, s.normals, k, Stale, id);
    TellOne(s.awaiting, n, id);
  }

  /** Popping `k` commands as stale and one more to be answered at the next flush. */
  lemma PopFoundHeld(s: State, s': State, k: nat, id: nat)
    requires k < |s.normals| && s'.confChange == s.confChange
    requires s'.normals == s.normals[k + 1..] && s'.awaiting == s.awaiting + [Notice(s.normals[k], Executed)]
    requires s'.completed == s.completed + Notices(s.normals[..k], Stale)
    ensures Held(s', id) == Held(s, id)
  {
    TellPrefix(s.completed, s.normals, k, Stale, id);
    QueuedHead(s.normals, k, id);
    TellOne(s.awaiting, Notice(s.normals[k], Executed), id);
  }

  lemma DataHeld(s: State, index: nat, term: nat, id: nat)
    ensures Held(AfterData(s, index, term), id) == Held(s, id)
  {
    var k, s' := StaleRun(s.normals, index, term), AfterData(s, index, term);
    if Found(s.normals, index, term) {
      PopFoundHeld(s, s', k, id);
    } else {
      PopAllHeld(s, s', k, Notice(PendingCmd(index, term, NoCallback), Executed), id);
    }
  }

  lemma EmptyHeld(s: State, term: nat, id: nat)
    ensures Held(AfterEmpty(s, term), id) == Held(s, id)
  {
    TellPrefix(s.awaiting, s.normals, OlderRun(s.normals, term), Stale, id);
  }

  lemma ConfChangeHeld(s: State, index: nat, term: nat, id: nat)
    ensures Held(AfterConfChange(s, index, term), id) == Held(s, id)
  {
    TellConf(s.completed, s.confChange, Stale, id);
    TellOne(s.awaiting, Notice(PendingCmd(index, term, NoCallback), Executed), id);
    if s.confChange.Some? { TellOne(s.awaiting, Notice(s.confChange.value, Executed), id); }
  }

  lemma ClearedHeld(s: State, v: Verdict, id: nat)
    ensures Held(Cleared(s, v), id) == Held(s, id)
  {
    TellPrefix(s.completed, s.normals, |s.normals|, v, id);
    assert s.normals[..|s.normals|] == s.normals && s.normals[|s.normals|..] == [];
    TellConf(s.completed + Notices(s.normals, v), s.confChange, v, id);
  }

  lemma ProposalHeld(s: State, p: Proposal, id: nat)
    ensures Held(AfterProposal(s, p), id) == Held(s, id) + One(p.cmd, id)
  {
    TellOne(s.completed, Notice(p.cmd, Stale), id);
    TellConf(s.completed, s.confChange, Stale, id);
    assert (s.normals + [p.cmd])[..|s.normals|] == s.normals;
  }

  lemma StepHeld(s: State, op: Op, id: nat)
    ensures var s', sent := Step(s, op), if op.Propose? then One(op.p.cmd, id) else 0;
      && (s.crashed ==> s'.crashed) && Held(s', id) <= Held(s, id) + sent
      && (!s'.crashed ==> Held(s', id) == Held(s, id) + sent)
  {
    match op
    case Propose(p) => ProposalHeld(s, p, id);
    case ApplyData(index, term) => DataHeld(s, index, term, id);
    case ApplyEmpty(_, term) => EmptyHeld(s, term, id);
    case ApplyConfChange(index, term, _) =>
      ConfChangeHeld(s, index, term, id);
      ClearedHeld(AfterConfChange(s, index, term), Removed, id);
    case Flush => ToldJoin(s.completed, s.awaiting, id);
    case Register => ClearedHeld(s, Stale, id);
    case Destroy => ClearedHeld(s, Removed, id);
  }

  /** Over every run no callback appears from nowhere, and as long as the applier lives none is lost. */
  lemma {:induction false} RunHeld(s: State, ops: seq<Op>, id: nat)
    ensures Held(Run(s, ops), id) <= Held(s, id) + Submitted(ops, id)
    ensures s.crashed ==> Run(s, ops).crashed
    ensures !Run(s, ops).crashed ==> Held(Run(s, ops), id) == Held(s, id) + Submitted(ops, id)
    decreases |ops|
  {
    if ops != [] {
      StepHeld(s, ops[0], id);
      RunHeld(Step(s, ops[0]), ops[1..], id);
    }
  }

  function Initial(): State {
    State([], None, false, [], [], false)
  }

  /** A callback submitted once is in at most one place, so it is never completed twice; and it is in one
      unless the applier has crashed. */
  lemma ExactlyOnePlace(ops: seq<Op>, id: nat)
    requires Submitted(ops, id) == 1
    ensures var s := Run(Initial(), ops);
      && Pending(s, id) + Told(s.awaiting, id) + Told(s.completed, id) <= 1
      && (!s.crashed ==> Pending(s, id) + Told(s.awaiting, id) + Told(s.completed, id) == 1)
  {
    RunHeld(Initial(), ops, id);
  }

  // The crash

  ghost predicate AllAnswerable(cmds: seq<PendingCmd>) {
    forall i :: 0 <= i < |cmds| ==> cmds[i].cb != NoCallback
  }

  predicate SendsCallback(op: Op) {
    op.Propose? && !op.p.isConfChange ==> op.p.cmd.cb != NoCallback
  }

  lemma StepAnswerable(s: State, op: Op)
    requires !s.crashed && AllAnswerable(s.normals) && SendsCallback(op)
    ensures !Step(s, op).crashed && AllAnswerable(Step(s, op).normals)
  {
  }

  /** With a callback on every normal proposal the applier never crashes. */
  lemma {:induction false} CallbacksNeverCrash(s: State, ops: seq<Op>)
    requires !s.crashed && AllAnswerable(s.normals) && forall i :: 0 <= i < |ops| ==> SendsCallback(ops[i])
    ensures !Run(s, ops).crashed
    decreases |ops|
  {
    if ops != [] {
      StepAnswerable(s, ops[0]);
      CallbacksNeverCrash(Step(s, ops[0]), ops[1..]);
    }
  }

  /** A command without a callback, as a log compaction is proposed, followed by the next leader's empty entry. */
  lemma CompactLogCrash(index: nat, term: nat)
    ensures Run(Initial(), [Propose(Proposal(false, PendingCmd(index, term, NoCallback))),
                            ApplyEmpty(index, term + 1)]).crashed
  {
    var c := PendingCmd(index, term, NoCallback);
    var ops := [Propose(Proposal(false, c)), ApplyEmpty(index, term + 1)];
    var s := Step(Initial(), ops[0]);
    assert ops[1..] == [ops[1]] && [ops[1]][1..] == [] && s.normals == [c];
    assert OlderRun([c], term + 1) == 1;
    assert CrashesOn(s, term + 1);
    assert Run(s, ops[1..]) == Run(Step(s, ops[1]), []);
  }

  // The queue and the applier, changed in place

  class PendingCmdQueue {
    var normals: seq<PendingCmd>
    var confChange: Option<PendingCmd>

    constructor ()
      ensures normals == [] && confChange == None
    {
      normals, confChange := [], None;
    }

    /** The front command, unless it is of a later term. */
    method PopNormal(term: nat) returns (cmd: Option<PendingCmd>)
      modifies `normals
      ensures cmd == if old(normals) == [] || old(normals)[0].term > term then None else Some(old(normals)[0])
      ensures normals == if cmd.None? then old(normals) else old(normals)[1..]
    {
      if |normals| == 0 || normals[0].term > term {
        return None;
      }
      cmd := Some(normals[0]);
      normals := normals[1..];
    }

    method AppendNormal(cmd: PendingCmd)
      modifies `normals
      ensures normals == old(normals) + [cmd]
    {
      normals := normals + [cmd];
    }

    method TakeConfChange() returns (cmd: Option<PendingCmd>)
      modifies `confChange
      ensures cmd == old(confChange) && confChange == None
    {
      cmd := confChange;
      confChange := None;
    }

    method SetConfChange(cmd: PendingCmd)
      modifies `confChange
      ensures confChange == Some(cmd)
    {
      confChange := Some(cmd);
    }
  }

  class Applier {
    const queue: PendingCmdQueue
    var stopped: bool
    var awaiting: seq<Notice>
    var completed: seq<Notice>

    constructor ()
      ensures View() == Initial() && fresh(queue)
    {
      queue := new PendingCmdQueue();
      stopped, awaiting, completed := false, [], [];
    }

    ghost function View(): State
      reads this, queue
    {
      State(queue.normals, queue.confChange, stopped, awaiting, completed, false)
    }

    /** `notifyStaleCommand` and `notifyRegionRemoved`: the callback is told at once. */
    method Notify(cmd: PendingCmd, v: Verdict)
      modifies `completed
      ensures completed == old(completed) + [Notice(cmd, v)]
    {
      completed := completed + [Notice(cmd, v)];
    }

    /** The callback of a normal entry, telling every command passed over that it is stale. */
    method FindCallback(index: nat, term: nat) returns (cb: Callback)
      modifies this, queue
      ensures View() == AfterData(old(View()), index, term).(awaiting := old(awaiting))
      ensures AfterData(old(View()), index, term).awaiting ==
        old(awaiting) + [Notice(PendingCmd(index, term, cb), Executed)]
    {
      ghost var q, k := queue.normals, 0;
      while true
        invariant 0 <= k <= StaleRun(q, index, term) && queue.normals == q[k..]
        invariant completed == old(completed) + Notices(q[..k], Stale)
        invariant awaiting == old(awaiting) && stopped == old(stopped) && queue.confChange == old(queue.confChange)
        decreases |queue.normals|
      {
        var head := queue.PopNormal(term);
        if head.None? {
          return NoCallback;
        }
        if IsFor(head.value, index, term) {
          assert k == StaleRun(q, index, term);
          return head.value.cb;
        }
        Notify(head.value, Stale);
        NoticesSnoc(q, k, Stale);
        k := k + 1;
      }
    }

    /** The callback of a conf change entry. */
    method FindConfChangeCallback(index: nat, term: nat) returns (cb: Callback)
      modifies this, queue
      ensures View() == AfterConfChange(old(View()), index, term).(awaiting := old(awaiting))
      ensures AfterConfChange(old(View()), index, term).awaiting ==
        old(awaiting) + [Notice(PendingCmd(index, term, cb), Executed)]
    {
      var cmd := queue.TakeConfChange();
      if cmd.None? {
        assert completed + [] == completed;
        return NoCallback;
      }
      if IsFor(cmd.value, index, term) {
        return cmd.value.cb;
      }
      Notify(cmd.value, Stale);
      return NoCallback;
    }

    /** The callback part of applying a command: its callback waits for the next flush. */
    method ProcessRaftCmd(index: nat, term: nat, isConfChange: bool)
      modifies this, queue
      ensures View() ==
        if isConfChange then AfterConfChange(old(View()), index, term) else AfterData(old(View()), index, term)
    {
      var cb;
      if isConfChange {
        cb := FindConfChangeCallback(index, term);
      } else {
        cb := FindCallback(index, term);
      }
      awaiting := awaiting + [Notice(PendingCmd(index, term, cb), Executed)];
    }

    /**
     A new leader's empty entry: commands of earlier terms are stale. The response is written into
     each callback without a check, so a nil callback among them is a crash.
     */
    method HandleEmptyEntry(term: nat) returns (panicked: bool)
      requires term > 0
      modifies this, queue
      ensures panicked <==> CrashesOn(old(View()), term)
      ensures !panicked ==> View() == AfterEmpty(old(View()), term)
    {
      ghost var q, k := queue.normals, 0;
      panicked := false;
      while true
        invariant 0 <= k <= OlderRun(q, term) && queue.normals == q[k..] && !panicked
        invariant awaiting == old(awaiting) + Notices(q[..k], Stale)
        invariant completed == old(completed) && stopped == old(stopped) && queue.confChange == old(queue.confChange)
        invariant forall i :: 0 <= i < k ==> q[i].cb != NoCallback
        decreases |queue.normals|
      {
        var cmd := queue.PopNormal(term - 1);
        if cmd.None? {
          return;
        }
        if cmd.value.cb == NoCallback {
          return true;
        }
        awaiting := awaiting + [Notice(cmd.value, Stale)];
        NoticesSnoc(q, k, Stale);
        k := k + 1;
      }
    }

    method HandleProposal(p: Proposal)
      modifies this, queue
      ensures View() == Step(old(View()), Propose(p))
    {
      if stopped {
        Notify(p.cmd, Stale);
        return;
      }
      if p.isConfChange {
        var confCmd := queue.TakeConfChange();
        if confCmd.Some? {
          Notify(confCmd.value, Stale);
        } else {
          assert completed + [] == completed;
        }
        queue.SetConfChange(p.cmd);
      } else {
        queue.AppendNormal(p.cmd);
      }
    }

    /** Tells every queued command `v` and empties the queue. */
    method ClearAll(v: Verdict)
      modifies this, queue
      ensures View() == Cleared(old(View()), v)
    {
      var q := queue.normals;
      var i := 0;
      while i < |q|
        invariant 0 <= i <= |q| && completed == old(completed) + Notices(q[..i], v)
        invariant awaiting == old(awaiting) && stopped == old(stopped)
        invariant queue.normals == old(queue.normals) && queue.confChange == old(queue.confChange)
      {
        Notify(q[i], v);
        NoticesSnoc(q, i, v);
        i := i + 1;
      }
      assert q[..|q|] == q;
      queue.normals := [];
      var cmd := queue.TakeConfChange();
      if cmd.Some? {
        Notify(cmd.value, v);
      } else {
        assert completed + [] == completed;
      }
    }

    method HandleRegistration()
      modifies this, queue
      ensures View() == Step(old(View()), Register)
    {
      ClearAll(Stale);
      stopped := false;
    }

    method HandleDestroy()
      modifies this, queue
      ensures View() == Step(old(View()), Destroy)
    {
      if !stopped {
        stopped := true;
        ClearAll(Removed);
      }
    }

    /** The callbacks of `writeToDB`: all that wait are told, in order. */
    method InvokeAll()
      modifies this
      ensures View() == Step(old(View()), Flush)
    {
      var i := 0;
      while i < |awaiting|
        invariant 0 <= i <= |awaiting| && awaiting == old(awaiting) && stopped == old(stopped)
        invariant completed == old(completed) + awaiting[..i]
        invariant queue.normals == old(queue.normals) && queue.confChange == old(queue.confChange)
      {
        completed := completed + [awaiting[i]];
        i := i + 1;
      }
      awaiting := [];
    }
  }
}
