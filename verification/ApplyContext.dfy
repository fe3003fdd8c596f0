/**
 The appliers and the apply context as objects: the loop over committed entries, driving a shared
 write batch that is changed in place, and the apply worker's loop over the appliers of many regions.
 */
module ApplyContext {
  import opened WriteBatch
  import opened ApplyCommands
  import opened ApplyBatch

  datatype CommittedEntry = CommittedEntry(index: nat, cmd: Command, writeFirst: bool)

  /** An entry together with the region it was applied for. */
  datatype Done = Done(id: nat, index: nat, cmd: Command)

  class Applier {
    const id: nat
    var app: App

    constructor (id: nat, app: App)
      ensures this.id == id && this.app == app
    {
      this.id, this.app := id, app;
    }
  }

  // Traces

  function DoneBy(e: Event): seq<Done> {
    if e.Apply? then [Done(e.id, e.index, e.cmd)] else []
  }

  /** The entries that a list of events applies. */
  ghost function AppliedBy(es: seq<Event>): seq<Done>
    decreases |es|
  {
    if es == [] then [] else AppliedBy(es[..|es| - 1]) + DoneBy(es[|es| - 1])
  }

  predicate FromLoop(e: Event) {
    !e.Register? && !e.Unregister? && !e.External?
  }

  /** A legal run of the loop from `c` to `c'`, and the entries it applied. */
  ghost predicate Traced(exec: Executor, c: Ctx, es: seq<Event>, c': Ctx, done: seq<Done>) {
    && LegalRun(exec, c, es) && Run(exec, c, es) == c' && AppliedBy(es) == done
    && (forall i :: 0 <= i < |es| ==> FromLoop(es[i]))
  }

  lemma TracedOneMore(exec: Executor, c: Ctx, es: seq<Event>, m: Ctx, done: seq<Done>, e: Event)
    requires Traced(exec, c, es, m, done) && Legal(m, e) && FromLoop(e)
    ensures Traced(exec, c, es + [e], Step(exec, m, e), done + DoneBy(e))
  {
    assert (es + [e])[..|es|] == es;
  }

  /** The entries applied one by one, straight to the store. */
  function OneByOne(exec: Executor, d: Direct, done: seq<Done>): Direct
    decreases |done|
  {
    if done == [] then d
    else
      var last := done[|done| - 1];
      DirectStep(exec, OneByOne(exec, d, done[..|done| - 1]), Apply(last.id, last.index, last.cmd))
  }

  /** No entry writes the apply state of a region at work. */
  ghost predicate FreshEntries(exec: Executor, d: Direct, done: seq<Done>)
    decreases |done|
  {
    done == [] ||
    var front, last := done[..|done| - 1], done[|done| - 1];
    FreshEntries(exec, d, front) && Fresh(exec, OneByOne(exec, d, front), Apply(last.id, last.index, last.cmd))
  }

  /** Only the entries matter to the one-by-one run. */
  lemma {:induction false} OnlyEntriesMatter(exec: Executor, d: Direct, es: seq<Event>)
    requires forall i :: 0 <= i < |es| ==> FromLoop(es[i])
    requires FreshEntries(exec, d, AppliedBy(es))
    ensures DirectRun(exec, d, es) == OneByOne(exec, d, AppliedBy(es)) && FreshRun(exec, d, es)
    decreases |es|
  {
    if es != [] {
      var front, last := es[..|es| - 1], es[|es| - 1];
      if last.Apply? {
        assert AppliedBy(es)[..|AppliedBy(es)| - 1] == AppliedBy(front);
      } else {
        assert AppliedBy(es) == AppliedBy(front);
      }
      OnlyEntriesMatter(exec, d, front);
    }
  }

  /** A traced run that ends with a flush leaves the store as the entries one by one would. */
  lemma TraceFlushed(exec: Executor, c: Ctx, d: Direct, es: seq<Event>, c': Ctx, done: seq<Done>)
    requires Sane(exec) && Inv(c, d) && Traced(exec, c, es, c', done) && FreshEntries(exec, d, done)
    requires es != [] && es[|es| - 1].Flush?
    ensures AsIfOneByOne(c', OneByOne(exec, d, done))
  {
    OnlyEntriesMatter(exec, d, es);
    RunInv(exec, c, d, es);
    FlushedMeaning(c', DirectRun(exec, d, es));
  }

  /** The callbacks of the entries done, of all but the empty ones. */
  function CallbacksFor(done: seq<Done>): seq<Callback>
    decreases |done|
  {
    if done == [] then []
    else
      var last := done[|done| - 1];
      CallbacksFor(done[..|done| - 1]) + if last.cmd.Noop? then [] else [Callback(last.id, last.index)]
  }

  lemma {:induction false} CallbacksMatch(es: seq<Event>)
    ensures CallbacksFor(AppliedBy(es)) == CallbacksOf(es)
    decreases |es|
  {
    if es != [] {
      var front, last := es[..|es| - 1], es[|es| - 1];
      CallbacksMatch(front);
      if last.Apply? {
        assert AppliedBy(es)[..|AppliedBy(es)| - 1] == AppliedBy(front);
      } else {
        assert AppliedBy(es) == AppliedBy(front);
      }
    }
  }

  /** By the end of a flush the callback of every entry done has been let go, once and in order. */
  lemma TraceAnswered(exec: Executor, c: Ctx, es: seq<Event>, c': Ctx, done: seq<Done>)
    requires Traced(exec, c, es, c', done) && es != [] && es[|es| - 1].Flush?
    ensures c'.awaiting == [] && c'.released == (c.released + c.awaiting) + CallbacksFor(done)
  {
    RunCallbacks(exec, c, es);
    CallbacksMatch(es);
  }

  /** The index of the last entry done for a region. */
  function LastIndex(done: seq<Done>, id: nat, before: nat): nat
    decreases |done|
  {
    if done == [] then before
    else if done[|done| - 1].id == id then done[|done| - 1].index
    else LastIndex(done[..|done| - 1], id, before)
  }

  lemma {:induction false} IndexAfter(exec: Executor, d: Direct, done: seq<Done>, id: nat)
    requires id in OneByOne(exec, d, done).apps
    ensures id in d.apps
    ensures OneByOne(exec, d, done).apps[id].appliedIndex == LastIndex(done, id, d.apps[id].appliedIndex)
    decreases |done|
  {
    if done != [] { IndexAfter(exec, d, done[..|done| - 1], id); }
  }

  /** Every region at work has the index of its last entry done in the store. */
  ghost predicate IndexesStored(c: Ctx, c': Ctx, done: seq<Done>) {
    forall id :: id in c'.apps && !Removing(c', id) ==>
      id in c.apps && IndexStored(c', id, LastIndex(done, id, c.apps[id].appliedIndex))
  }

  ghost predicate IndexStored(c: Ctx, id: nat, index: nat)
    requires id in c.apps
  {
    index > 0 ==> StateOnDisk(c.disk, id, index, c.apps[id])
  }

  lemma TraceIndexes(exec: Executor, c: Ctx, d: Direct, es: seq<Event>, c': Ctx, done: seq<Done>)
    requires Sane(exec) && Inv(c, d) && Traced(exec, c, es, c', done) && FreshEntries(exec, d, done)
    requires es != [] && es[|es| - 1].Flush?
    ensures IndexesStored(c, c', done)
  {
    OnlyEntriesMatter(exec, d, es);
    RunInv(exec, c, d, es);
    forall id | id in c'.apps && !Removing(c', id)
      ensures id in c.apps && IndexStored(c', id, LastIndex(done, id, c.apps[id].appliedIndex))
    {
      IndexAfter(exec, d, done, id);
      if c'.apps[id].appliedIndex > 0 { FlushedStates(c', DirectRun(exec, d, es), id); }
    }
  }

  /** From a context in agreement with a store written one by one, to one as if the entries had been, too. */
  ghost predicate Serial(exec: Executor, c: Ctx, d: Direct, c': Ctx, done: seq<Done>) {
    Sane(exec) && Inv(c, d) && FreshEntries(exec, d, done) ==>
      AsIfOneByOne(c', OneByOne(exec, d, done)) && IndexesStored(c, c', done)
  }

  function Contents(id: nat, entries: seq<CommittedEntry>): (r: seq<Done>)
    ensures |r| == |entries| && forall i :: 0 <= i < |r| ==> r[i] == Done(id, entries[i].index, entries[i].cmd)
  {
    seq(|entries|, i requires 0 <= i < |entries| => Done(id, entries[i].index, entries[i].cmd))
  }

  predicate Continues(entries: seq<CommittedEntry>, appliedIndex: nat) {
    forall i :: 0 <= i < |entries| ==> entries[i].index == appliedIndex + 1 + i
  }

  lemma ContentsSnoc(id: nat, entries: seq<CommittedEntry>, n: nat, done: seq<Done>)
    requires n < |entries|
    ensures done + Contents(id, entries[..n + 1]) ==
      (done + Contents(id, entries[..n])) + [Done(id, entries[n].index, entries[n].cmd)]
  {
  }

  lemma NothingMore(done: seq<Done>)
    ensures done + [] == done
  {
  }

  // Work for many appliers

  datatype Task = Task(a: Applier, entries: seq<CommittedEntry>)

  ghost predicate OneApplierPerId(tasks: seq<Task>) {
    forall i, j :: 0 <= i < |tasks| && 0 <= j < |tasks| && tasks[i].a.id == tasks[j].a.id ==> tasks[i].a == tasks[j].a
  }

  ghost function States(tasks: seq<Task>): (apps: seq<App>)
    reads set t | t in tasks :: t.a
    ensures |apps| == |tasks| && forall i :: 0 <= i < |tasks| ==> apps[i] == tasks[i].a.app
  {
    seq(|tasks|, i requires 0 <= i < |tasks| reads set t | t in tasks :: t.a => tasks[i].a.app)
  }

  /** All entries of a task are applied, or those up to the removal of the peer. */
  predicate Applies(before: App, now: App, entries: seq<CommittedEntry>, n: nat) {
    n <= |entries| && (now.pendingRemove || (n == |entries| && now.appliedIndex == before.appliedIndex + n))
  }

  /** The same of the first tasks. */
  ghost predicate AllApplied(tasks: seq<Task>, counts: seq<nat>, now: seq<App>) {
    && |counts| <= |tasks| == |now|
    && forall i :: 0 <= i < |counts| ==>
      counts[i] <= |tasks[i].entries| && (now[i].pendingRemove || counts[i] == |tasks[i].entries|)
  }

  /** The entries done: of each task the first so many. */
  ghost function AllDone(tasks: seq<Task>, counts: seq<nat>): seq<Done>
    requires |counts| <= |tasks| && forall i :: 0 <= i < |counts| ==> counts[i] <= |tasks[i].entries|
    decreases |counts|
  {
    if counts == [] then []
    else
      var n := |counts| - 1;
      AllDone(tasks, counts[..n]) + Contents(tasks[n].a.id, tasks[n].entries[..counts[n]])
  }

  lemma AllDoneSnoc(tasks: seq<Task>, counts: seq<nat>, n: nat)
    requires |counts| < |tasks| && n <= |tasks[|counts|].entries|
    requires forall i :: 0 <= i < |counts| ==> counts[i] <= |tasks[i].entries|
    ensures var t := tasks[|counts|];
      AllDone(tasks, counts + [n]) == AllDone(tasks, counts) + Contents(t.a.id, t.entries[..n])
  {
    assert (counts + [n])[..|counts|] == counts;
  }

  /** How many entries earlier tasks have for an applier. */
  ghost function EntriesBefore(tasks: seq<Task>, a: Applier, i: nat): nat
    requires i <= |tasks|
  {
    if i == 0 then 0 else EntriesBefore(tasks, a, i - 1) + if tasks[i - 1].a == a then |tasks[i - 1].entries| else 0
  }

  /** The entries of every task go on where the ones before it end. */
  ghost predicate Expected(tasks: seq<Task>, from: seq<App>)
    requires |from| == |tasks|
  {
    forall i :: 0 <= i < |tasks| ==>
      Continues(tasks[i].entries, from[i].appliedIndex + EntriesBefore(tasks, tasks[i].a, i))
  }

  /** After `i` tasks every applier has applied what it got, or is being removed. */
  ghost predicate OnTrack(tasks: seq<Task>, from: seq<App>, now: seq<App>, i: nat)
    requires |from| == |now| == |tasks| && i <= |tasks|
  {
    forall j :: 0 <= j < |tasks| ==>
      now[j].pendingRemove || now[j].appliedIndex == from[j].appliedIndex + EntriesBefore(tasks, tasks[j].a, i)
  }

  /** Only the applier of a task moves, and the others stay on track. */
  lemma TaskKeeps(tasks: seq<Task>, from: seq<App>, before: seq<App>, now: seq<App>, counts: seq<nat>, n: nat)
    requires |counts| < |tasks| == |from| == |before| == |now|
    requires OnTrack(tasks, from, before, |counts|) && AllApplied(tasks, counts, before)
    requires forall j :: 0 <= j < |tasks| && tasks[j].a != tasks[|counts|].a ==> now[j] == before[j]
    requires forall j :: 0 <= j < |tasks| && tasks[j].a == tasks[|counts|].a ==>
      before[j] == before[|counts|] && now[j] == now[|counts|]
    requires before[|counts|].pendingRemove ==> now[|counts|].pendingRemove
    requires Applies(before[|counts|], now[|counts|], tasks[|counts|].entries, n)
    ensures OnTrack(tasks, from, now, |counts| + 1) && AllApplied(tasks, counts + [n], now)
  {
  }

  class ApplyContext {
    const wb: WriteBatch
    const kv: Bundle
    var awaiting: seq<Callback>
    var released: seq<Callback>
    var lastAppliedIndex: nat
    /** All registered appliers, as they were last seen, and the one being prepared for. */
    ghost var apps: Apps
    ghost var open: Opened
    ghost var gone: set<nat>

    constructor (kv: Bundle)
      ensures this.kv == kv && fresh(wb) && View() == Start(kv.kv)
    {
      this.kv := kv;
      wb := new WriteBatch();
      awaiting, released, lastAppliedIndex := [], [], 0;
      apps, open, gone := map[], Closed, {};
    }

    ghost function View(): Ctx
      reads this, wb, kv
    {
      Ctx(kv.kv, wb.View(), apps, open, awaiting, released, gone)
    }

    ghost predicate Knows(a: Applier)
      reads this, a
    {
      a.id in apps && apps[a.id] == a.app
    }

    ghost predicate PreparedFor(a: Applier)
      reads this, a
    {
      Knows(a) && open == Opened(a.id, lastAppliedIndex)
    }

    method PrepareFor(a: Applier, ghost exec: Executor)
      requires Knows(a) && !a.app.pendingRemove && open.Closed?
      modifies `lastAppliedIndex, `open
      ensures PreparedFor(a) && View() == Step(exec, old(View()), Prepare(a.id))
    {
      lastAppliedIndex := a.app.appliedIndex;
      open := Opened(a.id, lastAppliedIndex);
    }

    /** Writes the batch unless it counts no bytes, then lets every waiting callback go. */
    method WriteToDB()
      modifies `awaiting, `released, wb, kv
      ensures View() == ApplyBatch.WriteToDB(old(View()))
    {
      if wb.size != 0 {
        wb.WriteToKV(kv);
        wb.Reset();
      }
      released := released + awaiting;
      awaiting := [];
    }

    /** The apply state goes into the batch if entries were applied since it last did. */
    method WriteStateIfBehind(a: Applier)
      modifies wb
      ensures wb.View() ==
        if lastAppliedIndex < a.app.appliedIndex then Put(old(wb.View()), StateWrite(a.app)) else old(wb.View())
    {
      if lastAppliedIndex < a.app.appliedIndex {
        wb.Add(StateWrite(a.app));
      }
    }

    method Commit(a: Applier, ghost exec: Executor)
      requires PreparedFor(a) && !a.app.pendingRemove
      modifies `awaiting, `released, `lastAppliedIndex, `open, wb, kv
      ensures PreparedFor(a) && View() == Step(exec, old(View()), Event.Commit)
    {
      ghost var c := View();
      WriteStateIfBehind(a);
      assert View() == c.(batch := wb.View());
      WriteToDB();
      lastAppliedIndex := a.app.appliedIndex;
      open := Opened(a.id, lastAppliedIndex);
    }

    method FinishFor(a: Applier, ghost exec: Executor)
      requires PreparedFor(a) && a.app.appliedIndex > 0
      modifies `open, wb
      ensures open.Closed? && View() == Step(exec, old(View()), Finish)
    {
      if !a.app.pendingRemove {
        wb.Add(StateWrite(a.app));
      }
      open := Closed;
    }

    /** The batch part of a command: carried out behind a safe point and rolled back if it fails. */
    method ExecInBatch(exec: Executor, app: App, cmd: Command) returns (o: Outcome)
      requires !cmd.Noop?
      modifies wb
      ensures o == exec(app, cmd) && wb.View() == NextBatch(exec, old(wb.View()), app, cmd)
    {
      o := exec(app, cmd);
      RollBackUndoes(wb.View(), o.writes);
      wb.SetSafePoint();
      wb.AddAll(o.writes);
      if !o.ok {
        wb.RollbackToSafePoint();
      }
    }

    /** One entry; its index is kept whether it fails or not. */
    method ApplyEntry(exec: Executor, a: Applier, index: nat, cmd: Command)
      requires PreparedFor(a) && !a.app.pendingRemove && index == a.app.appliedIndex + 1
      modifies `awaiting, `apps, wb, a
      ensures PreparedFor(a) && a.app.appliedIndex == index
      ensures View() == Step(exec, old(View()), Apply(a.id, index, cmd))
    {
      if cmd.Noop? {
        a.app := a.app.(appliedIndex := index);
      } else {
        var o := ExecInBatch(exec, a.app, cmd);
        a.app := (if o.ok then o.app else a.app).(appliedIndex := index);
        awaiting := awaiting + [Callback(a.id, index)];
      }
      apps := apps[a.id := a.app];
    }

    /** One turn of the loop over committed entries. */
    method ApplyNext(exec: Executor, a: Applier, entry: CommittedEntry,
                     ghost c: Ctx, ghost es: seq<Event>, ghost done: seq<Done>)
      returns (ghost es': seq<Event>)
      requires PreparedFor(a) && !a.app.pendingRemove && entry.index == a.app.appliedIndex + 1
      requires Traced(exec, c, es, View(), done)
      modifies this, wb, kv, a
      ensures PreparedFor(a) && a.app.appliedIndex == entry.index
      ensures apps == old(apps)[a.id := a.app]
      ensures Traced(exec, c, es', View(), done + [Done(a.id, entry.index, entry.cmd)])
    {
      es' := es;
      if entry.writeFirst {
        TracedOneMore(exec, c, es', View(), done, Event.Commit);
        NothingMore(done);
        Commit(a, exec);
        es' := es' + [Event.Commit];
      }
      ghost var e := Apply(a.id, entry.index, entry.cmd);
      TracedOneMore(exec, c, es', View(), done, e);
      ApplyEntry(exec, a, entry.index, entry.cmd);
      es' := es' + [e];
    }

    /**
     `handleRaftCommittedEntries`: a legal run of the context that applies the entries in order, all of
     them unless the peer is removed on the way. It panics on an entry that is not the next one.
     No other applier is touched.
     */
    method HandleRaftCommittedEntries(exec: Executor, a: Applier, entries: seq<CommittedEntry>,
                                      ghost c: Ctx, ghost before: seq<Event>, ghost done: seq<Done>)
      returns (panicked: bool, n: nat, ghost es: seq<Event>)
      requires Knows(a) && !a.app.pendingRemove && open.Closed? && Traced(exec, c, before, View(), done)
      modifies this, wb, kv, a
      ensures Continues(entries, old(a.app.appliedIndex)) ==> !panicked
      ensures n <= |entries| && (!panicked ==> n == |entries| || a.app.pendingRemove)
      ensures Knows(a) && apps == old(apps)[a.id := a.app] && a.app.appliedIndex == old(a.app.appliedIndex) + n
      ensures !panicked ==>
        open.Closed? && Traced(exec, c, es, View(), done + Contents(a.id, entries[..n]))
    {
      es, n, panicked := before, 0, false;
      if |entries| == 0 {
        NothingMore(done);
        return;
      }
      es := Open(exec, a, c, es, done);
      panicked, n, es := ApplyAll(exec, a, entries, c, es, done);
      if !panicked {
        es := Close(exec, a, c, es, done + Contents(a.id, entries[..n]));
      }
    }

    /** The loop over the entries, until the peer is removed or one is not the next. */
    method ApplyAll(exec: Executor, a: Applier, entries: seq<CommittedEntry>,
                    ghost c: Ctx, ghost before: seq<Event>, ghost done: seq<Done>)
      returns (panicked: bool, n: nat, ghost es: seq<Event>)
      requires PreparedFor(a) && !a.app.pendingRemove && Traced(exec, c, before, View(), done)
      modifies this, wb, kv, a
      ensures Continues(entries, old(a.app.appliedIndex)) ==> !panicked
      ensures n <= |entries| && (!panicked ==> n == |entries| || a.app.pendingRemove)
      ensures PreparedFor(a) && apps == old(apps)[a.id := a.app] && a.app.appliedIndex == old(a.app.appliedIndex) + n
      ensures !panicked && |entries| > 0 ==> n > 0
      ensures Traced(exec, c, es, View(), done + Contents(a.id, entries[..n]))
    {
      es, n, panicked := before, 0, false;
      NothingMore(done);
      while n < |entries| && !a.app.pendingRemove
        invariant n <= |entries| && a.app.appliedIndex == old(a.app.appliedIndex) + n
        invariant PreparedFor(a) && apps == old(apps)[a.id := a.app] && (n == 0 ==> !a.app.pendingRemove)
        invariant Traced(exec, c, es, View(), done + Contents(a.id, entries[..n]))
      {
        if entries[n].index != a.app.appliedIndex + 1 {
          return true, n, es;
        }
        ContentsSnoc(a.id, entries, n, done);
        es := ApplyNext(exec, a, entries[n], c, es, done + Contents(a.id, entries[..n]));
        n := n + 1;
      }
    }

    method Open(ghost exec: Executor, a: Applier, ghost c: Ctx, ghost es: seq<Event>, ghost done: seq<Done>)
      returns (ghost es': seq<Event>)
      requires Knows(a) && !a.app.pendingRemove && open.Closed? && Traced(exec, c, es, View(), done)
      modifies `lastAppliedIndex, `open
      ensures PreparedFor(a) && Traced(exec, c, es', View(), done)
    {
      TracedOneMore(exec, c, es, View(), done, Prepare(a.id));
      NothingMore(done);
      PrepareFor(a, exec);
      es' := es + [Prepare(a.id)];
    }

    method Close(ghost exec: Executor, a: Applier, ghost c: Ctx, ghost es: seq<Event>, ghost done: seq<Done>)
      returns (ghost es': seq<Event>)
      requires PreparedFor(a) && a.app.appliedIndex > 0 && Traced(exec, c, es, View(), done)
      modifies `open, wb
      ensures open.Closed? && Traced(exec, c, es', View(), done)
    {
      TracedOneMore(exec, c, es, View(), done, Finish);
      NothingMore(done);
      FinishFor(a, exec);
      es' := es + [Finish];
    }

    /** `handleApply`: an applier being removed skips its entries, and is flushed once it has become so. */
    method HandleApply(exec: Executor, a: Applier, entries: seq<CommittedEntry>,
                       ghost c: Ctx, ghost before: seq<Event>, ghost done: seq<Done>)
      returns (panicked: bool, ghost n: nat, ghost es: seq<Event>)
      requires Knows(a) && open.Closed? && Traced(exec, c, before, View(), done)
      modifies this, wb, kv, a
      ensures old(a.app.pendingRemove) || Continues(entries, old(a.app.appliedIndex)) ==> !panicked
      ensures Knows(a) && apps == old(apps)[a.id := a.app] && (old(a.app.pendingRemove) ==> a.app.pendingRemove)
      ensures !panicked ==> open.Closed? && Applies(old(a.app), a.app, entries, n)
      ensures !panicked ==> Traced(exec, c, es, View(), done + Contents(a.id, entries[..n]))
    {
      panicked, n, es := false, 0, before;
      if |entries| == 0 || a.app.pendingRemove {
        NothingMore(done);
        return;
      }
      panicked, n, es := HandleRaftCommittedEntries(exec, a, entries, c, before, done);
      if !panicked && a.app.pendingRemove {
        TracedOneMore(exec, c, es, View(), done + Contents(a.id, entries[..n]), Event.Flush);
        NothingMore(done + Contents(a.id, entries[..n]));
        WriteToDB();
        es := es + [Event.Flush];
      }
    }

    /** The work of the next task. */
    method HandleTask(exec: Executor, tasks: seq<Task>, i: nat, ghost from: seq<App>, ghost counts: seq<nat>,
                      ghost c: Ctx, ghost before: seq<Event>)
      returns (panicked: bool, ghost n: nat, ghost es: seq<Event>)
      requires i == |counts| < |tasks| == |from| && open.Closed? && AllKnown(tasks) && OneApplierPerId(tasks)
      requires OnTrack(tasks, from, States(tasks), i) && AllApplied(tasks, counts, States(tasks))
      requires Traced(exec, c, before, View(), AllDone(tasks, counts))
      modifies this, wb, kv, tasks[i].a
      ensures Expected(tasks, from) ==> !panicked
      ensures !panicked ==> open.Closed? && AllKnown(tasks)
      ensures !panicked ==>
        OnTrack(tasks, from, States(tasks), i + 1) && AllApplied(tasks, counts + [n], States(tasks))
      ensures !panicked ==> Traced(exec, c, es, View(), AllDone(tasks, counts + [n]))
    {
      ghost var was := States(tasks);
      panicked, n, es := HandleApply(exec, tasks[i].a, tasks[i].entries, c, before, AllDone(tasks, counts));
      if !panicked {
        AllDoneSnoc(tasks, counts, n);
        TaskKeeps(tasks, from, was, States(tasks), counts, n);
        forall j | 0 <= j < |tasks| ensures Knows(tasks[j].a) {
          assert tasks[j].a.id == tasks[i].a.id ==> tasks[j].a == tasks[i].a;
        }
      }
    }

    /** All tasks in order, as one run of the context. */
    method HandleTasks(exec: Executor, tasks: seq<Task>, ghost from: seq<App>, ghost c: Ctx)
      returns (panicked: bool, ghost counts: seq<nat>, ghost es: seq<Event>)
      requires open.Closed? && AllKnown(tasks) && OneApplierPerId(tasks) && from == States(tasks) && c == View()
      modifies this, wb, kv, set t | t in tasks :: t.a
      ensures Expected(tasks, from) ==> !panicked
      ensures !panicked ==> open.Closed? && AllKnown(tasks)
      ensures !panicked ==> |counts| == |tasks| && AllApplied(tasks, counts, States(tasks))
      ensures !panicked ==> Traced(exec, c, es, View(), AllDone(tasks, counts))
    {
      panicked, counts, es := false, [], [];
      var i := 0;
      while i < |tasks|
        invariant i == |counts| <= |tasks| && !panicked && open.Closed? && AllKnown(tasks)
        invariant OnTrack(tasks, from, States(tasks), i) && AllApplied(tasks, counts, States(tasks))
        invariant Traced(exec, c, es, View(), AllDone(tasks, counts))
      {
        ghost var n;
        panicked, n, es := HandleTask(exec, tasks, i, from, counts, c, es);
        if panicked {
          return;
        }
        counts := counts + [n];
        i := i + 1;
      }
    }

    /**
     The apply worker: the entries of many regions through one batch, and a flush at the end. Unless an entry
     out of order makes it panic, the store is then as if the entries done had been applied one by one, with the
     index of the last one for each region, and all their callbacks have been let go in order. These are all
     entries but those that came after the removal of their peer.
     */
    method HandleBatch(exec: Executor, tasks: seq<Task>, ghost d: Direct)
      returns (panicked: bool, ghost counts: seq<nat>)
      requires open.Closed? && AllKnown(tasks) && OneApplierPerId(tasks)
      modifies this, wb, kv, set t | t in tasks :: t.a
      ensures Expected(tasks, old(States(tasks))) ==> !panicked
      ensures !panicked ==> AllKnown(tasks) && |counts| == |tasks| && AllApplied(tasks, counts, States(tasks))
      ensures !panicked ==> Serial(exec, old(View()), d, View(), AllDone(tasks, counts))
      ensures !panicked ==>
        awaiting == [] && released == (old(released) + old(awaiting)) + CallbacksFor(AllDone(tasks, counts))
    {
      ghost var c, es := View(), [];
      panicked, counts, es := HandleTasks(exec, tasks, States(tasks), c);
      if !panicked {
        ghost var now := States(tasks);
        FlushAll(exec, c, d, es, AllDone(tasks, counts));
        assert States(tasks) == now;
      }
    }

    /** The flush at the end of a batch. */
    method FlushAll(ghost exec: Executor, ghost c: Ctx, ghost d: Direct, ghost before: seq<Event>,
      ghost done: seq<Done>)
      requires open.Closed? && Traced(exec, c, before, View(), done)
      modifies `awaiting, `released, wb, kv
      ensures Serial(exec, c, d, View(), done)
      ensures awaiting == [] && released == (c.released + c.awaiting) + CallbacksFor(done)
    {
      TracedOneMore(exec, c, before, View(), done, Event.Flush);
      NothingMore(done);
      WriteToDB();
      TraceAnswered(exec, c, before + [Event.Flush], View(), done);
      if Sane(exec) && Inv(c, d) && FreshEntries(exec, d, done) {
        TraceFlushed(exec, c, d, before + [Event.Flush], View(), done);
        TraceIndexes(exec, c, d, before + [Event.Flush], View(), done);
      }
    }

    ghost predicate AllKnown(tasks: seq<Task>)
      reads this, set t | t in tasks :: t.a
    {
      forall i :: 0 <= i < |tasks| ==> Knows(tasks[i].a)
    }
  }
}
