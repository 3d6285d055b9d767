/** The cascade of notifications ends. A command's end makes a runner stop, a stopped runner tells
    the manager, the manager stops the runner again: every internal step uses up some of a weight
    that only requests from outside can add to, and the service is never stuck before it is idle. */
module SessionDrain {
  import opened Common
  import opened SessionTable
  import opened SessionDriver
  import opened SessionRunner
  import opened SessionSystem

  /** Steps the service takes by itself. */
  predicate Internal(e: Event) {
    !e.Edit? && !e.Ask? && !e.ClientStop? && !e.Restart?
  }

  // ---------------------------------------------------------------------------- the weight

  const OpenWeight: nat := 6

  function TaskWeight(t: Task): nat {
    match t
    case TaskStart => 12
    case TaskStop(byManager) => if byManager then 1 else 5
  }

  function TasksWeight(q: seq<Task>): nat {
    if q == [] then 0 else TaskWeight(q[0]) + TasksWeight(q[1..])
  }

  function DaemonsWeight(ds: set<Daemon>): nat {
    (if Waiter in ds then 6 else 0) + (if Input in ds then 1 else 0) + (if Output in ds then 1 else 0)
  }

  /** A doomed runner's worker no longer counts: the manager is certain to close it. */
  function RunnerWeight(r: RunnerRec, doomed: bool): nat {
    (if r.open then TasksWeight(r.queue) + (if doomed then 0 else OpenWeight) else 0)
    + DaemonsWeight(r.driver.daemons) + (if r.ipcLoop then 4 else 0) + 4 * r.notices
  }

  function RequestWeight(q: Request): nat {
    match q
    case StartSession(_) => 24
    case StopSession(_) => 3
    case StopAllSessions => 1
  }

  function RequestsWeight(q: seq<Request>): nat {
    if q == [] then 0 else RequestWeight(q[0]) + RequestsWeight(q[1..])
  }

  function PhaseWeight(p: Phase): nat {
    match p
    case Free => 0
    case AwaitStart(_) => 1
    case AwaitStop(_) => 1
    case Doomed(_) => 3
    case CleanUp(_) => 3
    case Waiting(_, _) => 2
  }

  function RunnersWeight(rs: seq<RunnerRec>, p: Phase): nat {
    if rs == [] then 0
    else RunnersWeight(rs[..|rs|-1], p) + RunnerWeight(rs[|rs|-1], p == Doomed(|rs|-1))
  }

  function Weight(s: Sys): nat {
    RunnersWeight(s.runners, s.phase) + RequestsWeight(s.queue) + PhaseWeight(s.phase)
  }

  lemma {:induction false} TasksSnoc(q: seq<Task>, t: Task)
    ensures TasksWeight(q + [t]) == TasksWeight(q) + TaskWeight(t)
  {
    if q != [] {
      TasksSnoc(q[1..], t);
      assert (q + [t])[1..] == q[1..] + [t];
    }
  }

  lemma {:induction false} RequestsSnoc(q: seq<Request>, r: Request)
    ensures RequestsWeight(q + [r]) == RequestsWeight(q) + RequestWeight(r)
  {
    if q != [] {
      RequestsSnoc(q[1..], r);
      assert (q + [r])[1..] == q[1..] + [r];
    }
  }

  lemma {:induction false} OneRunnerChanges(a: seq<RunnerRec>, b: seq<RunnerRec>, p: Phase, p': Phase, i: nat)
    requires |a| == |b| && i < |a|
    requires forall j :: 0 <= j < |a| && j != i ==>
               RunnerWeight(b[j], p' == Doomed(j)) == RunnerWeight(a[j], p == Doomed(j))
    ensures RunnersWeight(b, p') - RunnersWeight(a, p) ==
            RunnerWeight(b[i], p' == Doomed(i)) - RunnerWeight(a[i], p == Doomed(i))
  {
    var n := |a| - 1;
    if i < n {
      OneRunnerChanges(a[..n], b[..n], p, p', i);
    } else {
      SameRunners(a[..n], b[..n], p, p');
    }
  }

  lemma {:induction false} SameRunners(a: seq<RunnerRec>, b: seq<RunnerRec>, p: Phase, p': Phase)
    requires |a| == |b|
    requires forall j :: 0 <= j < |a| ==> RunnerWeight(b[j], p' == Doomed(j)) == RunnerWeight(a[j], p == Doomed(j))
    ensures RunnersWeight(b, p') == RunnersWeight(a, p)
  {
    if a != [] {
      SameRunners(a[..|a|-1], b[..|b|-1], p, p');
    }
  }

  lemma {:induction false} NoHeavier(a: seq<RunnerRec>, b: seq<RunnerRec>, p: Phase)
    requires |a| == |b|
    requires forall j :: 0 <= j < |a| ==> RunnerWeight(b[j], p == Doomed(j)) <= RunnerWeight(a[j], p == Doomed(j))
    ensures RunnersWeight(b, p) <= RunnersWeight(a, p)
  {
    if a != [] {
      NoHeavier(a[..|a|-1], b[..|b|-1], p);
    }
  }

  // ---------------------------------------------------------------------------- every internal step is lighter

  lemma HaltLighter(r: RunnerRec, f: StopFault, doomed: bool)
    ensures RunnerWeight(Halt(r, f), false) <= RunnerWeight(r, doomed)
  {
  }

  lemma TakeStartLighter(s: Sys, name: string, f: TakeFaults)
    requires Shape(s) && s.phase == Free
    ensures Weight(TakeStart(s, name, f)) < Weight(s) + 24
  {
    var s' := TakeStart(s, name, f);
    var n := |s.runners|;
    if s'.phase != Free {
      assert s'.runners[..n] == s.runners;
      SameRunners(s.runners, s'.runners[..n], s.phase, s'.phase);
      assert TasksWeight([TaskStart]) == 12 + TasksWeight([]);
    } else {
      assert s'.runners == s.runners;
    }
  }

  lemma TakeStopLighter(s: Sys, name: string, f: TakeFaults)
    requires Shape(s) && s.phase == Free
    ensures Weight(TakeStop(s, name, f)) < Weight(s) + 3
  {
    var s' := TakeStop(s, name, f);
    if s'.phase != Free {
      var i := s.active[name];
      TasksSnoc(s.runners[i].queue, TaskStop(true));
      OneRunnerChanges(s.runners, s'.runners, s.phase, s'.phase, i);
    }
  }

  lemma TakeStopAllLighter(s: Sys, f: TakeFaults)
    requires s.phase == Free
    ensures Weight(TakeStopAll(s, f)) <= Weight(s)
  {
    var s' := TakeStopAll(s, f);
    forall j | 0 <= j < |s.runners| ensures RunnerWeight(s'.runners[j], false) <= RunnerWeight(s.runners[j], false) {
      HaltLighter(s.runners[j], HaltFault(f.halts, j), false);
    }
    NoHeavier(s.runners, s'.runners, s.phase);
  }

  lemma TakeLighter(s: Sys, f: TakeFaults)
    requires Shape(s) && Enabled(s, Take(f))
    ensures Weight(Next(s, Take(f))) < Weight(s)
  {
    var rest := s.(queue := s.queue[1..]);
    SameQueues(s, rest);
    match s.queue[0]
    case StartSession(name) => TakeStartLighter(rest, name, f);
    case StopSession(name) => TakeStopLighter(rest, name, f);
    case StopAllSessions => TakeStopAllLighter(rest, f);
  }

  lemma StartTaskWeight(r: RunnerRec, t: Table, start: StartFault, tx: TxFaults)
    requires RunnerOk(r)
    ensures RunnerWeight(StartTask(r, t, start, tx).0, false) <= RunnerWeight(r, false) + 8
  {
  }

  lemma StopTaskWeight(r: RunnerRec, t: Table, stop: StopFault, tx: TxFaults, doomed: bool)
    ensures var (r', _, ok) := StopTask(r, t, stop, tx);
            RunnerWeight(r', doomed) <= RunnerWeight(r, doomed) + (if ok then 4 else 0)
  {
  }

  /** A task taken off runner i's queue and finished with outcome r'. */
  lemma TaskDoneWeight(s: Sys, i: nat, r': RunnerRec, p: Phase)
    requires i < |s.runners| && s.runners[i].open && s.runners[i].queue != []
    requires s.phase == p || ((s.phase == Free || s.phase.i == i) && (p == Free || p.i == i))
    ensures RunnersWeight(s.runners[i := r'], p) - RunnersWeight(s.runners, s.phase) ==
            RunnerWeight(r', p == Doomed(i))
            - RunnerWeight(s.runners[i].(queue := s.runners[i].queue[1..]), s.phase == Doomed(i))
            - TaskWeight(s.runners[i].queue[0])
  {
    OneRunnerChanges(s.runners, s.runners[i := r'], s.phase, p, i);
  }

  /** A stop task done; the manager, if it asked for it, moves on. */
  lemma StopDoneLighter(s: Sys, i: nat, r': RunnerRec, t: Table, ok: bool)
    requires i < |s.runners| && s.runners[i].open && s.runners[i].queue != [] && r'.open
    requires s.runners[i].queue[0] == TaskStop(true) ==> s.phase == AwaitStop(i)
    requires s.runners[i].queue[0].TaskStop?
    requires var d := s.phase == Doomed(i);
             RunnerWeight(r', d) <=
               RunnerWeight(s.runners[i].(queue := s.runners[i].queue[1..]), d) + (if ok then 4 else 0)
    ensures Weight(StopDone(s, i, s.runners[i].queue[0].byManager, r', t, ok)) < Weight(s)
  {
    var p := StopDone(s, i, s.runners[i].queue[0].byManager, r', t, ok).phase;
    DoomedWeight(r');
    TaskDoneWeight(s, i, r', p);
  }

  lemma StartDoneLighter(s: Sys, i: nat, r': RunnerRec, t: Table, ok: bool)
    requires i < |s.runners| && s.runners[i].open && s.runners[i].queue != []
    requires s.runners[i].queue[0] == TaskStart && s.phase == AwaitStart(i)
    requires RunnerWeight(r', false) <= RunnerWeight(s.runners[i].(queue := s.runners[i].queue[1..]), false) + 8
    ensures Weight(StartDone(s, i, r', t, ok)) < Weight(s)
  {
    TaskDoneWeight(s, i, r', if ok then Free else CleanUp(i));
  }

  lemma WorkLighter(s: Sys, i: nat, start: StartFault, stop: StopFault, tx: TxFaults)
    requires Shape(s) && Enabled(s, Work(i, start, stop, tx))
    ensures Weight(WorkStep(s, i, start, stop, tx)) < Weight(s)
  {
    assert QueueOk(s, i);
    var task := s.runners[i].queue[0];
    assert task in s.runners[i].queue;
    var r := s.runners[i].(queue := s.runners[i].queue[1..]);
    assert RunnerOk(r) by { assert RunnerOk(s.runners[i]); }
    if task == TaskStart {
      var (r', t, ok) := StartTask(r, s.table, start, tx);
      StartTaskWeight(r, s.table, start, tx);
      StartDoneLighter(s, i, r', t, ok);
    } else {
      var (r', t, ok) := StopTask(r, s.table, stop, tx);
      StopTaskWeight(r, s.table, stop, tx, s.phase == Doomed(i));
      StopDoneLighter(s, i, r', t, ok);
    }
  }

  lemma DoomedWeight(r: RunnerRec)
    ensures RunnerWeight(r, false) == RunnerWeight(r, true) + (if r.open then OpenWeight else 0)
  {
  }

  lemma DaemonLighter(s: Sys, i: nat, d: Daemon, delivered: bool)
    requires Enabled(s, DaemonEnds(i, d, delivered))
    ensures Weight(DaemonStep(s, i, d, delivered)) < Weight(s)
  {
    var s' := DaemonStep(s, i, d, delivered);
    TasksSnoc(s.runners[i].queue, TaskStop(false));
    OneRunnerChanges(s.runners, s'.runners, s.phase, s'.phase, i);
  }

  lemma InternalLighter(s: Sys, e: Event)
    requires Shape(s) && Enabled(s, e) && Internal(e)
    ensures Weight(Next(s, e)) < Weight(s)
  {
    match e
    case Take(f) => TakeLighter(s, f);
    case Work(i, start, stop, tx) => WorkLighter(s, i, start, stop, tx);
    case DaemonEnds(i, d, delivered) => DaemonLighter(s, i, d, delivered);
    case IpcLoopEnds(i, delivered) =>
      ToldLighter(s, i, s.runners[i].(ipcLoop := false), delivered);
    case Notify(i, delivered) =>
      ToldLighter(s, i, s.runners[i].(notices := s.runners[i].notices - 1), delivered);
    case HaltRunner(f) => HaltedLighter(s, f);
    case Finish(joined, f) => FinishLighter(s, joined, f);
  }

  lemma FinishLighter(s: Sys, joined: bool, f: Faults)
    requires Enabled(s, Finish(joined, f))
    ensures Weight(FinishStep(s, joined, f)) < Weight(s)
  {
    var s' := FinishStep(s, joined, f);
    SameRunners(s.runners, s'.runners, s.phase, s'.phase);
  }

  /** A runner's thread ends after telling the manager, or failing to. */
  lemma ToldLighter(s: Sys, i: nat, r': RunnerRec, delivered: bool)
    requires i < |s.runners|
    requires forall doomed :: RunnerWeight(r', doomed) == RunnerWeight(s.runners[i], doomed) - 4
    ensures Weight(Enqueue(s.(runners := s.runners[i := r']), StopSession(s.runners[i].name), delivered)) < Weight(s)
  {
    RequestsSnoc(s.queue, StopSession(s.runners[i].name));
    OneRunnerChanges(s.runners, s.runners[i := r'], s.phase, s.phase, i);
  }

  lemma HaltedLighter(s: Sys, f: StopFault)
    requires Enabled(s, HaltRunner(f))
    ensures Weight(Next(s, HaltRunner(f))) < Weight(s)
  {
    var s', i := Next(s, HaltRunner(f)), s.phase.i;
    HaltLighter(s.runners[i], f, s.phase.Doomed?);
    OneRunnerChanges(s.runners, s'.runners, s.phase, s'.phase, i);
  }

  function InternalCount(es: seq<Event>): nat {
    if es == [] then 0 else (if Internal(es[0]) then 1 else 0) + InternalCount(es[1..])
  }

  predicate NoRequests(es: seq<Event>) {
    forall k :: 0 <= k < |es| ==> Internal(es[k]) || es[k].Edit? || es[k].Restart?
  }

  /** After a restart there is nothing to do. */
  lemma {:induction false} OrphansWeightless(rs: seq<RunnerRec>, removed: set<nat>)
    ensures RunnersWeight(OrphanAll(rs, removed), Free) == 0
  {
    if rs != [] {
      OrphansWeightless(rs[..|rs|-1], removed);
      assert OrphanAll(rs, removed)[..|rs|-1] == OrphanAll(rs[..|rs|-1], removed);
    }
  }

  /** Main result: once clients stop asking, whatever fails, however the table is edited meanwhile
      and however often the service restarts, it makes at most Weight(s) further steps of its own. */
  lemma {:induction false} CascadeEnds(s: Sys, es: seq<Event>)
    requires Shape(s) && IsRun(s, es) && NoRequests(es)
    ensures InternalCount(es) + Weight(After(s, es)) <= Weight(s)
    decreases |es|
  {
    if es != [] {
      var s' := Next(s, es[0]);
      NextKeepsShape(s, es[0]);
      if Internal(es[0]) {
        InternalLighter(s, es[0]);
      } else if es[0].Restart? {
        OrphansWeightless(s.runners, es[0].removed);
      }
      CascadeEnds(s', es[1..]);
    }
  }

  // ---------------------------------------------------------------------------- and it is never stuck

  /** Nothing is pending: no request, no handler half done, no task on an open worker, no notice. */
  predicate Quiet(s: Sys) {
    && s.queue == [] && s.phase == Free
    && forall i :: 0 <= i < |s.runners| ==>
         (s.runners[i].open ==> s.runners[i].queue == []) && s.runners[i].notices == 0
  }

  const AnyTake: TakeFaults := TakeFaults(false, Faults(false, false), false, false, false, map[])

  /** As long as something is pending some internal step can be taken, without waiting for a
      command or an IPC loop to end. */
  lemma NeverStuck(s: Sys) returns (e: Event)
    requires Shape(s) && !Quiet(s)
    ensures Enabled(s, e) && Internal(e) && !e.DaemonEnds? && !e.IpcLoopEnds?
  {
    match s.phase
    case Free =>
      if s.queue != [] {
        e := Take(AnyTake);
      } else {
        var i :| 0 <= i < |s.runners| &&
                 !((s.runners[i].open ==> s.runners[i].queue == []) && s.runners[i].notices == 0);
        e := if s.runners[i].notices > 0 then Notify(i, true) else Work(i, StartWorks, StopWorks, NoTxFaults);
      }
    case AwaitStart(i) =>
      assert QueueOk(s, i);
      e := Work(i, StartWorks, StopWorks, NoTxFaults);
    case AwaitStop(i) =>
      assert QueueOk(s, i);
      e := Work(i, StartWorks, StopWorks, NoTxFaults);
    case Doomed(_) => e := HaltRunner(StopWorks);
    case CleanUp(_) => e := HaltRunner(StopWorks);
    case Waiting(_, _) => e := Finish(false, Faults(false, false));
  }
}
