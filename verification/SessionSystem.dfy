/** The whole session service as a step system: the manager's worker, every runner's worker, the
    drivers' daemons, the notifications, the API's table edits and the clients' requests, in any
    interleaving and with any call failing, over any number of restarts. Runners are numbered in
    creation order and are never forgotten here, so a driver that outlives its runner's registration,
    or its process, stays visible. */
module SessionSystem {
  import opened Common
  import opened SessionTable
  import opened SessionDriver
  import opened SessionRunner

  datatype Request = StartSession(name: string) | StopSession(name: string) | StopAllSessions

  /** Where the manager's worker stands. AwaitStart/AwaitStop: blocked on runner i's task.
      Doomed: the stop task succeeded, the runner is about to be stopped. CleanUp: a start failed,
      likewise. Waiting: the runner is halted and its threads are being waited for. */
  datatype Phase =
    | Free
    | AwaitStart(i: nat)
    | AwaitStop(i: nat)
    | Doomed(i: nat)
    | CleanUp(i: nat)
    | Waiting(i: nat, unload: bool)

  datatype Sys = Sys(
    table: Table,
    active: map<string, nat>,
    runners: seq<RunnerRec>,
    queue: seq<Request>,
    phase: Phase,
    allowStarts: bool)

  /** Failures met while taking a request: the session lookup, forcing the row IDLE, building the
      runner, starting its worker, submitting the task; and the halts of a bulk stop. */
  datatype TakeFaults = TakeFaults(
    read: bool, idle: Faults, factory: bool, loop: bool, submit: bool, halts: map<nat, StopFault>)

  datatype Event =
    | Edit(op: Op, f: Faults)
    | Ask(req: Request)
    | ClientStop(i: nat)
    | Take(tf: TakeFaults)
    | Work(i: nat, start: StartFault, stop: StopFault, tx: TxFaults)
    | DaemonEnds(i: nat, d: Daemon, delivered: bool)
    | IpcLoopEnds(i: nat, delivered: bool)
    | Notify(i: nat, delivered: bool)
    | HaltRunner(stop: StopFault)
    | Finish(joined: bool, f: Faults)
    | Restart(removed: set<nat>)

  // ---------------------------------------------------------------------------- steps

  function TakeStart(s: Sys, name: string, f: TakeFaults): Sys {
    var k := Find(s.table, name);
    if !s.allowStarts || f.read || k == |s.table| || name in s.active then s
    else
      var (t, r) := if s.table[k].state == Idle then (s.table, Ok(()))
                    else Apply(s.table, SetState(name, Idle), f.idle);
      if r.Err? || f.factory then s.(table := t)
      else
        var n := |s.runners|;
        var started := NewRunner(t[k]).(ipcLoop := true, open := !f.loop);
        if f.loop || f.submit then s.(table := t, runners := s.runners + [started], phase := CleanUp(n))
        else s.(table := t, runners := s.runners + [started.(queue := [TaskStart])], phase := AwaitStart(n))
  }

  function TakeStop(s: Sys, name: string, f: TakeFaults): Sys {
    if name !in s.active || s.active[name] >= |s.runners| then s
    else
      var i := s.active[name];
      var r := s.runners[i];
      if !r.open || f.submit then s
      else s.(runners := s.runners[i := r.(queue := r.queue + [TaskStop(true)])], phase := AwaitStop(i))
  }

  function HaltFault(halts: map<nat, StopFault>, i: nat): StopFault {
    if i in halts then halts[i] else StopWorks
  }

  function HaltAll(rs: seq<RunnerRec>, which: set<nat>, halts: map<nat, StopFault>): (r: seq<RunnerRec>)
    ensures |r| == |rs|
    ensures forall i :: 0 <= i < |rs| ==> r[i] == if i in which then Halt(rs[i], HaltFault(halts, i)) else rs[i]
  {
    seq(|rs|, i requires 0 <= i < |rs| => if i in which then Halt(rs[i], HaltFault(halts, i)) else rs[i])
  }

  function TakeStopAll(s: Sys, f: TakeFaults): Sys {
    s.(allowStarts := false, active := map[], runners := HaltAll(s.runners, s.active.Values, f.halts))
  }

  function TakeStep(s: Sys, f: TakeFaults): Sys
    requires s.queue != []
  {
    var rest := s.(queue := s.queue[1..]);
    match s.queue[0]
    case StartSession(name) => TakeStart(rest, name, f)
    case StopSession(name) => TakeStop(rest, name, f)
    case StopAllSessions => TakeStopAll(rest, f)
  }

  /** Runner i's worker runs its next task; the manager, if it waits for this task, moves on. */
  function WorkStep(s: Sys, i: nat, start: StartFault, stop: StopFault, tx: TxFaults): Sys
    requires i < |s.runners| && s.runners[i].queue != []
  {
    var r := s.runners[i].(queue := s.runners[i].queue[1..]);
    match s.runners[i].queue[0]
    case TaskStart =>
      var (r', t, ok) := StartTask(r, s.table, start, tx);
      StartDone(s, i, r', t, ok)
    case TaskStop(byManager) =>
      var (r', t, ok) := StopTask(r, s.table, stop, tx);
      StopDone(s, i, byManager, r', t, ok)
  }

  function StartDone(s: Sys, i: nat, r': RunnerRec, t: Table, ok: bool): Sys
    requires i < |s.runners|
  {
    var s' := s.(table := t, runners := s.runners[i := r']);
    if s.phase != AwaitStart(i) then s'
    else if ok then s'.(active := s.active[r'.name := i], phase := Free)
    else s'.(phase := CleanUp(i))
  }

  function StopDone(s: Sys, i: nat, byManager: bool, r': RunnerRec, t: Table, ok: bool): Sys
    requires i < |s.runners|
  {
    var s' := s.(table := t, runners := s.runners[i := r']);
    if !byManager || s.phase != AwaitStop(i) then s'
    else s'.(phase := if ok then Doomed(i) else Free)
  }

  function Submit(r: RunnerRec, task: Task): RunnerRec {
    if r.open then r.(queue := r.queue + [task]) else r
  }

  function DaemonStep(s: Sys, i: nat, d: Daemon, delivered: bool): Sys
    requires i < |s.runners|
  {
    var r := s.runners[i].(driver := s.runners[i].driver.(daemons := s.runners[i].driver.daemons - {d}));
    s.(runners := s.runners[i := if d == Waiter && r.driver.open && delivered then Submit(r, TaskStop(false)) else r])
  }

  function Enqueue(s: Sys, req: Request, delivered: bool): Sys {
    if delivered then s.(queue := s.queue + [req]) else s
  }

  function FinishStep(s: Sys, joined: bool, f: Faults): Sys
    requires s.phase.Waiting? && s.phase.i < |s.runners|
  {
    var r := s.runners[s.phase.i];
    if s.phase.unload then s.(active := if joined then s.active - {r.name} else s.active, phase := Free)
    else s.(table := Apply(s.table, SetState(r.name, Idle), f).0, phase := Free)
  }

  function OrphanAll(rs: seq<RunnerRec>, removed: set<nat>): (r: seq<RunnerRec>)
    ensures |r| == |rs| && forall i :: 0 <= i < |rs| ==> r[i] == Orphaned(rs[i], i in removed)
  {
    seq(|rs|, i requires 0 <= i < |rs| => Orphaned(rs[i], i in removed))
  }

  /** The process ends, at whatever moment, and another manager starts over the same table: it resets
      every READY row and has loaded nothing. Containers run on, except those `removed` meanwhile. */
  function RestartStep(s: Sys, removed: set<nat>): Sys {
    Sys(AllIdle(s.table), map[], OrphanAll(s.runners, removed), [], Free, true)
  }

  predicate Enabled(s: Sys, e: Event) {
    match e
    case Edit(op, _) => !op.SetState?
    case Ask(_) => true
    case ClientStop(i) => i < |s.runners| && s.runners[i].ipcLoop
    case Take(_) => s.phase == Free && s.queue != []
    case Work(i, _, _, _) => i < |s.runners| && s.runners[i].open && s.runners[i].queue != []
    case DaemonEnds(i, d, _) => i < |s.runners| && d in s.runners[i].driver.daemons
    case IpcLoopEnds(i, _) => i < |s.runners| && s.runners[i].ipcLoop
    case Notify(i, _) => i < |s.runners| && s.runners[i].notices > 0
    case HaltRunner(_) => (s.phase.Doomed? || s.phase.CleanUp?) && s.phase.i < |s.runners|
    case Finish(joined, _) =>
      s.phase.Waiting? && s.phase.i < |s.runners| &&
      (joined ==> !s.runners[s.phase.i].ipcLoop && s.runners[s.phase.i].notices == 0)
    case Restart(_) => true
  }

  function Next(s: Sys, e: Event): Sys
    requires Enabled(s, e)
  {
    match e
    case Edit(op, f) => s.(table := Apply(s.table, op, f).0)
    case Ask(req) => Enqueue(s, req, true)
    case ClientStop(i) => s.(runners := s.runners[i := Submit(s.runners[i], TaskStop(false))])
    case Take(f) => TakeStep(s, f)
    case Work(i, start, stop, tx) => WorkStep(s, i, start, stop, tx)
    case DaemonEnds(i, d, delivered) => DaemonStep(s, i, d, delivered)
    case IpcLoopEnds(i, delivered) =>
      Enqueue(s.(runners := s.runners[i := s.runners[i].(ipcLoop := false)]), StopSession(s.runners[i].name), delivered)
    case Notify(i, delivered) =>
      Enqueue(s.(runners := s.runners[i := s.runners[i].(notices := s.runners[i].notices - 1)]),
              StopSession(s.runners[i].name), delivered)
    case HaltRunner(f) =>
      s.(runners := s.runners[s.phase.i := Halt(s.runners[s.phase.i], f)], phase := Waiting(s.phase.i, s.phase.Doomed?))
    case Finish(joined, f) => FinishStep(s, joined, f)
    case Restart(removed) => RestartStep(s, removed)
  }

  /** A manager that has just started over a table for the first time; nothing has been loaded. */
  predicate Init(s: Sys) {
    TableInv(s.table) && s.active == map[] && s.runners == [] && s.queue == [] && s.phase == Free && s.allowStarts
  }

  /** The events can happen one after the other from s. */
  predicate IsRun(s: Sys, es: seq<Event>)
    decreases |es|
  {
    es == [] || (Enabled(s, es[0]) && IsRun(Next(s, es[0]), es[1..]))
  }

  function After(s: Sys, es: seq<Event>): Sys
    requires IsRun(s, es)
    decreases |es|
  {
    if es == [] then s else After(Next(s, es[0]), es[1..])
  }

  // ---------------------------------------------------------------------------- what holds always

  predicate InFlight(s: Sys, i: nat) {
    s.phase == AwaitStart(i) || s.phase == CleanUp(i) || s.phase == Waiting(i, false)
  }

  predicate Unloading(s: Sys, i: nat) {
    s.phase == AwaitStop(i) || s.phase == Doomed(i) || s.phase == Waiting(i, true)
  }

  predicate Registered(s: Sys, i: nat)
    requires i < |s.runners|
  {
    s.runners[i].name in s.active && s.active[s.runners[i].name] == i
  }

  predicate QueueOk(s: Sys, i: nat)
    requires i < |s.runners|
  {
    var r := s.runners[i];
    && (r.open ==> (TaskStart in r.queue <==> s.phase == AwaitStart(i)))
    && (r.open ==> (TaskStop(true) in r.queue <==> s.phase == AwaitStop(i)))
    && (forall a, b :: 0 <= a < b < |r.queue| && r.queue[a] == r.queue[b] ==> r.queue[a] == TaskStop(false))
    && (s.phase == AwaitStart(i) || s.phase == AwaitStop(i) ==> r.open)
  }

  predicate PhaseOk(s: Sys) {
    s.phase == Free ||
    (var i := s.phase.i;
     && i < |s.runners|
     && (InFlight(s, i) ==> s.allowStarts && s.runners[i].name !in s.active)
     && (Unloading(s, i) ==> Registered(s, i))
     && (s.phase.Waiting? ==> !s.runners[i].open)
     && (s.phase == Doomed(i) ==> !s.runners[i].driver.core && s.runners[i].ctxLive)
     && (s.phase == Waiting(i, true) ==> !s.runners[i].driver.core && UnloadedInOrder(s.runners[i].driver.log)))
  }

  /** Holds in every reachable state, whatever fails and whatever is renamed. */
  predicate Shape(s: Sys) {
    && TableInv(s.table)
    && (forall n :: n in s.active ==> s.active[n] < |s.runners| && s.runners[s.active[n]].name == n)
    && (forall i :: 0 <= i < |s.runners| ==> RunnerOk(s.runners[i]))
    && (forall i :: 0 <= i < |s.runners| ==> QueueOk(s, i))
    && PhaseOk(s)
  }

  lemma TakeStartKeepsShape(s: Sys, name: string, f: TakeFaults)
    requires Shape(s) && s.phase == Free
    ensures Shape(TakeStart(s, name, f))
  {
    ApplyKeepsInv(s.table, SetState(name, Idle), f.idle);
    var s' := TakeStart(s, name, f);
    if s'.phase == Free {
      SameQueues(s, s');
    } else {
      var n := |s.runners|;
      NewRunnerOk(s'.table[Find(s.table, name)]);
      NewRunnerKeepsShape(s, s'.table, s'.runners[n], s'.phase);
    }
  }

  /** A fresh runner, waiting for its start task or to be cleaned up. */
  lemma NewRunnerKeepsShape(s: Sys, t: Table, r: RunnerRec, phase: Phase)
    requires Shape(s) && s.phase == Free && s.allowStarts && TableInv(t) && r.name !in s.active
    requires RunnerOk(r)
    requires (phase == AwaitStart(|s.runners|) && r.open && r.queue == [TaskStart])
             || (phase == CleanUp(|s.runners|) && r.queue == [])
    ensures Shape(s.(table := t, runners := s.runners + [r], phase := phase))
  {
    var s' := s.(table := t, runners := s.runners + [r], phase := phase);
    var n := |s.runners|;
    assert forall i :: 0 <= i < n ==> s'.runners[i] == s.runners[i];
    assert QueueOk(s', n);
    forall i | 0 <= i < n ensures QueueOk(s', i) { assert QueueOk(s, i); }
  }

  lemma TakeStopKeepsShape(s: Sys, name: string, f: TakeFaults)
    requires Shape(s) && s.phase == Free
    ensures Shape(TakeStop(s, name, f))
  {
    var s' := TakeStop(s, name, f);
    if s'.phase != Free {
      var i := s.active[name];
      forall j | 0 <= j < |s.runners| ensures QueueOk(s', j) {
        assert QueueOk(s, j);
        if j == i { assert s'.runners[i].queue[|s.runners[i].queue|] == TaskStop(true); }
      }
    }
  }

  lemma TakeStopAllKeepsShape(s: Sys, f: TakeFaults)
    requires Shape(s) && s.phase == Free
    ensures Shape(TakeStopAll(s, f))
  {
    var s' := TakeStopAll(s, f);
    forall i | 0 <= i < |s.runners| ensures RunnerOk(s'.runners[i]) && QueueOk(s', i) {
      assert QueueOk(s, i);
      HaltOk(s.runners[i], HaltFault(f.halts, i));
    }
  }

  lemma PoppedQueue(s: Sys, i: nat)
    requires i < |s.runners| && QueueOk(s, i) && s.runners[i].queue != []
    ensures var q := s.runners[i].queue;
            && (forall task :: task in q[1..] ==> task in q)
            && (q[0] != TaskStop(false) ==> q[0] !in q[1..])
            && (forall task :: task in q && task != q[0] ==> task in q[1..])
            && (forall a, b :: 0 <= a < b < |q[1..]| && q[1..][a] == q[1..][b] ==> q[1..][a] == TaskStop(false))
  {
    var q := s.runners[i].queue;
    assert q == [q[0]] + q[1..];
  }

  lemma OthersKeepQueues(s: Sys, s': Sys, i: nat)
    requires forall j :: 0 <= j < |s.runners| ==> QueueOk(s, j)
    requires i < |s.runners| == |s'.runners| && QueueOk(s', i)
    requires forall j :: 0 <= j < |s.runners| && j != i ==> s'.runners[j] == s.runners[j]
    requires s.phase == s'.phase || ((s.phase == Free || s.phase.i == i) && (s'.phase == Free || s'.phase.i == i))
    ensures forall j :: 0 <= j < |s.runners| ==> QueueOk(s', j)
  {
    forall j | 0 <= j < |s.runners| ensures QueueOk(s', j) {
      assert QueueOk(s, j);
    }
  }

  /** A finished start task, seen only through its outcome. */
  lemma StartDoneKeepsShape(s: Sys, i: nat, r': RunnerRec, t: Table, ok: bool)
    requires Shape(s) && i < |s.runners| && s.phase == AwaitStart(i) && s.runners[i].open
    requires s.runners[i].queue != [] && s.runners[i].queue[0] == TaskStart && TableInv(t) && RunnerOk(r')
    requires r' == s.runners[i].(queue := s.runners[i].queue[1..], session := r'.session, driver := r'.driver)
    ensures Shape(StartDone(s, i, r', t, ok))
  {
    var s' := StartDone(s, i, r', t, ok);
    assert QueueOk(s, i);
    PoppedQueue(s, i);
    OthersKeepQueues(s, s', i);
    assert forall j :: 0 <= j < |s.runners| ==> RunnerOk(s'.runners[j]);
  }

  lemma WorkStartKeepsShape(s: Sys, i: nat, start: StartFault, stop: StopFault, tx: TxFaults)
    requires Shape(s) && Enabled(s, Work(i, start, stop, tx)) && s.runners[i].queue[0] == TaskStart
    ensures Shape(WorkStep(s, i, start, stop, tx))
  {
    assert QueueOk(s, i);
    var r := s.runners[i].(queue := s.runners[i].queue[1..]);
    assert RunnerOk(r);
    StartTaskOk(r, s.table, start, tx);
    ApplyKeepsInv(s.table, SetState(r.name, Ready), tx.update);
    var (r', t, ok) := StartTask(r, s.table, start, tx);
    StartDoneKeepsShape(s, i, r', t, ok);
  }

  /** A finished stop task, seen only through its outcome. */
  lemma StopDoneKeepsShape(s: Sys, i: nat, r': RunnerRec, t: Table, ok: bool)
    requires Shape(s) && i < |s.runners| && s.runners[i].open && s.runners[i].queue != []
    requires s.runners[i].queue[0].TaskStop? && TableInv(t) && RunnerOk(r')
    requires r' == s.runners[i].(queue := s.runners[i].queue[1..], session := r'.session, notices := r'.notices,
                                 driver := r'.driver)
    requires ok || !s.runners[i].driver.core ==> !r'.driver.core
    ensures Shape(StopDone(s, i, s.runners[i].queue[0].byManager, r', t, ok))
  {
    var s' := StopDone(s, i, s.runners[i].queue[0].byManager, r', t, ok);
    StopDoneKeepsQueues(s, i, r', t, ok);
    assert forall j :: 0 <= j < |s.runners| ==> RunnerOk(s'.runners[j]);
    StopDoneKeepsPhase(s, i, s.runners[i].queue[0].byManager, r', t, ok);
  }

  lemma StopDoneKeepsQueues(s: Sys, i: nat, r': RunnerRec, t: Table, ok: bool)
    requires forall j :: 0 <= j < |s.runners| ==> QueueOk(s, j)
    requires i < |s.runners| && s.runners[i].open && s.runners[i].queue != [] && s.runners[i].queue[0].TaskStop?
    requires r'.queue == s.runners[i].queue[1..] && r'.open
    ensures var s' := StopDone(s, i, s.runners[i].queue[0].byManager, r', t, ok);
            forall j :: 0 <= j < |s.runners| ==> QueueOk(s', j)
  {
    assert QueueOk(s, i);
    PoppedQueue(s, i);
    OthersKeepQueues(s, StopDone(s, i, s.runners[i].queue[0].byManager, r', t, ok), i);
  }

  lemma StopDoneKeepsPhase(s: Sys, i: nat, byManager: bool, r': RunnerRec, t: Table, ok: bool)
    requires PhaseOk(s) && i < |s.runners| && s.runners[i].open && r'.name == s.runners[i].name
    requires forall j :: 0 <= j < |s.runners| ==> RunnerOk(s.runners[j])
    requires r'.ctxLive == s.runners[i].ctxLive && (ok || !s.runners[i].driver.core ==> !r'.driver.core)
    ensures PhaseOk(StopDone(s, i, byManager, r', t, ok))
  {
    assert RunnerOk(s.runners[i]);
    assert s.phase != Waiting(i, true);
  }

  lemma WorkStopKeepsShape(s: Sys, i: nat, start: StartFault, stop: StopFault, tx: TxFaults)
    requires Shape(s) && Enabled(s, Work(i, start, stop, tx)) && s.runners[i].queue[0].TaskStop?
    ensures Shape(WorkStep(s, i, start, stop, tx))
  {
    var r := s.runners[i].(queue := s.runners[i].queue[1..]);
    assert RunnerOk(r);
    StopTaskOk(r, s.table, stop, tx);
    IdleCommit(r, s.table, stop, tx);
    ApplyKeepsInv(s.table, SetState(r.name, Idle), tx.update);
    var (r', t, ok) := StopTask(r, s.table, stop, tx);
    StopDoneKeepsShape(s, i, r', t, ok);
  }

  lemma RunnerOnlyKeepsShape(s: Sys, s': Sys, i: nat)
    requires Shape(s) && i < |s.runners|
    requires s' == s.(runners := s'.runners, queue := s'.queue) && |s'.runners| == |s.runners|
    requires s'.runners == s.runners[i := s'.runners[i]]
    requires var r, r' := s.runners[i], s'.runners[i];
             && r'.name == r.name && r'.open == r.open && r'.ctxLive == r.ctxLive
             && (r'.queue == r.queue || r'.queue == r.queue + [TaskStop(false)])
             && r'.driver == r.driver.(daemons := r'.driver.daemons) && r'.driver.daemons <= r.driver.daemons
    ensures Shape(s')
  {
    forall j | 0 <= j < |s.runners| ensures QueueOk(s', j) && RunnerOk(s'.runners[j]) {
      assert QueueOk(s, j);
    }
  }

  lemma HaltKeepsShape(s: Sys, f: StopFault)
    requires Shape(s) && Enabled(s, HaltRunner(f))
    ensures Shape(Next(s, HaltRunner(f)))
  {
    var r := s.runners[s.phase.i];
    HaltOk(r, f);
    if s.phase.Doomed? { HaltAfterStopInOrder(r, f); }
    HaltedKeepsShape(s, Halt(r, f));
  }

  /** A halted runner, seen only through what the halt left. */
  lemma HaltedKeepsShape(s: Sys, r': RunnerRec)
    requires Shape(s) && (s.phase.Doomed? || s.phase.CleanUp?)
    requires RunnerOk(r') && !r'.open && r'.name == s.runners[s.phase.i].name && r'.queue == s.runners[s.phase.i].queue
    requires s.phase.Doomed? ==> !r'.driver.core && UnloadedInOrder(r'.driver.log)
    ensures Shape(s.(runners := s.runners[s.phase.i := r'], phase := Waiting(s.phase.i, s.phase.Doomed?)))
  {
    var s' := s.(runners := s.runners[s.phase.i := r'], phase := Waiting(s.phase.i, s.phase.Doomed?));
    forall j | 0 <= j < |s.runners| ensures QueueOk(s', j) && RunnerOk(s'.runners[j]) { assert QueueOk(s, j); }
  }

  lemma FinishKeepsShape(s: Sys, joined: bool, f: Faults)
    requires Shape(s) && Enabled(s, Finish(joined, f))
    ensures Shape(Next(s, Finish(joined, f)))
  {
    var s' := Next(s, Finish(joined, f));
    ApplyKeepsInv(s.table, SetState(s.runners[s.phase.i].name, Idle), f);
    forall j | 0 <= j < |s.runners| ensures QueueOk(s', j) { assert QueueOk(s, j); }
  }

  lemma AllIdleInv(t: Table)
    requires TableInv(t)
    ensures TableInv(AllIdle(t))
  {
    assert forall i :: 0 <= i < |t| ==> AllIdle(t)[i].id == t[i].id && AllIdle(t)[i].name == t[i].name;
  }

  lemma RestartKeepsShape(s: Sys, removed: set<nat>)
    requires Shape(s)
    ensures Shape(RestartStep(s, removed))
  {
    AllIdleInv(s.table);
    var s' := RestartStep(s, removed);
    forall i | 0 <= i < |s'.runners| ensures RunnerOk(s'.runners[i]) && QueueOk(s', i) {
      OrphanedOk(s.runners[i], i in removed);
    }
  }

  lemma NextKeepsShape(s: Sys, e: Event)
    requires Shape(s) && Enabled(s, e)
    ensures Shape(Next(s, e))
  {
    match e
    case Edit(op, f) => ApplyKeepsInv(s.table, op, f); SameQueues(s, Next(s, e));
    case Ask(_) => SameQueues(s, Next(s, e));
    case ClientStop(i) => RunnerOnlyKeepsShape(s, Next(s, e), i);
    case Take(f) =>
      var rest := s.(queue := s.queue[1..]);
      SameQueues(s, rest);
      match s.queue[0] {
        case StartSession(name) => TakeStartKeepsShape(rest, name, f);
        case StopSession(name) => TakeStopKeepsShape(rest, name, f);
        case StopAllSessions => TakeStopAllKeepsShape(rest, f);
      }
    case Work(i, start, stop, tx) =>
      if s.runners[i].queue[0] == TaskStart { WorkStartKeepsShape(s, i, start, stop, tx); }
      else { WorkStopKeepsShape(s, i, start, stop, tx); }
    case DaemonEnds(i, d, _) => RunnerOnlyKeepsShape(s, Next(s, e), i);
    case IpcLoopEnds(i, _) => RunnerOnlyKeepsShape(s, Next(s, e), i);
    case Notify(i, _) => RunnerOnlyKeepsShape(s, Next(s, e), i);
    case HaltRunner(f) => HaltKeepsShape(s, f);
    case Finish(joined, f) => FinishKeepsShape(s, joined, f);
    case Restart(removed) => RestartKeepsShape(s, removed);
  }

  lemma SameQueues(s: Sys, s': Sys)
    requires Shape(s) && TableInv(s'.table)
    requires s' == s.(table := s'.table, queue := s'.queue)
    ensures Shape(s')
  {
    forall j | 0 <= j < |s.runners| ensures QueueOk(s', j) { assert QueueOk(s, j); }
  }

  lemma {:induction false} RunKeepsShape(s: Sys, es: seq<Event>)
    requires Shape(s) && IsRun(s, es)
    ensures Shape(After(s, es))
    decreases |es|
  {
    if es != [] {
      NextKeepsShape(s, es[0]);
      RunKeepsShape(Next(s, es[0]), es[1..]);
    }
  }
}
