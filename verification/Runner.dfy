/** The session runner: a worker taking one task at a time, the IPC loop, and the driver. */
module SessionRunner {
  import opened Common
  import opened SessionTable
  import opened SessionDriver
  import opened StopRetries

  /** Work queued on a runner. `byManager` marks the stop the manager is waiting for. */
  datatype Task = TaskStart | TaskStop(byManager: bool)

  /** `open`: the worker accepts and runs tasks. `notices`: idle notifications spawned and not yet
      delivered. `session` is the runner's own copy of its row. */
  datatype RunnerRec = RunnerRec(
    name: string,
    id: string,
    session: Session,
    ctxLive: bool,
    open: bool,
    queue: seq<Task>,
    ipcLoop: bool,
    notices: nat,
    driver: DriverRec)

  /** Failures of one transaction: the update's two statements, and the read back or commit. */
  datatype TxFaults = TxFaults(update: Faults, readBack: bool)

  /** Move the named session to `s` and read it back, in one transaction. */
  function MarkAndRead(t: Table, name: string, s: State, f: TxFaults): (Table, Option<Session>) {
    var (t', r) := Apply(t, SetState(name, s), f.update);
    if r.Err? || f.readBack then (t, None) else (t', Some(t'[Find(t, name)]))
  }

  /** The start task: the driver first, READY once it is up. An error whose chain holds a
      consistency error counts as "already running". */
  function StartTask(r: RunnerRec, t: Table, f: StartFault, db: TxFaults): (RunnerRec, Table, bool) {
    var (d, res) := DriverStart(r.driver, r.ctxLive, f);
    if res.StartFailed? && !res.consistencyInside then (r.(driver := d), t, false)
    else
      var (t', row) := MarkAndRead(t, r.name, Ready, db);
      if row.None? then (r.(driver := d), t, false)
      else (r.(driver := d, session := row.value), t', true)
  }

  /** The stop task: IDLE once the driver is down; success spawns an idle notification. */
  function StopTask(r: RunnerRec, t: Table, f: StopFault, db: TxFaults): (RunnerRec, Table, bool) {
    var (d, res) := DriverStop(r.driver, f);
    if res.StopFailed? then (r.(driver := d), t, false)
    else
      var (t', row) := MarkAndRead(t, r.name, Idle, db);
      if row.None? then (r.(driver := d), t, false)
      else (r.(driver := d, session := row.value, notices := r.notices + 1), t', true)
  }

  /** What fails in one task, whichever it is. */
  datatype TaskFaults = TaskFaults(start: StartFault, stop: StopFault, tx: TxFaults)

  const NoTxFaults: TxFaults := TxFaults(Faults(false, false), false)

  const NoTaskFaults: TaskFaults := TaskFaults(StartWorks, StopWorks, NoTxFaults)

  function RunTask(r: RunnerRec, t: Table, task: Task, f: TaskFaults): (RunnerRec, Table, bool) {
    match task
    case TaskStart => StartTask(r, t, f.start, f.tx)
    case TaskStop(_) => StopTask(r, t, f.stop, f.tx)
  }

  function First(faults: seq<TaskFaults>): TaskFaults {
    if faults == [] then NoTaskFaults else faults[0]
  }

  function Rest(faults: seq<TaskFaults>): seq<TaskFaults> {
    if faults == [] then [] else faults[1..]
  }

  /** The worker runs everything that is queued. */
  function Drained(r: RunnerRec, t: Table, faults: seq<TaskFaults>): (RunnerRec, Table)
    decreases |r.queue|
  {
    if r.queue == [] then (r, t)
    else
      var (r', t', _) := RunTask(r.(queue := r.queue[1..]), t, r.queue[0], First(faults));
      Drained(r', t', Rest(faults))
  }

  lemma DrainedStep(r: RunnerRec, t: Table, faults: seq<TaskFaults>)
    requires r.queue != []
    ensures var (r', t', _) := RunTask(r.(queue := r.queue[1..]), t, r.queue[0], First(faults));
            Drained(r, t, faults) == Drained(r', t', Rest(faults))
  {
  }

  /** A task does not look at the queue it came from. */
  lemma RunTaskQueue(r: RunnerRec, t: Table, task: Task, f: TaskFaults, q: seq<Task>)
    ensures var (a, ta, oka) := RunTask(r, t, task, f);
            var (b, tb, okb) := RunTask(r.(queue := q), t, task, f);
            b == a.(queue := q) && tb == ta && okb == oka && a.queue == r.queue
  {
  }

  /** A stop the caller waits for: refused by a closed worker, else run after what is queued. */
  function StopSubmitted(r: RunnerRec, t: Table, refused: bool, earlier: seq<TaskFaults>, f: StopFault, db: TxFaults)
    : (RunnerRec, Table, bool)
  {
    if refused || !r.open then (r, t, false)
    else
      var (r', t') := Drained(r, t, earlier);
      StopTask(r', t', f, db)
  }

  /** The first half of stopping a runner: cancel its context, stop the driver (a failure is only
      logged), close the worker. What remains is the bounded wait for its threads. */
  function Halt(r: RunnerRec, f: StopFault): RunnerRec {
    r.(ctxLive := false, open := false, driver := DriverStop(ParentCancelled(r.driver), f).0)
  }

  /** A runner whose process has ended; only its container may be left. */
  function Orphaned(r: RunnerRec, removed: bool): RunnerRec {
    r.(ctxLive := false, open := false, queue := [], ipcLoop := false, notices := 0,
       driver := ProcessGone(r.driver, removed))
  }

  function NewRunner(entry: Session): RunnerRec {
    RunnerRec(entry.name, entry.id, entry, true, false, [], false, 0, NewDriver(entry.driver == DOCKER))
  }

  /** A completed wait means the IPC loop and the notification threads have ended. */
  function Joined(r: RunnerRec, joined: bool): RunnerRec {
    if joined then r.(ipcLoop := false, notices := 0) else r
  }

  // ---------------------------------------------------------------------------- state agreement

  /** The transaction moves exactly the named row to the state and reads that row back, or does
      nothing at all. */
  lemma MarkAndReadExact(t: Table, name: string, s: State, f: TxFaults)
    requires TableInv(t)
    ensures var (t', row) := MarkAndRead(t, name, s, f);
            var i := Find(t, name);
            if row.None? then t' == t
            else i < |t| && t' == t[i := t[i].(state := s)] && Find(t', name) == i && row.value == t'[i]
  {
    SetStateExact(t, name, s, f.update);
    if Find(t, name) < |t| { FindMarked(t, Find(t, name), s); }
  }

  /** A committed READY finds the core recorded, except when a failed driver start carried a
      consistency error: exactly then the row says READY over a runner with no core. */
  lemma ReadyCommitExact(r: RunnerRec, t: Table, f: StartFault, db: TxFaults)
    requires TableInv(t)
    ensures var (r', t', ok) := StartTask(r, t, f, db);
            ok ==> && Find(t', r.name) < |t'| && t'[Find(t', r.name)] == r'.session && r'.session.state == Ready
                   && (r'.driver.core <==> (r.driver.core || !(f.FailsAt? && f.consistencyInside)))
  {
    MarkAndReadExact(t, r.name, Ready, db);
  }

  /** A committed IDLE finds the core cleared and every daemon ended; a failed stop task leaves
      the table alone. */
  lemma IdleCommit(r: RunnerRec, t: Table, f: StopFault, db: TxFaults)
    requires TableInv(t) && DriverOk(r.driver)
    ensures var (r', t', ok) := StopTask(r, t, f, db);
            && DriverOk(r'.driver)
            && (ok ==> && !r'.driver.core && r'.driver.daemons == {} && r'.notices == r.notices + 1
                       && Find(t', r.name) < |t'| && t'[Find(t', r.name)] == r'.session && r'.session.state == Idle)
            && (!ok ==> t' == t && r'.notices == r.notices)
  {
    MarkAndReadExact(t, r.name, Idle, db);
  }

  type Attempts = seq<(StopFault, TxFaults)>

  function AfterStops(r: RunnerRec, t: Table, attempts: Attempts): (RunnerRec, Table)
    decreases |attempts|
  {
    if attempts == [] then (r, t)
    else
      var (r', t', _) := StopTask(r, t, attempts[0].0, attempts[0].1);
      AfterStops(r', t', attempts[1..])
  }

  function StopFaults(attempts: Attempts): (f: seq<StopFault>)
    ensures |f| == |attempts| && forall k :: 0 <= k < |f| ==> f[k] == attempts[k].0
  {
    seq(|attempts|, i requires 0 <= i < |attempts| => attempts[i].0)
  }

  /** The row stays, and the driver goes through the same stops, whatever the transactions do. */
  lemma {:induction false} StopsOnDriver(r: RunnerRec, t: Table, attempts: Attempts)
    requires TableInv(t) && DriverOk(r.driver) && Find(t, r.name) < |t|
    ensures var (r', t') := AfterStops(r, t, attempts);
            && r'.driver == StopRetries.AfterStops(r.driver, StopFaults(attempts)) && DriverOk(r'.driver)
            && r'.name == r.name && TableInv(t') && Find(t', r.name) < |t'|
    decreases |attempts|
  {
    if attempts != [] {
      var (f, db) := attempts[0];
      var (r', t', _) := StopTask(r, t, f, db);
      IdleCommit(r, t, f, db);
      ApplyKeepsInv(t, SetState(r.name, Idle), db.update);
      MarkAndReadExact(t, r.name, Idle, db);
      assert StopFaults(attempts)[1..] == StopFaults(attempts[1..]);
      StopsOnDriver(r', t', attempts[1..]);
    }
  }

  /** Stopping again. After any sequence of stop attempts, whatever failed in them, a failure-free
      one reaches IDLE with the core cleared exactly when the core is down already or can still be
      torn down. */
  lemma RetryReachesIdle(r: RunnerRec, t: Table, attempts: Attempts)
    requires TableInv(t) && DriverOk(r.driver) && Find(t, r.name) < |t|
    ensures var (r1, t1) := AfterStops(r, t, attempts);
            var (r2, t2, ok) := StopTask(r1, t1, StopWorks, NoTxFaults);
            && (ok <==> !r1.driver.core || CanTearDown(r1.driver))
            && (ok ==> !r2.driver.core && r2.driver.daemons == {} &&
                       Find(t2, r.name) < |t2| && t2[Find(t2, r.name)].state == Idle)
  {
    StopsOnDriver(r, t, attempts);
    var (r1, t1) := AfterStops(r, t, attempts);
    IdleCommit(r1, t1, StopWorks, NoTxFaults);
  }

  /** ... that is, after attempts that all failed at the driver, when there were none or the core
      is a PTY and each of them died at the kill. */
  lemma RetryReachesIdleExact(r: RunnerRec, t: Table, attempts: Attempts)
    requires TableInv(t) && DriverOk(r.driver) && Find(t, r.name) < |t|
    requires r.driver.core && CanTearDown(r.driver) && AllFailed(r.driver, StopFaults(attempts))
    ensures var (r1, t1) := AfterStops(r, t, attempts);
            StopTask(r1, t1, StopWorks, NoTxFaults).2 <==>
            attempts == [] || (!r.driver.docker && forall k :: 0 <= k < |attempts| ==> DiedAtKill(attempts[k].0))
  {
    RetryReachesIdle(r, t, attempts);
    StopsOnDriver(r, t, attempts);
    RetryOnFaults(r.driver, attempts);
  }

  lemma RetryOnFaults(d: DriverRec, attempts: Attempts)
    requires d.core && CanTearDown(d) && AllFailed(d, StopFaults(attempts))
    ensures var d' := StopRetries.AfterStops(d, StopFaults(attempts));
            && d'.core
            && (CanTearDown(d') <==>
                attempts == [] || (!d.docker && forall k :: 0 <= k < |attempts| ==> DiedAtKill(attempts[k].0)))
  {
    var faults := StopFaults(attempts);
    RetryExact(d, faults);
    FailedKeepCore(d, faults);
    if forall k :: 0 <= k < |attempts| ==> DiedAtKill(attempts[k].0) {
      assert forall f :: f in faults ==> DiedAtKill(f);
    } else {
      var k :| 0 <= k < |attempts| && !DiedAtKill(attempts[k].0);
      assert faults[k] in faults;
    }
  }

  // ---------------------------------------------------------------------------- what every task keeps

  predicate RunnerOk(r: RunnerRec) {
    && SessionNameOk(r.name)
    && DriverOk(r.driver)
    && LogOk(r.driver)
    && (r.open ==> r.ctxLive)
    && (r.ctxLive <==> CancelParent !in r.driver.log)
  }

  lemma NewRunnerOk(e: Session)
    requires SessionNameOk(e.name)
    ensures RunnerOk(NewRunner(e))
  {
  }

  /** The conditions speak of nothing but the name, the driver and the two flags. */
  lemma RunnerOkOf(a: RunnerRec, b: RunnerRec)
    requires RunnerOk(a) && b.name == a.name && b.driver == a.driver && b.open == a.open && b.ctxLive == a.ctxLive
    ensures RunnerOk(b)
  {
  }

  lemma StartTaskOk(r: RunnerRec, t: Table, f: StartFault, db: TxFaults)
    requires RunnerOk(r)
    ensures RunnerOk(StartTask(r, t, f, db).0)
  {
    DriverStartOk(r, f);
    var (d, res) := DriverStart(r.driver, r.ctxLive, f);
    RunnerOkOf(r.(driver := d), StartTask(r, t, f, db).0);
  }

  lemma DriverStartOk(r: RunnerRec, f: StartFault)
    requires RunnerOk(r)
    ensures RunnerOk(r.(driver := DriverStart(r.driver, r.ctxLive, f).0))
  {
    StartLogOk(r.driver, r.ctxLive, f);
    PreparedLog(r.driver.log, if f.FailsAt? then Before(f.step) else |StartSteps|);
  }

  lemma DriverStopOk(r: RunnerRec, f: StopFault)
    requires RunnerOk(r)
    ensures RunnerOk(r.(driver := DriverStop(r.driver, f).0))
  {
    StopLogOk(r.driver, f);
  }

  lemma StopTaskOk(r: RunnerRec, t: Table, f: StopFault, db: TxFaults)
    requires RunnerOk(r)
    ensures RunnerOk(StopTask(r, t, f, db).0)
  {
    DriverStopOk(r, f);
    RunnerOkOf(r.(driver := DriverStop(r.driver, f).0), StopTask(r, t, f, db).0);
  }

  /** Running the queue changes neither who the runner is nor whether it works. */
  lemma {:induction false} DrainedOk(r: RunnerRec, t: Table, faults: seq<TaskFaults>)
    requires RunnerOk(r) && TableInv(t)
    ensures var (r', t') := Drained(r, t, faults);
            && RunnerOk(r') && TableInv(t') && r'.name == r.name && r'.id == r.id && r'.queue == []
            && r'.open == r.open && r'.ctxLive == r.ctxLive && r'.ipcLoop == r.ipcLoop
            && r'.driver.docker == r.driver.docker
    decreases |r.queue|
  {
    if r.queue != [] {
      var p, f := r.(queue := r.queue[1..]), First(faults);
      RunnerOkOf(r, p);
      TaskOk(p, t, r.queue[0], f);
      var (r', t', _) := RunTask(p, t, r.queue[0], f);
      DrainedOk(r', t', Rest(faults));
    }
  }

  lemma TaskOk(r: RunnerRec, t: Table, task: Task, f: TaskFaults)
    requires RunnerOk(r) && TableInv(t)
    ensures var (r', t', _) := RunTask(r, t, task, f);
            && RunnerOk(r') && TableInv(t')
            && r' == r.(driver := r'.driver, session := r'.session, notices := r'.notices)
            && r'.driver.docker == r.driver.docker
  {
    match task
    case TaskStart => StartTaskKeeps(r, t, f.start, f.tx);
    case TaskStop(_) => StopTaskKeeps(r, t, f.stop, f.tx);
  }

  lemma StartTaskKeeps(r: RunnerRec, t: Table, f: StartFault, db: TxFaults)
    requires RunnerOk(r) && TableInv(t)
    ensures var (r', t', _) := StartTask(r, t, f, db);
            && RunnerOk(r') && TableInv(t')
            && r' == r.(driver := r'.driver, session := r'.session) && r'.driver.docker == r.driver.docker
  {
    StartTaskOk(r, t, f, db);
    ApplyKeepsInv(t, SetState(r.name, Ready), db.update);
  }

  lemma StopTaskKeeps(r: RunnerRec, t: Table, f: StopFault, db: TxFaults)
    requires RunnerOk(r) && TableInv(t)
    ensures var (r', t', _) := StopTask(r, t, f, db);
            && RunnerOk(r') && TableInv(t')
            && r' == r.(driver := r'.driver, session := r'.session, notices := r'.notices)
            && r'.driver.docker == r.driver.docker
  {
    StopTaskOk(r, t, f, db);
    ApplyKeepsInv(t, SetState(r.name, Idle), db.update);
  }

  lemma HaltOk(r: RunnerRec, f: StopFault)
    requires RunnerOk(r)
    ensures RunnerOk(Halt(r, f))
  {
    CancelLogOk(r.driver);
    DriverStopOk(r.(ctxLive := false, open := false, driver := ParentCancelled(r.driver)), f);
  }

  lemma OrphanedOk(r: RunnerRec, removed: bool)
    requires RunnerOk(r)
    ensures RunnerOk(Orphaned(r, removed))
  {
    ProcessGoneLogOk(r.driver, removed);
  }

  /** When a halt works: it cancels the context a DOCKER core is torn down on, so the core must be a
      PTY whose handle has not been used, and nothing must go wrong. */
  predicate HaltWorks(r: RunnerRec, f: StopFault) {
    !r.driver.docker && r.driver.handle && f.StopWorks?
  }

  lemma HaltLeavesUpExact(r: RunnerRec, f: StopFault)
    ensures Halt(r, f).driver.core <==> r.driver.core && !HaltWorks(r, f)
  {
  }

  /** The order in which an unloaded runner let go of its resources. Its own context was cancelled
      at the very end; the core, if it was ever up, is down; and each time the core went down, a tear
      down that worked came first and its context was cancelled next. That tear down ran on a live
      context exactly when no stop of that run had failed before, since nothing precedes the runner's
      own cancellation but the run. */
  predicate UnloadedInOrder(log: seq<Effect>) {
    var n := |log| - 1;
    && n >= 0 && log[n] == CancelParent && CancelParent !in log[..n]
    && !Up(log) && Cleared(log)
  }

  /** The core went down at `k`: a tear down that worked, the end of its working context, and only then
      anything else. It was live exactly when no attempt since the core came up had failed. */
  predicate ReleasedAt(log: seq<Effect>, k: int) {
    && 2 <= k < |log| - 1 && log[k-2] == TearDown(!Attempted(log[..k-2]), true) && log[k-1] == CancelRun
    && Up(log[..k-2])
  }

  /** In a log that is in order every core was released like that. */
  lemma InOrderMeans(log: seq<Effect>)
    requires UnloadedInOrder(log)
    ensures forall k :: 0 <= k < |log| && log[k] == CoreDown ==> ReleasedAt(log, k)
  {
    forall k | 0 <= k < |log| && log[k] == CoreDown ensures ReleasedAt(log, k) {
      assert ClearedAt(log, k);
      assert log[..|log|-1][..k-2] == log[..k-2];
    }
  }

  lemma HaltAfterStopInOrder(r: RunnerRec, f: StopFault)
    requires RunnerOk(r) && r.ctxLive && !r.driver.core
    ensures UnloadedInOrder(Halt(r, f).driver.log)
    ensures r.driver.docker ==> ClearedLive(Halt(r, f).driver.log)
  {
    assert Halt(r, f).driver.log == r.driver.log + [CancelParent];
    CancelLogOk(r.driver);
  }

  /** When the property fails of the code. A PTY runner whose stop died at the kill and is then
      stopped and halted tears its core down on a context the failed attempt had cancelled. */
  lemma RetriedStopClearsOnDeadContext(r: RunnerRec, t: Table, db: TxFaults, db': TxFaults, f: StopFault)
    requires RunnerOk(r) && r.driver.core && r.driver.handle && !r.driver.docker && r.driver.open
    ensures var (r1, t1, ok1) := StopTask(r, t, TearDownFails(true), db);
            var (r2, t2, _) := StopTask(r1, t1, StopWorks, db');
            && !ok1 && !r2.driver.core
            && Halt(r2, f).driver.log == r.driver.log + [TearDown(true, false), CancelRun]
                                         + [TearDown(false, true), CancelRun, CoreDown] + [CancelParent]
  {
  }

  // ---------------------------------------------------------------------------- imperative form

  class Runner {
    const sessionName: string
    const sessionID: string
    var session: Session
    var ctxLive: bool
    var workerOpen: bool
    var queue: seq<Task>
    var ipcLoop: bool
    var notices: nat
    const driver: Driver

    ghost function View(): RunnerRec
      reads this, driver
    {
      RunnerRec(sessionName, sessionID, session, ctxLive, workerOpen, queue, ipcLoop, notices, driver.View())
    }

    constructor (entry: Session)
      ensures View() == NewRunner(entry)
      ensures fresh(driver)
    {
      sessionName, sessionID, session := entry.name, entry.id, entry;
      ctxLive, workerOpen, queue, ipcLoop, notices := true, false, [], false, 0;
      driver := new Driver(entry.driver == DOCKER);
    }

    /** The IPC loop is spawned first; the worker may then fail to start. */
    method Start(loopFails: bool) returns (ok: bool)
      modifies this
      ensures View() == old(View()).(ipcLoop := true, open := if loopFails then old(workerOpen) else true)
      ensures ok == !loopFails
    {
      ipcLoop := true;
      if loopFails { return false; }
      workerOpen := true;
      return true;
    }

    method MarkAndReadBack(db: Database, s: State, f: TxFaults) returns (row: Option<Session>)
      requires driver as object != db && this as object != db
      modifies db
      ensures (db.rows, row) == MarkAndRead(old(db.rows), sessionName, s, f)
    {
      var before := db.rows;
      var r := db.UpdateSessionState(sessionName, s, f.update);
      if r.Err? || f.readBack {
        db.rows := before;
        return None;
      }
      var i := Find(before, sessionName);
      return Some(db.rows[i]);
    }

    method HandleStartSession(db: Database, f: StartFault, tx: TxFaults) returns (ok: bool)
      modifies this, driver, db
      ensures (View(), db.rows, ok) == StartTask(old(View()), old(db.rows), f, tx)
    {
      var res := driver.Start(ctxLive, f);
      if res.StartFailed? && !res.consistencyInside {
        return false;
      }
      var row := MarkAndReadBack(db, Ready, tx);
      if row.None? { return false; }
      session := row.value;
      return true;
    }

    method HandleStopSession(db: Database, f: StopFault, tx: TxFaults) returns (ok: bool)
      modifies this, driver, db
      ensures (View(), db.rows, ok) == StopTask(old(View()), old(db.rows), f, tx)
    {
      var res := driver.Stop(f);
      if res.StopFailed? {
        return false;
      }
      var row := MarkAndReadBack(db, Idle, tx);
      if row.None? { return false; }
      session := row.value;
      notices := notices + 1;
      return true;
    }

    /** Take the first task off the queue and run it. */
    method RunNext(db: Database, f: TaskFaults) returns (ok: bool)
      requires queue != []
      modifies this, driver, db
      ensures (View(), db.rows, ok) ==
              RunTask(old(View()).(queue := old(queue)[1..]), old(db.rows), old(queue)[0], f)
    {
      var task := queue[0];
      queue := queue[1..];
      match task {
        case TaskStart => ok := HandleStartSession(db, f.start, f.tx);
        case TaskStop(_) => ok := HandleStopSession(db, f.stop, f.tx);
      }
    }

    /** Submit a stop and wait for it. */
    method StopSession(db: Database, refused: bool, earlier: seq<TaskFaults>, f: StopFault, tx: TxFaults)
      returns (ok: bool)
      modifies this, driver, db
      ensures (View(), db.rows, ok) == StopSubmitted(old(View()), old(db.rows), refused, earlier, f, tx)
    {
      if refused || !workerOpen {
        return false;
      }
      ghost var r := View();
      queue := queue + [TaskStop(true)];
      assert View().(queue := queue[..|queue|-1]) == r;
      RunAhead(db, earlier);
      assert queue[1..] == [];
      ok := RunNext(db, TaskFaults(StartWorks, f, tx));
    }

    /** Run whatever is queued before the last task. */
    method RunAhead(db: Database, earlier: seq<TaskFaults>)
      requires queue != []
      modifies this, driver, db
      ensures queue == [old(queue[|queue|-1])]
      ensures (View().(queue := []), db.rows) ==
              Drained(old(View()).(queue := old(queue)[..old(|queue|)-1]), old(db.rows), earlier)
    {
      ghost var last := queue[|queue|-1];
      ghost var goal := Drained(View().(queue := queue[..|queue|-1]), db.rows, earlier);
      var faults := earlier;
      while |queue| > 1
        invariant queue != [] && queue[|queue|-1] == last
        invariant Drained(View().(queue := queue[..|queue|-1]), db.rows, faults) == goal
        decreases |queue|
      {
        DrainedStep(View().(queue := queue[..|queue|-1]), db.rows, faults);
        RunEarlier(db, First(faults));
        faults := Rest(faults);
      }
      assert queue[..|queue|-1] == [];
    }

    /** Run the first task, seen as if the last were not there. */
    method RunEarlier(db: Database, f: TaskFaults)
      requires |queue| > 1
      modifies this, driver, db
      ensures queue == old(queue)[1..]
      ensures var r := old(View()).(queue := old(queue)[..old(|queue|)-1]);
              var (r', t', _) := RunTask(r.(queue := r.queue[1..]), old(db.rows), r.queue[0], f);
              View().(queue := queue[..|queue|-1]) == r' && db.rows == t'
    {
      ghost var r, t := View(), db.rows;
      ghost var rest := queue[..|queue|-1][1..];
      assert rest == queue[1..][..|queue|-2];
      RunTaskQueue(r.(queue := r.queue[1..]), t, r.queue[0], f, rest);
      var _ := RunNext(db, f);
    }

    /** `joined`: every thread of the runner ended within the wait bound. */
    method Stop(f: StopFault, closeFails: bool, joined: bool) returns (ok: bool)
      modifies this, driver
      ensures View() == Joined(Halt(old(View()), f), joined)
      ensures ok <==> !closeFails && joined
    {
      ctxLive := false;
      driver.CancelParentContext();
      var res := driver.Stop(f);
      ok := true;
      workerOpen := false;
      if closeFails { ok := false; }
      if joined {
        ipcLoop, notices := false, 0;
      } else {
        ok := false;
      }
    }
  }

}
