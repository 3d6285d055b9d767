/** The manager's handlers and the step system tell the same story: what a handler does in one go,
    with given failures, some run of the system does step by step, with nothing else moving. */
module SessionHandlers {
  import opened Common
  import opened SessionTable
  import opened SessionDriver
  import opened SessionRunner
  import opened SessionManager
  import opened SessionSystem
  import opened SessionSafety

  /** The system has gone from `s` to `s'` by the events. */
  predicate Leads(s: Sys, es: seq<Event>, s': Sys) {
    IsRun(s, es) && After(s, es) == s'
  }

  lemma LeadsOn(s: Sys, es: seq<Event>, s': Sys, e: Event)
    requires Leads(s, es, s') && Enabled(s', e)
    ensures Leads(s, es + [e], Next(s', e))
  {
    RunSnoc(s, es, e);
  }

  lemma LeadsFurther(s: Sys, a: seq<Event>, s': Sys, b: seq<Event>, s'': Sys)
    requires Leads(s, a, s') && Leads(s', b, s'')
    ensures Leads(s, a + b, s'')
  {
    RunAppend(s, a, b);
  }

  // ---------------------------------------------------------------------------- loading

  function TakeLoad(f: LoadFaults): Event {
    Take(TakeFaults(f.read, f.idle, f.factory, f.loop, f.submit, map[]))
  }

  /** Taking the request gets as far as the runner, or stops before it. */
  lemma TakeLoadStep(s: Sys, name: string, f: LoadFaults)
    requires Shape(s) && s.phase == Free && s.queue != [] && s.queue[0] == StartSession(name)
    ensures var s1, n, k := Next(s, TakeLoad(f)), |s.runners|, Find(s.table, name);
            var (t, up) := Loaded(s.table, s.allowStarts, s.active.Keys, name, f);
            && s1.queue == s.queue[1..] && s1.active == s.active && s1.allowStarts == s.allowStarts
            && (s1.phase == Free ==> up.None? && s1 == s.(table := t, queue := s.queue[1..]))
            && (s1.phase != Free ==>
                  && k < |s1.table| && s1.table[k].name == name && (t, up) == BroughtUp(s1.table, k, name, f)
                  && |s1.runners| == n + 1 && s1.runners == s.runners + [s1.runners[n]]
                  && (if f.loop || f.submit then
                        s1.phase == CleanUp(n) &&
                        s1.runners[n] == NewRunner(s1.table[k]).(ipcLoop := true, open := !f.loop)
                      else
                        s1.phase == AwaitStart(n) &&
                        s1.runners[n] == NewRunner(s1.table[k]).(ipcLoop := true, open := true, queue := [TaskStart])))
  {
    var k := Find(s.table, name);
    var rest, tf := s.(queue := s.queue[1..]), TakeLoad(f).tf;
    assert Next(s, TakeLoad(f)) == TakeStart(rest, name, tf);
    if !s.allowStarts || f.read || k == |s.table| || name in s.active {
      assert TakeStart(rest, name, tf) == rest;
    } else {
      IdleKeepsName(s.table, k, f.idle);
    }
  }

  /** The start task of a runner that has just been made. */
  lemma WorkLoadStep(s: Sys, n: nat, k: nat, name: string, f: LoadFaults)
    requires k < |s.table| && s.table[k].name == name && |s.runners| == n + 1 && s.phase == AwaitStart(n)
    requires s.runners[n] == NewRunner(s.table[k]).(ipcLoop := true, open := true, queue := [TaskStart])
    requires !f.loop && !f.submit
    ensures var s1 := Next(s, Work(n, f.start, StopWorks, f.tx));
            var (t, up) := BroughtUp(s.table, k, name, f);
            && s1 == s.(table := s1.table, runners := s.runners[n := s1.runners[n]], active := s1.active,
                        phase := s1.phase)
            && |s1.runners| == n + 1 && s1.runners[n].name == name
            && (up.Some? ==> s1.phase == Free && s1.table == t && s1.runners[n] == up.value
                             && s1.active == s.active[name := n])
            && (up.None? ==> s1.phase == CleanUp(n) && s1.active == s.active
                             && t == Apply(s1.table, SetState(name, Idle), f.cleanUpIdle).0)
  {
    assert [TaskStart][1..] == [];
    StartKeepsName(s.runners[n].(queue := []), s.table, f.start, f.tx);
  }

  /** Stopping a half-started runner and forcing its session back. */
  lemma CleanUpSteps(s: Sys, n: nat, f: LoadFaults) returns (es: seq<Event>)
    requires s.phase == CleanUp(n) && |s.runners| == n + 1
    ensures var r := Halt(s.runners[n], f.cleanUp);
            Leads(s, es, s.(table := Apply(s.table, SetState(s.runners[n].name, Idle), f.cleanUpIdle).0,
                            runners := s.runners[n := r], phase := Free))
  {
    var halt, finish := HaltRunner(f.cleanUp), Finish(false, f.cleanUpIdle);
    assert Leads(s, [], s);
    LeadsOn(s, [], s, halt);
    LeadsOn(s, [] + [halt], Next(s, halt), finish);
    es := [] + [halt] + [finish];
  }

  /** A start request's handler, run by the step system: the same table, and the same runner is
      registered, or none. */
  lemma LoadIsARun(s: Sys, name: string, f: LoadFaults) returns (es: seq<Event>, s': Sys)
    requires Shape(s) && s.phase == Free && s.queue != [] && s.queue[0] == StartSession(name)
    ensures Leads(s, es, s')
    ensures var n := |s.runners|;
            var (t, up) := Loaded(s.table, s.allowStarts, s.active.Keys, name, f);
            && s'.table == t && s'.queue == s.queue[1..] && s'.phase == Free && s'.allowStarts == s.allowStarts
            && n <= |s'.runners| <= n + 1 && s'.runners[..n] == s.runners
            && (up.None? ==> s'.active == s.active)
            && (up.Some? ==> |s'.runners| == n + 1 && s'.runners[n] == up.value && s'.active == s.active[name := n])
  {
    var n, take := |s.runners|, TakeLoad(f);
    TakeLoadStep(s, name, f);
    assert Leads(s, [], s);
    LeadsOn(s, [], s, take);
    es, s' := [] + [take], Next(s, take);
    if s'.phase == AwaitStart(n) {
      var work := Work(n, f.start, StopWorks, f.tx);
      WorkLoadStep(s', n, Find(s.table, name), name, f);
      LeadsOn(s, es, s', work);
      es, s' := es + [work], Next(s', work);
    }
    if s'.phase == CleanUp(n) {
      var more := CleanUpSteps(s', n, f);
      var s'' := s'.(table := Apply(s'.table, SetState(s'.runners[n].name, Idle), f.cleanUpIdle).0,
                     runners := s'.runners[n := Halt(s'.runners[n], f.cleanUp)], phase := Free);
      LeadsFurther(s, es, s', more, s'');
      es, s' := es + more, s'';
    }
  }

  // ---------------------------------------------------------------------------- unloading

  /** ... by events that neither rename a loaded session nor fail a clean-up. */
  predicate SafeLeads(s: Sys, es: seq<Event>, s': Sys) {
    Leads(s, es, s') && IsSafeRun(s, es)
  }

  lemma SafeStep(s: Sys, e: Event, rest: seq<Event>)
    requires Enabled(s, e)
    ensures IsSafeRun(s, [e] + rest) <==> Safe(s, e) && IsSafeRun(Next(s, e), rest)
    ensures IsRun(s, [e] + rest) <==> IsRun(Next(s, e), rest)
    ensures IsRun(s, [e] + rest) ==> After(s, [e] + rest) == After(Next(s, e), rest)
  {
    RunStep(s, e, rest);
    assert ([e] + rest)[1..] == rest;
  }

  lemma {:induction false} SafeAppend(s: Sys, a: seq<Event>, b: seq<Event>)
    requires IsRun(s, a) && IsSafeRun(s, a) && IsSafeRun(After(s, a), b)
    ensures IsSafeRun(s, a + b)
    decreases |a|
  {
    if a == [] {
      assert a + b == b;
    } else {
      FirstApart(a, b);
      SafeStep(s, a[0], a[1..]);
      SafeAppend(Next(s, a[0]), a[1..], b);
      SafeStep(s, a[0], a[1..] + b);
    }
  }

  lemma SafeOne(s: Sys, e: Event)
    requires Enabled(s, e) && Safe(s, e)
    ensures SafeLeads(s, [e], Next(s, e))
  {
    assert [e][1..] == [];
  }

  lemma SafeFurther(s: Sys, a: seq<Event>, s': Sys, b: seq<Event>, s'': Sys)
    requires SafeLeads(s, a, s') && SafeLeads(s', b, s'')
    ensures SafeLeads(s, a + b, s'')
  {
    LeadsFurther(s, a, s', b, s'');
    SafeAppend(s, a, b);
  }

  lemma SafeOn(s: Sys, es: seq<Event>, s': Sys, e: Event)
    requires SafeLeads(s, es, s') && Enabled(s', e) && Safe(s', e)
    ensures SafeLeads(s, es + [e], Next(s', e))
  {
    SafeOne(s', e);
    SafeFurther(s, es, s', [e], Next(s', e));
  }

  /** A runner's threads end by themselves; what they tell the manager is lost. */
  lemma {:induction false} ThreadsEnd(s: Sys, i: nat) returns (es: seq<Event>)
    requires i < |s.runners|
    ensures SafeLeads(s, es, s.(runners := s.runners[i := Joined(s.runners[i], true)]))
    decreases s.runners[i].ipcLoop, s.runners[i].notices
  {
    var r := s.runners[i];
    if !r.ipcLoop && r.notices == 0 {
      es := [];
      assert s.runners == s.runners[i := Joined(r, true)];
    } else {
      var e := if r.ipcLoop then IpcLoopEnds(i, false) else Notify(i, false);
      var s1 := Next(s, e);
      var more := ThreadsEnd(s1, i);
      SafeOne(s, e);
      SafeFurther(s, [e], s1, more, s1.(runners := s1.runners[i := Joined(s1.runners[i], true)]));
      es := [e] + more;
      assert s1.runners[i := Joined(s1.runners[i], true)] == s.runners[i := Joined(r, true)];
    }
  }

  /** A client's or a driver's stop at the head of the queue, run while the manager waits. */
  lemma EarlierStep(s: Sys, i: nat, f: TaskFaults)
    requires s.phase == AwaitStop(i) && i < |s.runners| && s.runners[i].open
    requires s.runners[i].queue != [] && s.runners[i].queue[0] == TaskStop(false)
    ensures var (r', t', _) := RunTask(s.runners[i].(queue := s.runners[i].queue[1..]), s.table, TaskStop(false), f);
            Next(s, Work(i, f.start, f.stop, f.tx)) == s.(table := t', runners := s.runners[i := r'])
  {
  }

  /** Everything queued before the manager's stop is run first. */
  lemma {:induction false} EarlierSteps(s: Sys, i: nat, q: seq<Task>, faults: seq<TaskFaults>) returns (es: seq<Event>)
    requires s.phase == AwaitStop(i) && i < |s.runners| && s.runners[i].open && RunnerOk(s.runners[i])
    requires TableInv(s.table)
    requires s.runners[i].queue == q + [TaskStop(true)] && forall k :: 0 <= k < |q| ==> q[k] == TaskStop(false)
    ensures var (r', t') := Drained(s.runners[i].(queue := q), s.table, faults);
            SafeLeads(s, es, s.(table := t', runners := s.runners[i := r'.(queue := [TaskStop(true)])]))
    decreases |q|
  {
    var r := s.runners[i];
    if q == [] {
      es := [];
      assert r.(queue := []).(queue := [TaskStop(true)]) == r && s.runners[i := r] == s.runners;
    } else {
      var f := First(faults);
      var e := Work(i, f.start, f.stop, f.tx);
      var s1 := Next(s, e);
      var p := r.(queue := r.queue[1..]);
      EarlierStep(s, i, f);
      RunnerOkOf(r, p);
      TaskOk(p, s.table, TaskStop(false), f);
      RunTaskQueue(p, s.table, TaskStop(false), f, q[1..]);
      DrainedStep(r.(queue := q), s.table, faults);
      assert r.queue[1..] == q[1..] + [TaskStop(true)];
      var more := EarlierSteps(s1, i, q[1..], Rest(faults));
      SafeOne(s, e);
      var (r', t') := Drained(s1.runners[i].(queue := q[1..]), s1.table, Rest(faults));
      var s2 := s1.(table := t', runners := s1.runners[i := r'.(queue := [TaskStop(true)])]);
      SafeFurther(s, [e], s1, more, s2);
      es := [e] + more;
      assert s2.runners == s.runners[i := r'.(queue := [TaskStop(true)])];
    }
  }

  /** Taking the stop request puts the manager's stop behind what is queued, which is only stops. */
  lemma TakeStopStep(s: Sys, name: string, take: Event)
    requires Shape(s) && s.phase == Free && s.queue != [] && s.queue[0] == StopSession(name)
    requires name in s.active && s.runners[s.active[name]].open && take.Take? && !take.tf.submit
    ensures var i := s.active[name];
            var r := s.runners[i];
            Enabled(s, take) &&
            (var s1 := Next(s, take);
             && s1 == s.(queue := s.queue[1..], runners := s.runners[i := r.(queue := r.queue + [TaskStop(true)])],
                         phase := AwaitStop(i))
             && RunnerOk(s1.runners[i]) && TableInv(s1.table)
             && forall k :: 0 <= k < |r.queue| ==> r.queue[k] == TaskStop(false))
  {
    var i := s.active[name];
    var q := s.runners[i].queue;
    assert QueueOk(s, i);
    assert forall k :: 0 <= k < |q| ==> q[k] in q;
    RunnerOkOf(s.runners[i], s.runners[i].(queue := q + [TaskStop(true)]));
  }

  /** The manager's stop is submitted and everything before it is run. */
  lemma UntilOwnStop(s: Sys, name: string, f: UnloadFaults) returns (es: seq<Event>, s2: Sys)
    requires Shape(s) && s.phase == Free && s.queue != [] && s.queue[0] == StopSession(name) && !f.submit
    requires name in s.active && s.runners[s.active[name]].open
    ensures SafeLeads(s, es, s2)
    ensures var i := s.active[name];
            var (r, t) := Drained(s.runners[i], s.table, f.earlier);
            s2 == s.(table := t, queue := s.queue[1..], phase := AwaitStop(i),
                     runners := s.runners[i := r.(queue := [TaskStop(true)])])
  {
    var i := s.active[name];
    var r, q := s.runners[i], s.runners[i].queue;
    var take := Take(TakeFaults(false, f.tx.update, false, false, false, map[]));
    TakeStopStep(s, name, take);
    var s1 := Next(s, take);
    SafeOne(s, take);
    var more := EarlierSteps(s1, i, q, f.earlier);
    assert s1.runners[i].(queue := q) == r;
    var (r1, t1) := Drained(r, s.table, f.earlier);
    s2 := s1.(table := t1, runners := s1.runners[i := r1.(queue := [TaskStop(true)])]);
    SafeFurther(s, [take], s1, more, s2);
    es := [take] + more;
    assert s2.runners == s.runners[i := r1.(queue := [TaskStop(true)])];
  }

  /** The manager's stop task, submitted and run. */
  lemma StopSteps(s: Sys, name: string, f: UnloadFaults) returns (es: seq<Event>, s': Sys)
    requires Shape(s) && s.phase == Free && s.queue != [] && s.queue[0] == StopSession(name) && !f.submit
    requires name in s.active && s.runners[s.active[name]].open
    ensures SafeLeads(s, es, s')
    ensures var i := s.active[name];
            var (v, t, ok) := StopSubmitted(s.runners[i], s.table, false, f.earlier, f.stop, f.tx);
            s' == s.(table := t, runners := s.runners[i := v], queue := s.queue[1..],
                     phase := if ok then Doomed(i) else Free)
  {
    var i := s.active[name];
    var before, s2 := UntilOwnStop(s, name, f);
    DrainedOk(s.runners[i], s.table, f.earlier);
    s' := LastStep(s2, i, Drained(s.runners[i], s.table, f.earlier).0, f);
    SafeOn(s, before, s2, Work(i, StartWorks, f.stop, f.tx));
    es := before + [Work(i, StartWorks, f.stop, f.tx)];
    assert s'.runners == s.runners[i := s'.runners[i]];
  }

  lemma LastStep(s: Sys, i: nat, r: RunnerRec, f: UnloadFaults) returns (s': Sys)
    requires s.phase == AwaitStop(i) && i < |s.runners| && s.runners[i] == r.(queue := [TaskStop(true)])
    requires r.open && r.queue == []
    ensures Enabled(s, Work(i, StartWorks, f.stop, f.tx)) && s' == Next(s, Work(i, StartWorks, f.stop, f.tx))
    ensures var (v, t, ok) := StopTask(r, s.table, f.stop, f.tx);
            s' == s.(table := t, runners := s.runners[i := v], phase := if ok then Doomed(i) else Free)
  {
    assert [TaskStop(true)][1..] == [] && r.(queue := []) == r;
    s' := Next(s, Work(i, StartWorks, f.stop, f.tx));
  }

  /** A doomed runner is halted, its threads end or do not, and it is forgotten or not. */
  lemma DoomedSteps(s: Sys, i: nat, f: UnloadFaults) returns (es: seq<Event>)
    requires s.phase == Doomed(i) && i < |s.runners|
    ensures var r := Joined(Halt(s.runners[i], f.halt), f.joined);
            SafeLeads(s, es, s.(runners := s.runners[i := r], phase := Free,
                                active := if !f.closeFails && f.joined then s.active - {s.runners[i].name}
                                          else s.active))
  {
    var halt, finish := HaltRunner(f.halt), Finish(!f.closeFails && f.joined, Faults(false, false));
    SafeOne(s, halt);
    var s1 := Next(s, halt);
    es := [halt];
    if f.joined {
      var more := ThreadsEnd(s1, i);
      var s2 := s1.(runners := s1.runners[i := Joined(s1.runners[i], true)]);
      SafeFurther(s, es, s1, more, s2);
      es, s1 := es + more, s2;
    }
    SafeOn(s, es, s1, finish);
    es := es + [finish];
    assert s1.runners == s.runners[i := Joined(Halt(s.runners[i], f.halt), f.joined)];
  }

  /** A stop request's handler, run by the step system, whatever is queued on the runner and whether
      or not its worker is still open: the same runner, the same table, and the runner is forgotten
      exactly when the handler succeeds. */
  lemma UnloadIsARun(s: Sys, name: string, f: UnloadFaults) returns (es: seq<Event>)
    requires Shape(s) && s.phase == Free && s.queue != [] && s.queue[0] == StopSession(name) && name in s.active
    ensures var i := s.active[name];
            var (r, t, ok) := Unloaded(s.runners[i], s.table, f);
            SafeLeads(s, es, s.(table := t, runners := s.runners[i := r], queue := s.queue[1..],
                                active := if ok then s.active - {name} else s.active))
  {
    var i := s.active[name];
    if f.submit || !s.runners[i].open {
      var take := Take(TakeFaults(false, f.tx.update, false, false, true, map[]));
      SafeOne(s, take);
      es := [take];
      assert s.runners == s.runners[i := s.runners[i]];
    } else {
      var s1; es, s1 := StopSteps(s, name, f);
      if s1.phase == Doomed(i) {
        var more := DoomedSteps(s1, i, f);
        assert s1.runners[i].name == name by {
          DrainedOk(s.runners[i], s.table, f.earlier);
          var (r1, t1) := Drained(s.runners[i], s.table, f.earlier);
          StopKeepsName(r1, t1, f.stop, f.tx);
        }
        var r := Joined(Halt(s1.runners[i], f.halt), f.joined);
        var s2 := s1.(runners := s1.runners[i := r], phase := Free,
                      active := if !f.closeFails && f.joined then s1.active - {s1.runners[i].name} else s1.active);
        SafeFurther(s, es, s1, more, s2);
        es := es + more;
        assert s2.runners == s.runners[i := r];
      }
    }
  }

  // ---------------------------------------------------------------------------- a run out of order

  const NoUnloadFaults: UnloadFaults := UnloadFaults(false, [], StopWorks, NoTxFaults, StopWorks, false, true)

  /** Asking for a stop, and its handler. */
  lemma AskAndUnload(s: Sys, name: string, f: UnloadFaults) returns (es: seq<Event>, s': Sys)
    requires Shape(s) && s.phase == Free && s.queue == [] && name in s.active
    ensures var i := s.active[name];
            var (r, t, ok) := Unloaded(s.runners[i], s.table, f);
            s' == s.(table := t, runners := s.runners[i := r], active := if ok then s.active - {name} else s.active)
    ensures SafeLeads(s, es, s')
  {
    var ask := Ask(StopSession(name));
    var i := s.active[name];
    var (r, t, ok) := Unloaded(s.runners[i], s.table, f);
    var s1 := s.(queue := [StopSession(name)]);
    assert s.queue + [StopSession(name)] == [StopSession(name)] && s1.queue[1..] == [];
    SameQueues(s, s1);
    SafeOne(s, ask);
    var more := UnloadIsARun(s1, name, f);
    s' := s.(table := t, runners := s.runners[i := r], active := if ok then s.active - {name} else s.active);
    SafeFurther(s, [ask], s1, more, s');
    es := [ask] + more;
  }

  /** Two unloads of a PTY runner that is up, the first of which dies at the kill. */
  lemma TwoUnloads(r: RunnerRec, row: Session)
    requires RunnerOk(r) && r.open && r.queue == [] && r.name == row.name
    requires r.driver.core && r.driver.handle && r.driver.open && !r.driver.docker
    ensures var (r1, t1, ok1) := Unloaded(r, [row], NoUnloadFaults.(stop := TearDownFails(true)));
            var (r2, t2, ok2) := Unloaded(r1, t1, NoUnloadFaults);
            && !ok1 && ok2 && !r2.driver.core
            && r2.driver.log == r.driver.log + [TearDown(true, false), CancelRun]
                                + [TearDown(false, true), CancelRun, CoreDown] + [CancelParent]
  {
    assert Find([row], r.name) == 0;
    var (r1, t1, ok1) := StopTask(r, [row], TearDownFails(true), NoTxFaults);
    assert Drained(r, [row], []) == (r, [row]) && t1 == [row] && r1.queue == [] && r1.open;
    assert Drained(r1, t1, []) == (r1, t1);
    RetriedStopClearsOnDeadContext(r, [row], NoTxFaults, NoTxFaults, StopWorks);
    OneRowMarked(row);
  }

  lemma OneRowMarked(row: Session)
    ensures MarkAndRead([row], row.name, Idle, NoTxFaults).1.Some?
  {
    assert Find([row], row.name) == 0;
  }

  /** When the order of release fails of the code: for any PTY session, a run in which a stop dies at
      the kill and the retry unloads the runner, whose core was then torn down on a context that the
      failed attempt had cancelled. */
  lemma UnloadedOutOfOrder(row: Session) returns (es: seq<Event>, s': Sys)
    requires RowOk(row) && row.state == Idle && row.driver == PTY
    ensures Init(Start(row)) && Leads(Start(row), es, s')
    ensures s'.active == map[] && |s'.runners| == 1 && !s'.runners[0].driver.core
    ensures var log := s'.runners[0].driver.log;
            exists k :: 2 <= k < |log| && log[k] == CoreDown && log[k-2] == TearDown(false, true)
  {
    var first := FirstStart(row, NoTxFaults);
    var s1 := After(Start(row), first);
    RunKeepsShape(Start(row), first);
    var r := s1.runners[0];
    assert RunnerOk(r);
    TwoUnloads(r, row.(state := Ready));
    var es2, s2 := AskAndUnload(s1, row.name, NoUnloadFaults.(stop := TearDownFails(true)));
    RunKeepsShape(s1, es2);
    var es3; es3, s' := AskAndUnload(s2, row.name, NoUnloadFaults);
    LeadsFurther(Start(row), first, s1, es2, s2);
    LeadsFurther(Start(row), first + es2, s2, es3, s');
    es := first + es2 + es3;
    var k := |r.driver.log| + 4;
    assert s'.runners[0].driver.log[k] == CoreDown && s'.runners[0].driver.log[k-2] == TearDown(false, true);
  }
}
