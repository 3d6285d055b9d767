/** The session manager's handlers, as its worker runs them one at a time. Every call to a
    collaborator takes its failure as an argument. */
module SessionManager {
  import opened Common
  import opened SessionTable
  import opened SessionDriver
  import opened SessionRunner
  import opened CapacityChange

  /** Failures of unloading one runner: the task submission, the tasks queued before, the stop task,
      and the runner's Stop. */
  datatype UnloadFaults = UnloadFaults(
    submit: bool, earlier: seq<TaskFaults>, stop: StopFault, tx: TxFaults,
    halt: StopFault, closeFails: bool, joined: bool)

  datatype LoadFaults = LoadFaults(
    read: bool, idle: Faults, factory: bool, loop: bool, submit: bool, start: StartFault, tx: TxFaults,
    cleanUp: StopFault, cleanUpIdle: Faults)

  /** The rows before `n` are idle, the others as they were. */
  function IdleUpTo(t: Table, n: nat): (r: Table)
    requires n <= |t|
    ensures |r| == |t|
  {
    seq(|t|, i requires 0 <= i < |t| => if i < n then t[i].(state := Idle) else t[i])
  }

  lemma IdleUpToNames(t: Table, n: nat, i: nat)
    requires n <= |t| && UniqueNames(t) && i < |t|
    ensures UniqueNames(IdleUpTo(t, n)) && Find(IdleUpTo(t, n), t[i].name) == i
  {
    assert IdleUpTo(t, n)[i].name == t[i].name;
    FindUnique(IdleUpTo(t, n), t[i].name, i);
  }

  /** Each loaded runner has its own name, and its own driver. */
  ghost predicate Separate(runners: map<string, Runner>) {
    && (forall n :: n in runners ==> runners[n].sessionName == n)
    && (forall n, m :: n in runners && m in runners && n != m ==> runners[n].driver != runners[m].driver)
  }

  ghost predicate DistinctRunners(rs: seq<Runner>) {
    forall i, j :: 0 <= i < |rs| && 0 <= j < |rs| && i != j ==> rs[i] != rs[j] && rs[i].driver != rs[j].driver
  }

  lemma SeparateInOrder(runners: map<string, Runner>, order: seq<string>, rs: seq<Runner>)
    requires Separate(runners) && |rs| == |order|
    requires forall i, j :: 0 <= i < j < |order| ==> order[i] != order[j]
    requires forall k :: 0 <= k < |order| ==> order[k] in runners && rs[k] == runners[order[k]]
    ensures DistinctRunners(rs)
  {
    forall i, j | 0 <= i < |rs| && 0 <= j < |rs| && i != j ensures rs[i] != rs[j] && rs[i].driver != rs[j].driver {
      assert order[i] != order[j] && rs[i].sessionName == order[i] && rs[j].sessionName == order[j];
    }
  }

  class Manager {
    var activeRunners: map<string, Runner>
    var allowNewStarts: bool
    /** Output ring buffers in the stream store: session id to capacity. */
    var outputBuffers: map<string, int>
    const db: Database

    ghost predicate Valid()
      reads this
    {
      Separate(activeRunners)
    }

    /** The runners and drivers that are loaded. */
    ghost function Footprint(): set<object>
      reads this
    {
      (set n | n in activeRunners :: activeRunners[n] as object) +
      (set n | n in activeRunners :: activeRunners[n].driver as object)
    }

    ghost function Repr(): set<object>
      reads this
    {
      {this, db} + Footprint()
    }

    constructor (db: Database)
      ensures Valid() && activeRunners == map[] && !allowNewStarts && outputBuffers == map[] && this.db == db
    {
      activeRunners, allowNewStarts, outputBuffers, this.db := map[], false, map[], db;
    }

    /** Crash recovery: every session found READY goes back to IDLE, in one transaction. */
    method ResetReadySessions(listFails: bool, updates: seq<Faults>, commitFails: bool) returns (ok: bool)
      requires UniqueNames(db.rows)
      modifies db
      ensures ok ==> db.rows == AllIdle(old(db.rows))
      ensures !ok ==> db.rows == old(db.rows)
      ensures !listFails && !commitFails && (forall u :: u in updates ==> u == Faults(false, false)) ==> ok
    {
      if listFails {
        return false;
      }
      var t := db.rows;
      assert IdleUpTo(t, 0) == t;
      for i := 0 to |t|
        invariant db.rows == IdleUpTo(t, i)
      {
        if t[i].state == Ready {
          var f := if i < |updates| then updates[i] else Faults(false, false);
          IdleUpToNames(t, i, i);
          assert f in updates || f == Faults(false, false);
          var r := db.UpdateSessionState(t[i].name, Idle, f);
          if r.Err? {
            db.rows := t;
            return false;
          }
        }
        assert db.rows == IdleUpTo(t, i + 1);
      }
      assert IdleUpTo(t, |t|) == AllIdle(t);
      if commitFails {
        db.rows := t;
        return false;
      }
      return true;
    }

    /** A session READY with no runner is forced back to IDLE. */
    method ForceIdle(i: nat, f: Faults) returns (ok: bool)
      requires i < |db.rows|
      modifies db
      ensures var (t, r) := ForcedIdle(old(db.rows), i, f);
              db.rows == t && ok == r.Ok?
    {
      if db.rows[i].state != Idle {
        var r := db.UpdateSessionState(db.rows[i].name, Idle, f);
        return r.Ok?;
      }
      return true;
    }

    method HandleStartSession(name: string, f: LoadFaults) returns (ok: bool)
      requires Valid()
      modifies this, db
      ensures Valid()
      ensures allowNewStarts == old(allowNewStarts) && outputBuffers == old(outputBuffers)
      ensures var (t, loaded) := Loaded(old(db.rows), old(allowNewStarts), old(activeRunners).Keys, name, f);
              && db.rows == t && (ok <==> loaded.Some?)
              && (!ok ==> activeRunners == old(activeRunners))
              && (ok ==> && name in activeRunners && fresh(activeRunners[name])
                         && activeRunners == old(activeRunners)[name := activeRunners[name]]
                         && activeRunners[name].View() == loaded.value)
    {
      if !allowNewStarts {
        return false;
      }
      var i, r := db.GetEntryByName(name, f.read);
      if r.Err? || name in activeRunners {
        return false;
      }
      IdleKeepsName(db.rows, i, f.idle);
      ok := ForceIdle(i, f.idle);
      if !ok || f.factory {
        return false;
      }
      var runner; runner, ok := BringUp(name, i, f);
      if ok {
        activeRunners := activeRunners[name := runner];
      }
    }

    /** Make a runner for row `i` and start it and its driver. */
    method BringUp(name: string, i: nat, f: LoadFaults) returns (runner: Runner, ok: bool)
      requires i < |db.rows|
      modifies db
      ensures fresh(runner) && fresh(runner.driver)
      ensures var (t, up) := BroughtUp(old(db.rows), i, name, f);
              db.rows == t && (ok <==> up.Some?) && (ok ==> runner.View() == up.value)
      ensures runner.sessionName == old(db.rows)[i].name
    {
      runner := new Runner(db.rows[i]);
      ok := runner.Start(f.loop);
      if ok {
        ok := false;
        if !f.submit {
          ok := runner.HandleStartSession(db, f.start, f.tx);
        }
      }
      if !ok {
        // stop the half-started runner and force the session back; failures are only logged
        var _ := runner.Stop(f.cleanUp, false, true);
        var _ := db.UpdateSessionState(name, Idle, f.cleanUpIdle);
      }
    }

    method HandleStopSession(name: string, f: UnloadFaults) returns (ok: bool)
      requires Valid()
      modifies Repr()
      ensures Valid()
      ensures allowNewStarts == old(allowNewStarts) && outputBuffers == old(outputBuffers)
      ensures forall m :: m in old(activeRunners) && m != name ==>
                old(activeRunners)[m].View() == old(activeRunners[m].View())
      ensures name !in old(activeRunners) ==> ok && activeRunners == old(activeRunners) && db.rows == old(db.rows)
      ensures name in old(activeRunners) ==>
                && (old(activeRunners)[name].View(), db.rows, ok) ==
                     Unloaded(old(activeRunners[name].View()), old(db.rows), f)
                && activeRunners == if ok then old(activeRunners) - {name} else old(activeRunners)
    {
      if name !in activeRunners {
        return true;
      }
      ok := UnloadRunner(activeRunners[name], f);
      // a runner that could not be confirmed down stays registered, which blocks a second one
      if ok {
        activeRunners := activeRunners - {name};
      }
    }

    method UnloadRunner(runner: Runner, f: UnloadFaults) returns (ok: bool)
      modifies runner, runner.driver, db
      ensures (runner.View(), db.rows, ok) == Unloaded(old(runner.View()), old(db.rows), f)
    {
      ok := runner.StopSession(db, f.submit, f.earlier, f.stop, f.tx);
      if !ok {
        return false;
      }
      ok := runner.Stop(f.halt, f.closeFails, f.joined);
    }

    /** Bulk stop: every runner is stopped and forgotten whatever happens; the table is not touched.
        `unclosed` are those whose worker reports an error on closing. `order` is the order in which
        the map happens to be traversed. */
    method HandleStopAllSessions(order: seq<string>, halts: map<string, StopFault>,
                                 unclosed: set<string>, joined: set<string>)
      returns (ok: bool)
      requires Valid()
      requires forall k :: 0 <= k < |order| ==> order[k] in activeRunners
      requires forall n :: n in activeRunners ==> n in order
      requires forall i, j :: 0 <= i < j < |order| ==> order[i] != order[j]
      modifies Repr()
      ensures activeRunners == map[] && !allowNewStarts
      ensures db.rows == old(db.rows) && outputBuffers == old(outputBuffers)
      ensures forall k :: 0 <= k < |order| ==>
                old(activeRunners)[order[k]].View() ==
                BulkStopped(old(activeRunners[order[k]].View()), order[k], halts, joined)
      ensures ok <==> forall k :: 0 <= k < |order| ==> order[k] in joined - unclosed
    {
      ghost var footprint := Footprint();
      allowNewStarts := false;
      var runners := InOrder(order);
      ok := StopAndForgetEach(order, runners, halts, unclosed, joined, footprint);
    }

    method InOrder(order: seq<string>) returns (runners: seq<Runner>)
      requires Valid()
      requires forall k :: 0 <= k < |order| ==> order[k] in activeRunners
      requires forall i, j :: 0 <= i < j < |order| ==> order[i] != order[j]
      ensures |runners| == |order| && forall k :: 0 <= k < |order| ==> runners[k] == activeRunners[order[k]]
      ensures DistinctRunners(runners)
      ensures this !in Footprint() && db !in Footprint()
      ensures forall k :: 0 <= k < |runners| ==> runners[k] in Footprint() && runners[k].driver in Footprint()
    {
      var all := activeRunners;
      runners := seq(|order|, i requires 0 <= i < |order| && order[i] in all => all[order[i]]);
      SeparateInOrder(all, order, runners);
    }

    method StopAndForgetEach(order: seq<string>, runners: seq<Runner>, halts: map<string, StopFault>,
                             unclosed: set<string>, joined: set<string>, ghost footprint: set<object>)
      returns (ok: bool)
      requires |order| == |runners| && this !in footprint && db !in footprint
      requires DistinctRunners(runners) && forall i, j :: 0 <= i < j < |order| ==> order[i] != order[j]
      requires forall n :: n in activeRunners ==> n in order
      requires forall k :: 0 <= k < |runners| ==> runners[k] in footprint && runners[k].driver in footprint
      modifies `activeRunners, footprint
      ensures activeRunners == map[]
      ensures forall k :: 0 <= k < |order| ==>
                runners[k].View() == BulkStopped(old(runners[k].View()), order[k], halts, joined)
      ensures ok <==> forall k :: 0 <= k < |order| ==> order[k] in joined - unclosed
    {
      ok := true;
      for i := 0 to |order|
        invariant forall n :: n in activeRunners ==> n in order
        invariant forall k :: 0 <= k < i ==> order[k] !in activeRunners
        invariant forall k :: 0 <= k < |order| ==>
                    runners[k].View() == if k < i then BulkStopped(old(runners[k].View()), order[k], halts, joined)
                                         else old(runners[k].View())
        invariant ok <==> forall k :: 0 <= k < i ==> order[k] in joined - unclosed
      {
        var stopped := BulkStopOne(runners, i, order[i], halts, unclosed, joined);
        ok := ok && stopped;
        activeRunners := activeRunners - {order[i]};
      }
    }

    method BulkStopOne(runners: seq<Runner>, i: nat, name: string, halts: map<string, StopFault>,
                       unclosed: set<string>, joined: set<string>)
      returns (ok: bool)
      requires i < |runners|
      requires DistinctRunners(runners)
      modifies runners[i], runners[i].driver
      ensures runners[i].View() == BulkStopped(old(runners[i].View()), name, halts, joined)
      ensures forall k :: 0 <= k < |runners| && k != i ==> runners[k].View() == old(runners[k].View())
      ensures ok <==> name in joined - unclosed
    {
      ok := runners[i].Stop(if name in halts then halts[name] else StopWorks, name in unclosed, name in joined);
    }

    /** Buffer first, record second. */
    method HandleChangeOutputBufferCapacity(name: string, newCap: int, f: CapacityFaults) returns (ok: bool)
      modifies this`outputBuffers, db
      ensures (Stores(db.rows, outputBuffers), ok) ==
              Change(Stores(old(db.rows), old(outputBuffers)), activeRunners.Keys, name, newCap, f)
    {
      var i, r := db.GetEntryByName(name, f.read);
      if r.Err? || name in activeRunners {
        return false;
      }
      var id := db.rows[i].id;
      ok := ForceIdle(i, f.idle);
      if !ok || f.drop {
        return false;
      }
      outputBuffers := outputBuffers - {id};
      r := db.UpdateSessionOutputBufCapacity(name, newCap, f.update);
      return r.Ok?;
    }
  }

  /** Loading a session: what becomes of the table, and the runner that is registered, if any. */
  function Loaded(t: Table, allow: bool, active: set<string>, name: string, f: LoadFaults): (Table, Option<RunnerRec>) {
    var k := Find(t, name);
    if !allow || f.read || k == |t| || name in active then (t, None)
    else
      var (idle, r) := ForcedIdle(t, k, f.idle);
      if r.Err? || f.factory || k >= |idle| then (idle, None) else BroughtUp(idle, k, name, f)
  }

  function BroughtUp(t: Table, k: nat, name: string, f: LoadFaults): (Table, Option<RunnerRec>)
    requires k < |t|
  {
    var begun := NewRunner(t[k]).(ipcLoop := true, open := !f.loop);
    if f.loop || f.submit then (Apply(t, SetState(name, Idle), f.cleanUpIdle).0, None)
    else
      var (up, ready, ok) := StartTask(begun, t, f.start, f.tx);
      if ok then (ready, Some(up)) else (Apply(ready, SetState(name, Idle), f.cleanUpIdle).0, None)
  }

  /** Bring the session back to IDLE, then stop the runner: what one unload does to a runner and
      the table, and whether it succeeded. A closed worker refuses the stop. */
  function Unloaded(r: RunnerRec, t: Table, f: UnloadFaults): (RunnerRec, Table, bool) {
    var (v, t', stopped) := StopSubmitted(r, t, f.submit, f.earlier, f.stop, f.tx);
    if !stopped then (v, t', false)
    else (Joined(Halt(v, f.halt), f.joined), t', !f.closeFails && f.joined)
  }

  /** A successful unload leaves the driver down, the row IDLE and the resources released in
      order, the tear downs that cleared a core having run on a live context exactly when no stop of
      that run had failed before; for a DOCKER core they always had. */
  lemma UnloadedIsDown(r: RunnerRec, t: Table, f: UnloadFaults)
    requires TableInv(t) && RunnerOk(r)
    ensures var (v, t', ok) := Unloaded(r, t, f);
            ok ==> && !v.driver.core && v.driver.daemons == {} && !v.open && v.notices == 0 && !v.ipcLoop
                   && Find(t', r.name) < |t'| && t'[Find(t', r.name)].state == Idle
                   && UnloadedInOrder(v.driver.log) && (v.driver.docker ==> ClearedLive(v.driver.log))
                   && forall k :: 0 <= k < |v.driver.log| && v.driver.log[k] == CoreDown ==>
                        ReleasedAt(v.driver.log, k)
  {
    if !f.submit && r.open {
      DrainedOk(r, t, f.earlier);
      var (r1, t1) := Drained(r, t, f.earlier);
      StopTaskOk(r1, t1, f.stop, f.tx);
      IdleCommit(r1, t1, f.stop, f.tx);
      var (v, _, stopped) := StopTask(r1, t1, f.stop, f.tx);
      if stopped {
        HaltAfterStopInOrder(v, f.halt);
        InOrderMeans(Halt(v, f.halt).driver.log);
      }
    }
  }

  /** A runner the bulk stop is done with. */
  function BulkStopped(r: RunnerRec, name: string, halts: map<string, StopFault>, joined: set<string>): RunnerRec {
    Joined(Halt(r, if name in halts then halts[name] else StopWorks), name in joined)
  }

  lemma IdleKeepsName(t: Table, i: nat, f: Faults)
    requires i < |t|
    ensures var t' := ForcedIdle(t, i, f).0; |t'| == |t| && t'[i].name == t[i].name
  {
  }
}
