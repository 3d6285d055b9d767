/** Safety of the session service over every run: no session is attached twice, and what a runner
    commits to the table agrees with its driver. */
module SessionSafety {
  import opened Common
  import opened SessionTable
  import opened SessionDriver
  import opened SessionRunner
  import opened SessionSystem

  predicate Live(s: Sys, i: nat)
    requires i < |s.runners|
  {
    s.runners[i].driver.core
  }

  /** At most one live driver per session id, over all runners ever made. */
  predicate SingleAttachment(s: Sys) {
    forall i, j :: 0 <= i < j < |s.runners| && Live(s, i) && Live(s, j) ==> s.runners[i].id != s.runners[j].id
  }

  /** The manager still knows this runner: registered, or being started or cleaned up. */
  predicate Held(s: Sys, i: nat)
    requires i < |s.runners|
  {
    Registered(s, i) || InFlight(s, i)
  }

  /** Registered, and never to be unloaded again: its worker refuses the stop, or its core is up and
      cannot be torn down any more. */
  predicate Stuck(s: Sys, h: nat)
    requires h < |s.runners|
  {
    var r := s.runners[h];
    && Registered(s, h) && s.phase != Doomed(h) && s.phase != Waiting(h, true)
    && (!r.open || (r.driver.core && !CanTearDown(r.driver)))
  }

  /** `h` stands in the way of a second attachment to what `i` is attached to, for as long as `i` is
      up: it is `i` itself, still held, or a runner that is stuck. */
  predicate Blocks(s: Sys, i: nat, h: nat)
    requires i < |s.runners| && h < |s.runners|
  {
    (h == i && Held(s, i)) || Stuck(s, h)
  }

  /** A start under this name stays refused. */
  predicate NameBlocked(s: Sys, i: nat, name: string)
    requires i < |s.runners|
  {
    exists h :: 0 <= h < |s.runners| && Blocks(s, i, h) && s.runners[h].name == name
  }

  /** A rename of the row with i's id stays a rename of a loaded session. */
  predicate IdBlocked(s: Sys, i: nat)
    requires i < |s.runners|
  {
    exists h :: 0 <= h < |s.runners| && Blocks(s, i, h) && s.runners[h].id == s.runners[i].id
  }

  /** Some live runner's id is on a row that can be started, as it is or under another name. */
  predicate Exposed(s: Sys) {
    s.allowStarts && exists i, k :: 0 <= i < |s.runners| && 0 <= k < |s.table| && Live(s, i) && OpenRow(s, i, k)
  }

  predicate OpenRow(s: Sys, i: nat, k: nat)
    requires i < |s.runners| && k < |s.table|
  {
    s.table[k].id == s.runners[i].id && !(NameBlocked(s, i, s.table[k].name) && IdBlocked(s, i))
  }

  /** A runner being started or cleaned up has its row to itself. */
  predicate AloneInFlight(s: Sys, m: nat)
    requires m < |s.runners|
  {
    && (forall i :: 0 <= i < |s.runners| && i != m && Live(s, i) ==> s.runners[i].id != s.runners[m].id)
    && (forall k :: 0 <= k < |s.table| && s.table[k].id == s.runners[m].id ==> s.table[k].name == s.runners[m].name)
  }

  /** No session is attached twice, and none can come to be. */
  predicate Secure(s: Sys) {
    && SingleAttachment(s)
    && (s.allowStarts ==> forall i, k :: 0 <= i < |s.runners| && 0 <= k < |s.table| && Live(s, i) ==> !OpenRow(s, i, k))
    && (s.phase != Free && s.phase.i < |s.runners| && InFlight(s, s.phase.i) ==> AloneInFlight(s, s.phase.i))
    && (s.phase.Waiting? && s.phase.i < |s.runners| ==> !Live(s, s.phase.i))
  }

  /** The three things a run must not do, plus the uniqueness of generated ids: rename a session
      whose runner is loaded, fail to bring the driver down while cleaning up a failed start, and
      restart the service over a container whose session is still in the table. */
  predicate Safe(s: Sys, e: Event)
    requires Enabled(s, e)
  {
    match e
    case Edit(Rename(name, _), _) =>
      forall i, k :: 0 <= i < |s.runners| && 0 <= k < |s.table| && s.table[k].name == name && Held(s, i)
        ==> s.table[k].id != s.runners[i].id
    case Edit(Define(id, _, _, _, _, _, _), _) =>
      forall i :: 0 <= i < |s.runners| ==> s.runners[i].id != id
    case HaltRunner(f) => s.phase.CleanUp? ==> !Halt(s.runners[s.phase.i], f).driver.core
    case Restart(removed) =>
      forall i, k :: 0 <= i < |s.runners| && 0 <= k < |s.table| && Survives(s.runners[i].driver, i in removed)
        ==> s.table[k].id != s.runners[i].id
    case _ => true
  }

  predicate IsSafeRun(s: Sys, es: seq<Event>)
    decreases |es|
  {
    es == [] || (Enabled(s, es[0]) && Safe(s, es[0]) && IsSafeRun(Next(s, es[0]), es[1..]))
  }

  // ---------------------------------------------------------------------------- invariance

  predicate KeepsBlocks(s: Sys, s': Sys)
    requires |s.runners| <= |s'.runners|
  {
    forall i, h :: 0 <= i < |s.runners| && 0 <= h < |s.runners| && Live(s', i) && Blocks(s, i, h) ==> Blocks(s', i, h)
  }

  /** A step that keeps every label and brings no driver up: what blocked a live runner's session
      has to block it still. */
  lemma SameLabels(s: Sys, s': Sys)
    requires Secure(s) && |s.runners| <= |s'.runners| && |s'.table| == |s.table|
    requires forall k :: 0 <= k < |s.table| ==> s'.table[k].id == s.table[k].id && s'.table[k].name == s.table[k].name
    requires forall i :: 0 <= i < |s.runners| ==>
               && s'.runners[i].name == s.runners[i].name && s'.runners[i].id == s.runners[i].id
               && (Live(s', i) ==> Live(s, i))
    requires forall i :: |s.runners| <= i < |s'.runners| ==> !Live(s', i)
    requires s'.allowStarts ==> s.allowStarts
    requires s'.allowStarts ==> KeepsBlocks(s, s')
    requires s'.phase != Free && s'.phase.i < |s'.runners| && InFlight(s', s'.phase.i) ==> AloneInFlight(s', s'.phase.i)
    requires s'.phase.Waiting? && s'.phase.i < |s'.runners| ==> !Live(s', s'.phase.i)
    ensures Secure(s')
  {
    if s'.allowStarts {
      forall i, k | 0 <= i < |s'.runners| && 0 <= k < |s'.table| && Live(s', i) ensures !OpenRow(s', i, k) {
        if s'.table[k].id == s'.runners[i].id {
          assert Live(s, i) && !OpenRow(s, i, k);
          BlockedStays(s, s', i, s.table[k].name);
        }
      }
    }
  }

  lemma BlockedStays(s: Sys, s': Sys, i: nat, name: string)
    requires i < |s.runners| <= |s'.runners| && NameBlocked(s, i, name) && IdBlocked(s, i)
    requires forall h :: 0 <= h < |s.runners| ==>
               s'.runners[h].name == s.runners[h].name && s'.runners[h].id == s.runners[h].id
    requires forall h :: 0 <= h < |s.runners| && Blocks(s, i, h) ==> Blocks(s', i, h)
    ensures NameBlocked(s', i, name) && IdBlocked(s', i)
  {
    var a :| 0 <= a < |s.runners| && Blocks(s, i, a) && s.runners[a].name == name;
    var b :| 0 <= b < |s.runners| && Blocks(s, i, b) && s.runners[b].id == s.runners[i].id;
    assert Blocks(s', i, a) && Blocks(s', i, b);
  }

  /** The id of a live runner, or of one in flight, stays on its row, and the row keeps its name. */
  lemma EditKeepsRow(s: Sys, op: Op, f: Faults, h: nat, k: nat)
    requires Shape(s) && Enabled(s, Edit(op, f)) && Safe(s, Edit(op, f)) && h < |s.runners| && Held(s, h)
    requires k < |Apply(s.table, op, f).0| && Apply(s.table, op, f).0[k].id == s.runners[h].id
    ensures exists j :: 0 <= j < |s.table| && s.table[j].id == s.runners[h].id
                        && s.table[j].name == Apply(s.table, op, f).0[k].name
  {
    ApplyProvenance(s.table, op, f, k);
  }

  lemma EditKeepsSecure(s: Sys, op: Op, f: Faults)
    requires Shape(s) && Secure(s) && Enabled(s, Edit(op, f)) && Safe(s, Edit(op, f))
    ensures Secure(Next(s, Edit(op, f)))
  {
    var s' := Next(s, Edit(op, f));
    if s.allowStarts {
      forall i, k | 0 <= i < |s.runners| && 0 <= k < |s'.table| && Live(s, i) ensures !OpenRow(s', i, k) {
        if s'.table[k].id == s.runners[i].id {
          EditKeepsBlocked(s, op, f, i, k);
        }
      }
      if s.phase != Free && InFlight(s, s.phase.i) {
        forall k | 0 <= k < |s'.table| && s'.table[k].id == s.runners[s.phase.i].id
          ensures s'.table[k].name == s.runners[s.phase.i].name
        {
          EditKeepsRow(s, op, f, s.phase.i, k);
        }
      }
    }
  }

  lemma EditKeepsBlocked(s: Sys, op: Op, f: Faults, i: nat, k: nat)
    requires Shape(s) && Secure(s) && s.allowStarts && Enabled(s, Edit(op, f)) && Safe(s, Edit(op, f))
    requires i < |s.runners| && Live(s, i) && k < |Apply(s.table, op, f).0|
    requires Apply(s.table, op, f).0[k].id == s.runners[i].id
    ensures !OpenRow(Next(s, Edit(op, f)), i, k)
  {
    var t := Apply(s.table, op, f).0;
    EditKeepsId(s, op, f, i, k);
    var j :| 0 <= j < |s.table| && s.table[j].id == s.runners[i].id;
    assert !OpenRow(s, i, j);
    var h :| 0 <= h < |s.runners| && Blocks(s, i, h) && s.runners[h].id == s.runners[i].id;
    EditKeepsRow(s, op, f, h, k);
    SameRowBlocked(s, t, i, j, k);
  }

  lemma EditKeepsId(s: Sys, op: Op, f: Faults, i: nat, k: nat)
    requires Shape(s) && Enabled(s, Edit(op, f)) && Safe(s, Edit(op, f)) && i < |s.runners|
    requires k < |Apply(s.table, op, f).0| && Apply(s.table, op, f).0[k].id == s.runners[i].id
    ensures exists j :: 0 <= j < |s.table| && s.table[j].id == s.runners[i].id
  {
    ApplyProvenance(s.table, op, f, k);
  }

  lemma SameRowBlocked(s: Sys, t: Table, i: nat, j: nat, k: nat)
    requires TableInv(s.table) && i < |s.runners| && j < |s.table| && k < |t|
    requires s.table[j].id == s.runners[i].id == t[k].id && !OpenRow(s, i, j)
    requires exists n :: 0 <= n < |s.table| && s.table[n].id == s.runners[i].id && s.table[n].name == t[k].name
    ensures !OpenRow(s.(table := t), i, k)
  {
    BlockedStays(s, s.(table := t), i, s.table[j].name);
  }

  lemma StateOnly(t: Table, name: string, st: State, f: Faults)
    requires TableInv(t)
    ensures var t' := Apply(t, SetState(name, st), f).0;
            |t'| == |t| && forall k :: 0 <= k < |t| ==> t'[k].id == t[k].id && t'[k].name == t[k].name
  {
  }

  /** Taking a start request either makes a fresh runner over the row with its name, or none. */
  lemma TakeStartOutcome(s: Sys, name: string, f: TakeFaults)
    requires TableInv(s.table) && s.phase == Free
    ensures var s', n, k := TakeStart(s, name, f), |s.runners|, Find(s.table, name);
            && TableInv(s'.table) && |s'.table| == |s.table|
            && (forall j :: 0 <= j < |s.table| ==>
                  s'.table[j].id == s.table[j].id && s'.table[j].name == s.table[j].name)
            && (if s'.phase == Free then s' == s.(table := s'.table)
                else
                  && (s'.phase == AwaitStart(n) || s'.phase == CleanUp(n)) && k < |s.table| && s.allowStarts
                  && |s'.runners| == n + 1
                  && s' == s.(table := s'.table, runners := s.runners + [s'.runners[n]], phase := s'.phase)
                  && s'.runners[n].name == s'.table[k].name && s'.runners[n].id == s'.table[k].id
                  && !s'.runners[n].driver.core && s'.runners[n].name !in s.active)
  {
    StateOnly(s.table, name, Idle, f.idle);
    ApplyKeepsInv(s.table, SetState(name, Idle), f.idle);
  }

  lemma TakeStartKeepsSecure(s: Sys, name: string, f: TakeFaults)
    requires Shape(s) && Secure(s) && s.phase == Free
    ensures Secure(TakeStart(s, name, f))
  {
    var s', n := TakeStart(s, name, f), |s.runners|;
    TakeStartOutcome(s, name, f);
    if s'.phase == Free {
      SameLabels(s, s');
    } else {
      NewRunnerKeepsSecure(s, s'.table, Find(s.table, name), s'.runners[n], s'.phase);
    }
  }

  lemma NewRunnerKeepsSecure(s: Sys, t: Table, k: nat, r: RunnerRec, phase: Phase)
    requires Shape(s) && Secure(s) && s.phase == Free && s.allowStarts && k < |s.table| == |t|
    requires forall j :: 0 <= j < |t| ==> t[j].id == s.table[j].id && t[j].name == s.table[j].name
    requires r.name == t[k].name && r.id == t[k].id && !r.driver.core && r.name !in s.active
    requires phase == AwaitStart(|s.runners|) || phase == CleanUp(|s.runners|)
    ensures Secure(s.(table := t, runners := s.runners + [r], phase := phase))
  {
    var s' := s.(table := t, runners := s.runners + [r], phase := phase);
    assert forall i :: 0 <= i < |s.runners| ==> s'.runners[i] == s.runners[i];
    NewRunnerAlone(s, s', k);
    SameLabels(s, s');
  }

  /** The fresh runner's id is nobody else's: a live runner of that id would block its name. */
  lemma NewRunnerAlone(s: Sys, s': Sys, k: nat)
    requires Shape(s) && Secure(s) && s.phase == Free && s.allowStarts && k < |s.table| == |s'.table|
    requires forall j :: 0 <= j < |s.table| ==> s'.table[j].id == s.table[j].id && s'.table[j].name == s.table[j].name
    requires |s'.runners| == |s.runners| + 1 && s'.runners[..|s.runners|] == s.runners
    requires var r := s'.runners[|s.runners|];
             r.name == s'.table[k].name && r.id == s'.table[k].id && r.name !in s.active
    ensures AloneInFlight(s', |s.runners|)
  {
    var n, r := |s.runners|, s'.runners[|s.runners|];
    assert forall i :: 0 <= i < n ==> s'.runners[i] == s.runners[i];
    forall i | 0 <= i < n && Live(s, i) ensures s.runners[i].id != r.id {
      assert !OpenRow(s, i, k);
    }
    forall j | 0 <= j < |s'.table| && s'.table[j].id == r.id ensures s'.table[j].name == r.name {
      assert j == k;
    }
  }

  lemma TakeStopKeepsSecure(s: Sys, name: string, f: TakeFaults)
    requires Shape(s) && Secure(s) && s.phase == Free
    ensures Secure(TakeStop(s, name, f))
  {
    var s' := TakeStop(s, name, f);
    if s'.phase != Free {
      var i := s.active[name];
      StopDoneKeepsSecure(s, i, s'.runners[i], s.table, s'.phase);
    }
  }

  lemma TakeStopAllKeepsSecure(s: Sys, f: TakeFaults)
    requires Shape(s) && Secure(s) && s.phase == Free
    ensures Secure(TakeStopAll(s, f))
  {
    SameLabels(s, TakeStopAll(s, f));
  }

  lemma PoppedSecure(s: Sys, q: seq<Request>)
    requires Shape(s) && Secure(s)
    ensures Shape(s.(queue := q)) && Secure(s.(queue := q))
  {
    SameQueues(s, s.(queue := q));
    SameLabels(s, s.(queue := q));
  }

  lemma TakeKeepsSecure(s: Sys, f: TakeFaults)
    requires Shape(s) && Secure(s) && Enabled(s, Take(f))
    ensures Secure(TakeStep(s, f))
  {
    var rest := s.(queue := s.queue[1..]);
    PoppedSecure(s, s.queue[1..]);
    match s.queue[0]
    case StartSession(name) => TakeStartKeepsSecure(rest, name, f);
    case StopSession(name) => TakeStopKeepsSecure(rest, name, f);
    case StopAllSessions => TakeStopAllKeepsSecure(rest, f);
  }

  /** The runner in flight may come up: it has its row to itself. */
  lemma StartDoneKeepsSecure(s: Sys, m: nat, r': RunnerRec, t: Table, ok: bool)
    requires Shape(s) && Secure(s) && s.phase == AwaitStart(m) && m < |s.runners|
    requires r'.name == s.runners[m].name && r'.id == s.runners[m].id
    requires |t| == |s.table|
    requires forall k :: 0 <= k < |t| ==> t[k].id == s.table[k].id && t[k].name == s.table[k].name
    ensures Secure(StartDone(s, m, r', t, ok))
  {
    var s' := StartDone(s, m, r', t, ok);
    assert AloneInFlight(s, m);
    forall i, k | 0 <= i < |s'.runners| && 0 <= k < |t| && Live(s', i) ensures !OpenRow(s', i, k) {
      if t[k].id == s'.runners[i].id {
        if i == m { StartedBlocked(s, m, r', t, ok, k); } else { OthersBlocked(s, m, r', t, ok, i, k); }
      }
    }
  }

  lemma StartedBlocked(s: Sys, m: nat, r': RunnerRec, t: Table, ok: bool, k: nat)
    requires s.phase == AwaitStart(m) && m < |s.runners| && k < |t| && t[k].name == r'.name
    ensures !OpenRow(StartDone(s, m, r', t, ok), m, k)
  {
    assert Blocks(StartDone(s, m, r', t, ok), m, m);
  }

  lemma OthersBlocked(s: Sys, m: nat, r': RunnerRec, t: Table, ok: bool, i: nat, k: nat)
    requires Shape(s) && s.phase == AwaitStart(m) && m < |s.runners| && i < |s.runners| && i != m
    requires k < |s.table| == |t|
    requires r'.name == s.runners[m].name && r'.id == s.runners[m].id
    requires t[k].id == s.table[k].id && t[k].name == s.table[k].name && !OpenRow(s, i, k)
    ensures !OpenRow(StartDone(s, m, r', t, ok), i, k)
  {
    if t[k].id == s.runners[i].id {
      StartDoneBlocks(s, m, r', t, ok, i);
      BlockedStays(s, StartDone(s, m, r', t, ok), i, s.table[k].name);
    }
  }

  lemma StartDoneBlocks(s: Sys, m: nat, r': RunnerRec, t: Table, ok: bool, i: nat)
    requires Shape(s) && s.phase == AwaitStart(m) && m < |s.runners| && i < |s.runners| && i != m
    requires r'.name == s.runners[m].name && r'.id == s.runners[m].id
    ensures var s' := StartDone(s, m, r', t, ok);
            forall h :: 0 <= h < |s.runners| && Blocks(s, i, h) ==> Blocks(s', i, h)
  {
  }

  lemma WorkStartKeepsSecure(s: Sys, i: nat, start: StartFault, stop: StopFault, tx: TxFaults)
    requires Shape(s) && Secure(s) && Enabled(s, Work(i, start, stop, tx)) && s.runners[i].queue[0] == TaskStart
    ensures Secure(WorkStep(s, i, start, stop, tx))
  {
    assert QueueOk(s, i);
    var r := s.runners[i].(queue := s.runners[i].queue[1..]);
    StateOnly(s.table, r.name, Ready, tx.update);
    var (r', t, ok) := StartTask(r, s.table, start, tx);
    StartDoneKeepsSecure(s, i, r', t, ok);
  }

  /** A task or a halt can only bring a driver down, and it does not unstick what is stuck. */
  lemma StopDoneKeepsSecure(s: Sys, i: nat, r': RunnerRec, t: Table, phase: Phase)
    requires Shape(s) && Secure(s) && i < |s.runners|
    requires r'.name == s.runners[i].name && r'.id == s.runners[i].id
    requires r'.driver.core ==> s.runners[i].driver.core
    requires Stuck(s, i) ==> phase != Doomed(i) && (!r'.open || (r'.driver.core && !CanTearDown(r'.driver)))
    requires |t| == |s.table|
    requires forall k :: 0 <= k < |t| ==> t[k].id == s.table[k].id && t[k].name == s.table[k].name
    requires phase == s.phase || (s.phase == Free && phase == AwaitStop(i))
               || (s.phase == AwaitStop(i) && phase in {Free, Doomed(i)})
               || (s.phase == Doomed(i) && phase == Waiting(i, true) && !r'.driver.core)
               || (s.phase == CleanUp(i) && phase == Waiting(i, false) && !r'.driver.core)
    ensures Secure(s.(table := t, runners := s.runners[i := r'], phase := phase))
  {
    StopDoneBlocks(s, i, r', t, phase);
    SameLabels(s, s.(table := t, runners := s.runners[i := r'], phase := phase));
  }

  lemma StopDoneBlocks(s: Sys, i: nat, r': RunnerRec, t: Table, phase: Phase)
    requires Shape(s) && i < |s.runners| && r'.name == s.runners[i].name
    requires r'.driver.core ==> s.runners[i].driver.core
    requires Stuck(s, i) ==> phase != Doomed(i) && (!r'.open || (r'.driver.core && !CanTearDown(r'.driver)))
    requires phase == s.phase || (s.phase == Free && phase == AwaitStop(i))
               || (s.phase == AwaitStop(i) && phase in {Free, Doomed(i)})
               || (s.phase == Doomed(i) && phase == Waiting(i, true) && !r'.driver.core)
               || (s.phase == CleanUp(i) && phase == Waiting(i, false) && !r'.driver.core)
    ensures KeepsBlocks(s, s.(table := t, runners := s.runners[i := r'], phase := phase))
  {
  }

  /** What a stop task does to a stuck core: nothing. */
  lemma StuckStopFails(r: RunnerRec, t: Table, f: StopFault, tx: TxFaults)
    ensures var (r', t', ok) := StopTask(r, t, f, tx);
            && r'.name == r.name && r'.id == r.id && r'.open == r.open && (r'.driver.core ==> r.driver.core)
            && (r.driver.core && !CanTearDown(r.driver) ==> !ok && r'.driver.core && !CanTearDown(r'.driver))
  {
  }

  lemma WorkStopKeepsSecure(s: Sys, i: nat, start: StartFault, stop: StopFault, tx: TxFaults)
    requires Shape(s) && Secure(s) && Enabled(s, Work(i, start, stop, tx)) && s.runners[i].queue[0].TaskStop?
    ensures Secure(WorkStep(s, i, start, stop, tx))
  {
    var r := s.runners[i].(queue := s.runners[i].queue[1..]);
    StateOnly(s.table, r.name, Idle, tx.update);
    StuckStopFails(r, s.table, stop, tx);
    var (r', t, ok) := StopTask(r, s.table, stop, tx);
    StopDoneKeepsSecure(s, i, r', t, StopDone(s, i, s.runners[i].queue[0].byManager, r', t, ok).phase);
  }

  lemma FinishKeepsSecure(s: Sys, joined: bool, f: Faults)
    requires Shape(s) && Secure(s) && Enabled(s, Finish(joined, f))
    ensures Secure(Next(s, Finish(joined, f)))
  {
    var name := s.runners[s.phase.i].name;
    StateOnly(s.table, name, Idle, f);
    if s.phase.unload {
      UnloadKeepsSecure(s, Next(s, Finish(joined, f)).active);
    } else {
      CleanedKeepsSecure(s, Next(s, Finish(joined, f)).table);
    }
  }

  lemma UnloadKeepsSecure(s: Sys, active: map<string, nat>)
    requires Shape(s) && Secure(s) && s.phase.Waiting? && s.phase.unload
    requires active == s.active || active == s.active - {s.runners[s.phase.i].name}
    ensures Secure(s.(active := active, phase := Free))
  {
    var s' := s.(active := active, phase := Free);
    forall i, h | 0 <= i < |s.runners| && 0 <= h < |s.runners| && Live(s', i) && Blocks(s, i, h)
      ensures Blocks(s', i, h)
    {
      OthersStayRegistered(s, active, h);
      assert h != s.phase.i;
    }
    SameLabels(s, s');
  }

  /** Only the unloaded runner itself was registered under its name. */
  lemma OthersStayRegistered(s: Sys, active: map<string, nat>, h: nat)
    requires PhaseOk(s) && s.phase.Waiting? && s.phase.unload && h < |s.runners|
    requires active == s.active || active == s.active - {s.runners[s.phase.i].name}
    ensures h != s.phase.i && Registered(s, h) ==> Registered(s.(active := active, phase := Free), h)
  {
    assert Unloading(s, s.phase.i) && Registered(s, s.phase.i);
  }

  lemma CleanedKeepsSecure(s: Sys, t: Table)
    requires Shape(s) && Secure(s) && s.phase.Waiting? && !s.phase.unload
    requires |t| == |s.table|
    requires forall k :: 0 <= k < |t| ==> t[k].id == s.table[k].id && t[k].name == s.table[k].name
    ensures Secure(s.(table := t, phase := Free))
  {
    SameLabels(s, s.(table := t, phase := Free));
  }

  /** Steps of one runner's own threads and clients: only its queue, daemons and threads move. */
  lemma QuietKeepsSecure(s: Sys, s': Sys, i: nat)
    requires Shape(s) && Secure(s) && i < |s.runners|
    requires s' == s.(runners := s'.runners, queue := s'.queue) && |s'.runners| == |s.runners|
    requires s'.runners == s.runners[i := s'.runners[i]]
    requires var r, r' := s.runners[i], s'.runners[i];
             && r'.name == r.name && r'.id == r.id && r'.open == r.open && r'.driver.core == r.driver.core
             && CanTearDown(r'.driver) == CanTearDown(r.driver)
    ensures Secure(s')
  {
    SameLabels(s, s');
  }

  lemma HaltKeepsSecure(s: Sys, f: StopFault)
    requires Shape(s) && Secure(s) && Enabled(s, HaltRunner(f)) && Safe(s, HaltRunner(f))
    ensures Secure(Next(s, HaltRunner(f)))
  {
    var i := s.phase.i;
    StopDoneKeepsSecure(s, i, Halt(s.runners[i], f), s.table, Waiting(i, s.phase.Doomed?));
  }

  /** After a restart nothing stands in the way of anything. */
  lemma RestartKeepsSecure(s: Sys, removed: set<nat>)
    requires SingleAttachment(s) && Safe(s, Restart(removed))
    ensures Secure(RestartStep(s, removed))
  {
    var s' := RestartStep(s, removed);
    assert forall i :: 0 <= i < |s.runners| ==>
             s'.runners[i].id == s.runners[i].id && (Live(s', i) <==> Survives(s.runners[i].driver, i in removed));
    assert forall k :: 0 <= k < |s.table| ==> s'.table[k].id == s.table[k].id;
  }

  lemma NextKeepsSecure(s: Sys, e: Event)
    requires Shape(s) && Secure(s) && Enabled(s, e) && Safe(s, e)
    ensures Secure(Next(s, e))
  {
    match e
    case Edit(op, f) => EditKeepsSecure(s, op, f);
    case Ask(req) => PoppedSecure(s, s.queue + [req]);
    case Take(f) => TakeKeepsSecure(s, f);
    case Work(i, start, stop, tx) =>
      if s.runners[i].queue[0] == TaskStart { WorkStartKeepsSecure(s, i, start, stop, tx); }
      else { WorkStopKeepsSecure(s, i, start, stop, tx); }
    case Finish(joined, f) => FinishKeepsSecure(s, joined, f);
    case HaltRunner(f) => HaltKeepsSecure(s, f);
    case ClientStop(i) => QuietKeepsSecure(s, Next(s, e), i);
    case DaemonEnds(i, _, _) => QuietKeepsSecure(s, Next(s, e), i);
    case IpcLoopEnds(i, _) => QuietKeepsSecure(s, Next(s, e), i);
    case Notify(i, _) => QuietKeepsSecure(s, Next(s, e), i);
    case Restart(removed) => RestartKeepsSecure(s, removed);
  }

  lemma {:induction false} SafeRunKeepsSecure(s: Sys, es: seq<Event>)
    requires Shape(s) && Secure(s) && IsSafeRun(s, es)
    ensures IsRun(s, es) && Shape(After(s, es)) && Secure(After(s, es))
    decreases |es|
  {
    if es != [] {
      NextKeepsShape(s, es[0]);
      NextKeepsSecure(s, es[0]);
      SafeRunKeepsSecure(Next(s, es[0]), es[1..]);
    }
  }

  /** Main result: whatever the interleaving, whatever fails on the stop path and however often the
      service is restarted, a run that does not rename a loaded session, whose start clean-ups work and
      which is not restarted over a container never attaches a session twice. */
  lemma NeverAttachedTwice(s: Sys, es: seq<Event>)
    requires Init(s) && IsSafeRun(s, es)
    ensures IsRun(s, es) && SingleAttachment(After(s, es))
  {
    SafeRunKeepsSecure(s, es);
  }

  // ---------------------------------------------------------------------------- staying registered

  /** Only a completed unload, a bulk stop or a restart forgets a registered runner. */
  lemma ForgottenStep(s: Sys, e: Event, i: nat)
    requires Shape(s) && Enabled(s, e) && i < |s.runners| && Registered(s, i)
    ensures var s' := Next(s, e);
            |s'.runners| >= |s.runners| && s'.runners[i].name == s.runners[i].name &&
            (Registered(s', i)
             || (e.Take? && s.queue[0] == StopAllSessions && !s'.allowStarts)
             || (e.Restart? && (Live(s', i) ==> Survives(s.runners[i].driver, i in e.removed)))
             || (e.Finish? && e.joined && s.phase == Waiting(i, true) && !Live(s', i)
                 && UnloadedInOrder(s'.runners[i].driver.log)))
  {
    var s' := Next(s, e);
    match e
    case Restart(_) =>
    case Take(f) => TakeKeepsNames(s, f);
    case Work(j, start, stop, tx) => WorkKeepsNames(s, j, start, stop, tx);
    case Finish(joined, f) => FinishForgets(s, joined, f, i);
    case HaltRunner(_) =>
    case _ =>
      assert s'.active == s.active;
  }

  /** In every run: a runner is forgotten by a bulk stop, after which no session can be started any
      more, by a restart, which only a container survives, or by an unload. After an unload its core
      is down and the three layers let go in order, each tear down that cleared the core having run on
      a live context exactly when no earlier stop of that run had failed; for a DOCKER core it always
      had. */
  lemma ForgottenOnlyWhenDown(s0: Sys, es: seq<Event>, e: Event, i: nat)
    requires Init(s0) && IsRun(s0, es) && Enabled(After(s0, es), e)
    requires i < |After(s0, es).runners| && Registered(After(s0, es), i)
    ensures var s := After(s0, es);
            var s' := Next(s, e);
            i < |s'.runners| &&
            (Registered(s', i)
             || (e.Take? && s.queue[0] == StopAllSessions && !s'.allowStarts)
             || (e.Restart? && (Live(s', i) ==> Survives(s.runners[i].driver, i in e.removed)))
             || (e.Finish? && e.joined && s.phase == Waiting(i, true) && !Live(s', i)
                 && UnloadedInOrder(s'.runners[i].driver.log)
                 && (s'.runners[i].driver.docker ==> ClearedLive(s'.runners[i].driver.log))))
  {
    RunKeepsShape(s0, es);
    ForgottenStep(After(s0, es), e, i);
    NextKeepsShape(After(s0, es), e);
  }

  predicate StaysRegistered(s: Sys, es: seq<Event>, i: nat)
    requires IsRun(s, es)
    decreases |es|
  {
    i < |s.runners| && Registered(s, i) && (es == [] || StaysRegistered(Next(s, es[0]), es[1..], i))
  }

  /** A new runner never takes a registered name. */
  lemma NewRunnersName(s: Sys, e: Event)
    requires Shape(s) && Enabled(s, e)
    ensures var s' := Next(s, e);
            && |s.runners| <= |s'.runners|
            && forall j :: |s.runners| <= j < |s'.runners| ==> s'.runners[j].name !in s.active
  {
    match e
    case Take(f) => TakeNewName(s, f);
    case Work(j, start, stop, tx) => WorkKeepsNames(s, j, start, stop, tx);
    case _ =>
  }

  lemma TakeNewName(s: Sys, f: TakeFaults)
    requires Shape(s) && Enabled(s, Take(f))
    ensures var s' := TakeStep(s, f);
            && |s.runners| <= |s'.runners|
            && forall j :: |s.runners| <= j < |s'.runners| ==> s'.runners[j].name !in s.active
  {
    if s.queue[0].StartSession? {
      TakeStartOutcome(s.(queue := s.queue[1..]), s.queue[0].name, f);
    }
  }

  /** As long as a runner stays registered, a start of its session makes no second one, whatever
      else happens: no runner made during the whole run carries its name. */
  lemma {:induction false} SecondStartRefused(s: Sys, es: seq<Event>, i: nat)
    requires Shape(s) && IsRun(s, es) && StaysRegistered(s, es, i)
    ensures var s' := After(s, es);
            && |s.runners| <= |s'.runners| && s'.runners[i].name == s.runners[i].name && Registered(s', i)
            && forall j :: |s.runners| <= j < |s'.runners| ==> s'.runners[j].name != s.runners[i].name
    decreases |es|
  {
    if es != [] {
      var s1 := Next(s, es[0]);
      NextKeepsShape(s, es[0]);
      NewRunnersName(s, es[0]);
      ForgottenStep(s, es[0], i);
      NamesStay(s1, es[1..]);
      SecondStartRefused(s1, es[1..], i);
    }
  }

  lemma {:induction false} NamesStay(s: Sys, es: seq<Event>)
    requires IsRun(s, es)
    ensures var s' := After(s, es);
            |s.runners| <= |s'.runners| && forall j :: 0 <= j < |s.runners| ==> s'.runners[j].name == s.runners[j].name
    decreases |es|
  {
    if es != [] {
      NamesStayStep(s, es[0]);
      NamesStay(Next(s, es[0]), es[1..]);
    }
  }

  lemma NamesStayStep(s: Sys, e: Event)
    requires Enabled(s, e)
    ensures var s' := Next(s, e);
            |s.runners| <= |s'.runners| && forall j :: 0 <= j < |s.runners| ==> s'.runners[j].name == s.runners[j].name
  {
    match e
    case Take(f) => TakeKeepsNames(s, f);
    case Work(j, start, stop, tx) => WorkKeepsNames(s, j, start, stop, tx);
    case _ =>
  }

  // ---------------------------------------------------------------------------- a wedged session

  /** Registered, its worker closed, and not being unloaded. */
  predicate Wedged(s: Sys, i: nat)
    requires i < |s.runners|
  {
    Registered(s, i) && !s.runners[i].open && !Unloading(s, i)
  }

  /** This step forgets every runner: it takes up a bulk stop, or it is a restart. */
  predicate ForgetsAll(s: Sys, e: Event)
    requires Enabled(s, e)
  {
    e.Restart? || (e.Take? && s.queue[0] == StopAllSessions)
  }

  predicate NeverForgetsAll(s: Sys, es: seq<Event>)
    requires IsRun(s, es)
    decreases |es|
  {
    es == [] || (!ForgetsAll(s, es[0]) && NeverForgetsAll(Next(s, es[0]), es[1..]))
  }

  lemma WedgedStep(s: Sys, e: Event, i: nat)
    requires Shape(s) && Enabled(s, e) && i < |s.runners| && Wedged(s, i)
    requires !ForgetsAll(s, e)
    ensures i < |Next(s, e).runners| && Wedged(Next(s, e), i)
  {
    ForgottenStep(s, e, i);
    match e
    case Take(f) => TakeKeepsClosed(s, f, i);
    case Work(j, start, stop, tx) => WorkKeepsClosed(s, j, start, stop, tx, i);
    case _ =>
  }

  lemma TakeKeepsClosed(s: Sys, f: TakeFaults, i: nat)
    requires Shape(s) && Enabled(s, Take(f)) && i < |s.runners| && Wedged(s, i) && s.queue[0] != StopAllSessions
    ensures var s' := TakeStep(s, f); i < |s'.runners| && !s'.runners[i].open && !Unloading(s', i)
  {
  }

  lemma WorkKeepsClosed(s: Sys, j: nat, start: StartFault, stop: StopFault, tx: TxFaults, i: nat)
    requires Enabled(s, Work(j, start, stop, tx)) && i < |s.runners| && !s.runners[i].open && !Unloading(s, i)
    ensures var s' := WorkStep(s, j, start, stop, tx);
            |s'.runners| == |s.runners| && !s'.runners[i].open && !Unloading(s', i)
  {
    assert i != j;
  }

  /** A session whose unload could not be confirmed is wedged: from then on nothing but a bulk stop or
      a restart ever forgets its runner, and until then no start of the session makes another. */
  lemma UnjoinedUnloadWedges(s: Sys, f: Faults, es: seq<Event>)
    requires Shape(s) && s.phase.Waiting? && s.phase.unload && Enabled(s, Finish(false, f))
    requires IsRun(Next(s, Finish(false, f)), es) && NeverForgetsAll(Next(s, Finish(false, f)), es)
    ensures var i, s' := s.phase.i, After(Next(s, Finish(false, f)), es);
            && i < |s.runners| <= |s'.runners| && Wedged(s', i)
            && forall j :: |s.runners| <= j < |s'.runners| ==> s'.runners[j].name != s.runners[i].name
  {
    var i, s1 := s.phase.i, Next(s, Finish(false, f));
    NextKeepsShape(s, Finish(false, f));
    assert Wedged(s1, i);
    WedgedUntilForgotten(s1, es, i);
    SecondStartRefused(s1, es, i);
  }

  lemma {:induction false} WedgedUntilForgotten(s: Sys, es: seq<Event>, i: nat)
    requires Shape(s) && IsRun(s, es) && NeverForgetsAll(s, es) && i < |s.runners| && Wedged(s, i)
    ensures StaysRegistered(s, es, i) && i < |After(s, es).runners| && Wedged(After(s, es), i)
    decreases |es|
  {
    if es != [] {
      NextKeepsShape(s, es[0]);
      WedgedStep(s, es[0], i);
      WedgedUntilForgotten(Next(s, es[0]), es[1..], i);
    }
  }

  // ---------------------------------------------------------------------------- what a halt leaves

  /** Halting a runner, whichever handler does it: the core stays up unless the halt works, which it
      never does for DOCKER. A bulk stop forgets the runner all the same, and the clean-up of a failed
      start is safe exactly when there was no core to bring down or the halt works. */
  lemma HaltStepExact(s: Sys, e: Event, i: nat, f: StopFault)
    requires Enabled(s, e) && i < |s.runners|
    requires (e == HaltRunner(f) && i == s.phase.i)
             || (e.Take? && s.queue[0] == StopAllSessions && Registered(s, i) && f == HaltFault(e.tf.halts, i))
    ensures Live(Next(s, e), i) <==> Live(s, i) && !HaltWorks(s.runners[i], f)
    ensures e.Take? ==> !Registered(Next(s, e), i)
    ensures s.phase.CleanUp? ==> (Safe(s, e) <==> !Live(s, i) || HaltWorks(s.runners[i], f))
  {
    HaltLeavesUpExact(s.runners[i], f);
  }

  lemma TakeKeepsNames(s: Sys, f: TakeFaults)
    requires Enabled(s, Take(f))
    ensures var s' := TakeStep(s, f);
            && |s'.runners| >= |s.runners|
            && (forall i :: 0 <= i < |s.runners| ==> s'.runners[i].name == s.runners[i].name)
            && (s.queue[0] != StopAllSessions ==> s'.active == s.active)
            && (s.queue[0] == StopAllSessions ==> !s'.allowStarts)
  {
  }

  lemma FinishForgets(s: Sys, joined: bool, f: Faults, i: nat)
    requires Shape(s) && Enabled(s, Finish(joined, f)) && i < |s.runners| && Registered(s, i)
    ensures var s' := FinishStep(s, joined, f);
            s'.runners == s.runners &&
            (Registered(s', i)
             || (joined && s.phase == Waiting(i, true) && !Live(s', i) && UnloadedInOrder(s'.runners[i].driver.log)))
  {
  }

  lemma WorkKeepsNames(s: Sys, j: nat, start: StartFault, stop: StopFault, tx: TxFaults)
    requires Enabled(s, Work(j, start, stop, tx))
    ensures var s' := WorkStep(s, j, start, stop, tx);
            && |s'.runners| == |s.runners|
            && (forall i :: 0 <= i < |s.runners| ==> s'.runners[i].name == s.runners[i].name)
            && (s'.active == s.active || (s.phase == AwaitStart(j) && s'.active == s.active[s.runners[j].name := j]))
  {
    var r := s.runners[j].(queue := s.runners[j].queue[1..]);
    match s.runners[j].queue[0]
    case TaskStart =>
      StartKeepsName(r, s.table, start, tx);
      var (r', t, ok) := StartTask(r, s.table, start, tx);
      DoneKeepsNames(s, j, false, r', t, ok);
    case TaskStop(byManager) =>
      StopKeepsName(r, s.table, stop, tx);
      var (r', t, ok) := StopTask(r, s.table, stop, tx);
      DoneKeepsNames(s, j, byManager, r', t, ok);
  }

  lemma StartKeepsName(r: RunnerRec, t: Table, f: StartFault, tx: TxFaults)
    ensures StartTask(r, t, f, tx).0.name == r.name
  {
  }

  lemma StopKeepsName(r: RunnerRec, t: Table, f: StopFault, tx: TxFaults)
    ensures StopTask(r, t, f, tx).0.name == r.name
  {
  }

  lemma DoneKeepsNames(s: Sys, j: nat, byManager: bool, r': RunnerRec, t: Table, ok: bool)
    requires j < |s.runners| && r'.name == s.runners[j].name
    ensures var a, b := StartDone(s, j, r', t, ok), StopDone(s, j, byManager, r', t, ok);
            && a.runners == b.runners == s.runners[j := r'] && b.active == s.active
            && (a.active == s.active || (s.phase == AwaitStart(j) && a.active == s.active[s.runners[j].name := j]))
            && forall i :: 0 <= i < |s.runners| ==> s.runners[j := r'][i].name == s.runners[i].name
  {
  }

  /** What a task that has succeeded committed: its row, and the driver it left. */
  predicate CommitAgrees(s: Sys, e: Event, s': Sys)
    requires e.Work? && e.i < |s.runners| && s.runners[e.i].queue != [] && e.i < |s'.runners|
  {
    var r, k := s'.runners[e.i], Find(s'.table, s.runners[e.i].name);
    && k < |s'.table| && s'.table[k] == r.session
    && (if s.runners[e.i].queue[0] == TaskStart then
          r.session.state == Ready && (r.driver.core || (e.start.FailsAt? && e.start.consistencyInside))
        else
          r.session.state == Idle && !r.driver.core && r.driver.daemons == {})
  }

  /** The task at the head of runner i's queue succeeds with these failures. */
  predicate Succeeds(s: Sys, e: Event)
    requires e.Work? && e.i < |s.runners| && s.runners[e.i].queue != []
  {
    RunTask(s.runners[e.i].(queue := s.runners[e.i].queue[1..]), s.table, s.runners[e.i].queue[0],
            TaskFaults(e.start, e.stop, e.tx)).2
  }

  /** In every run, a worker step whose task succeeds commits a state that agrees with its driver,
      also when it writes a state over itself: READY with the core recorded, unless the driver's start
      failed with a consistency error in its chain, IDLE with the core cleared and the daemons ended.
      A task that fails leaves the table alone, and no row but the runner's is ever touched. */
  lemma CommitAgreesWithDriver(s0: Sys, es: seq<Event>, e: Event)
    requires Init(s0) && IsRun(s0, es) && e.Work? && Enabled(After(s0, es), e)
    ensures var s := After(s0, es);
            var s' := Next(s, e);
            && (Succeeds(s, e) ==> CommitAgrees(s, e, s'))
            && (!Succeeds(s, e) ==> s'.table == s.table)
            && |s'.table| == |s.table|
            && forall k :: 0 <= k < |s.table| && s.table[k].name != s.runners[e.i].name ==> s'.table[k] == s.table[k]
  {
    RunKeepsShape(s0, es);
    var s := After(s0, es);
    if s.runners[e.i].queue[0] == TaskStart { StartCommitAgrees(s, e); } else { StopCommitAgrees(s, e); }
  }

  lemma StartCommitAgrees(s: Sys, e: Event)
    requires Shape(s) && e.Work? && Enabled(s, e) && s.runners[e.i].queue[0] == TaskStart
    ensures var s' := Next(s, e);
            && (if Succeeds(s, e) then CommitAgrees(s, e, s') else s'.table == s.table)
            && |s'.table| == |s.table|
            && forall k :: 0 <= k < |s.table| && s.table[k].name != s.runners[e.i].name ==> s'.table[k] == s.table[k]
  {
    var r := s.runners[e.i].(queue := s.runners[e.i].queue[1..]);
    ReadyCommitExact(r, s.table, e.start, e.tx);
    StartTouches(r, s.table, e.start, e.tx);
  }

  lemma StopCommitAgrees(s: Sys, e: Event)
    requires Shape(s) && e.Work? && Enabled(s, e) && s.runners[e.i].queue[0].TaskStop?
    ensures var s' := Next(s, e);
            && (if Succeeds(s, e) then CommitAgrees(s, e, s') else s'.table == s.table)
            && |s'.table| == |s.table|
            && forall k :: 0 <= k < |s.table| && s.table[k].name != s.runners[e.i].name ==> s'.table[k] == s.table[k]
  {
    assert RunnerOk(s.runners[e.i]);
    var r := s.runners[e.i].(queue := s.runners[e.i].queue[1..]);
    IdleCommit(r, s.table, e.stop, e.tx);
    StopTouches(r, s.table, e.stop, e.tx);
  }

  lemma StartTouches(r: RunnerRec, t: Table, f: StartFault, tx: TxFaults)
    requires TableInv(t)
    ensures var (r', t', ok) := StartTask(r, t, f, tx);
            && r'.name == r.name && |t'| == |t| && (!ok ==> t' == t)
            && forall k :: 0 <= k < |t| && t[k].name != r.name ==> t'[k] == t[k]
  {
    MarkAndReadExact(t, r.name, Ready, tx);
  }

  lemma StopTouches(r: RunnerRec, t: Table, f: StopFault, tx: TxFaults)
    requires TableInv(t)
    ensures var (r', t', ok) := StopTask(r, t, f, tx);
            && r'.name == r.name && |t'| == |t| && (!ok ==> t' == t)
            && forall k :: 0 <= k < |t| && t[k].name != r.name ==> t'[k] == t[k]
  {
    MarkAndReadExact(t, r.name, Idle, tx);
  }

  // ---------------------------------------------------------------------------- why the premises are needed

  const NoFaults: Faults := Faults(false, false)

  const TakeOk: TakeFaults := TakeFaults(false, NoFaults, false, false, false, map[])

  /** A manager just started over one idle session. */
  function Start(row: Session): Sys {
    Sys([row], map[], [], [], Free, true)
  }

  /** Only edits, halts and restarts can be unsafe. */
  predicate Harmless(es: seq<Event>) {
    forall k :: 0 <= k < |es| ==> !es[k].Edit? && !es[k].HaltRunner? && !es[k].Restart?
  }

  predicate ReachesDouble(row: Session, es: seq<Event>) {
    Init(Start(row)) && IsRun(Start(row), es) && !SingleAttachment(After(Start(row), es))
  }

  lemma RunStep(s: Sys, e: Event, rest: seq<Event>)
    requires Enabled(s, e)
    ensures IsRun(s, [e] + rest) <==> IsRun(Next(s, e), rest)
    ensures IsRun(s, [e] + rest) ==> After(s, [e] + rest) == After(Next(s, e), rest)
  {
    assert ([e] + rest)[1..] == rest;
  }

  lemma FirstApart(a: seq<Event>, b: seq<Event>)
    requires a != []
    ensures a == [a[0]] + a[1..] && a + b == [a[0]] + (a[1..] + b)
  {
  }

  lemma {:induction false} RunAppend(s: Sys, a: seq<Event>, b: seq<Event>)
    requires IsRun(s, a) && IsRun(After(s, a), b)
    ensures IsRun(s, a + b) && After(s, a + b) == After(After(s, a), b)
    decreases |a|
  {
    if a == [] {
      assert a + b == b;
    } else {
      FirstApart(a, b);
      RunStep(s, a[0], a[1..]);
      RunAppend(Next(s, a[0]), a[1..], b);
      RunStep(s, a[0], a[1..] + b);
    }
  }

  lemma RunSnoc(s: Sys, es: seq<Event>, e: Event)
    requires IsRun(s, es) && Enabled(After(s, es), e)
    ensures IsRun(s, es + [e]) && After(s, es + [e]) == Next(After(s, es), e)
  {
    RunStep(After(s, es), e, []);
    assert [e] + [] == [e];
    RunAppend(s, es, [e]);
  }

  /** A start task on a one-row table whose row carries the runner's name. */
  lemma StartOnOneRow(r: RunnerRec, row: Session, tx: TxFaults)
    requires row.name == r.name && !r.driver.core
    requires tx == NoTxFaults || tx == TxFaults(Faults(false, true), false)
    ensures var (r', t, ok) := StartTask(r, [row], StartWorks, tx);
            && r' == r.(driver := r'.driver, session := r'.session)
            && r'.driver.core && r'.driver.docker == r.driver.docker && r'.driver.handle && r'.driver.open == r.ctxLive
            && ok == (tx == NoTxFaults)
            && t == if ok then [row.(state := Ready)] else [row]
  {
    assert Find([row], r.name) == 0;
    assert [row][0 := row.(state := Ready)] == [row.(state := Ready)];
    assert Find([row.(state := Ready)], r.name) == 0;
  }

  /** Taking a start request for the one row, nothing going wrong. */
  lemma TakeOne(s: Sys, row: Session)
    requires s.table == [row] && s.queue == [StartSession(row.name)] && s.phase == Free && s.allowStarts
    requires row.name !in s.active
    ensures var s', n := Next(s, Take(TakeOk)), |s.runners|;
            && s'.table == [row.(state := Idle)] && s'.phase == AwaitStart(n) && s'.queue == []
            && s'.active == s.active && s'.allowStarts
            && s'.runners ==
                 s.runners + [NewRunner(row.(state := Idle)).(ipcLoop := true, open := true, queue := [TaskStart])]
  {
    assert Find([row], row.name) == 0;
    assert [row][0 := row.(state := Idle)] == [row.(state := Idle)];
  }

  /** Asking for the session, taking the request, and the second runner's start task. */
  function LoadAgain(name: string): (es: seq<Event>)
    ensures Harmless(es)
  {
    [Ask(StartSession(name)), Take(TakeOk), Work(1, StartWorks, StopWorks, NoTxFaults)]
  }

  /** Loading a second runner over the one row, and bringing its driver up. */
  lemma SecondStart(s: Sys, row: Session)
    requires s.table == [row] && |s.runners| == 1 && s.queue == [] && s.phase == Free && s.allowStarts
    requires row.name !in s.active && s.runners[0].id == row.id && s.runners[0].driver.core
    ensures IsRun(s, LoadAgain(row.name)) && !SingleAttachment(After(s, LoadAgain(row.name)))
  {
    var e0, e1, e2 := Ask(StartSession(row.name)), Take(TakeOk), Work(1, StartWorks, StopWorks, NoTxFaults);
    var s1 := Next(s, e0);
    TakeOne(s1, row);
    var s2 := Next(s1, e1);
    WorkSecond(s2, row.(state := Idle));
    RunStep(s2, e2, []);
    RunStep(s1, e1, [e2]);
    RunStep(s, e0, [e1, e2]);
  }

  lemma WorkSecond(s: Sys, row: Session)
    requires s.table == [row] && |s.runners| == 2 && s.runners[0].driver.core && s.runners[0].id == row.id
    requires s.runners[1] == NewRunner(row).(ipcLoop := true, open := true, queue := [TaskStart])
    ensures !SingleAttachment(Next(s, Work(1, StartWorks, StopWorks, NoTxFaults)))
  {
    assert s.runners[1].queue[1..] == [];
    StartOnOneRow(s.runners[1].(queue := []), row, NoTxFaults);
    var s' := Next(s, Work(1, StartWorks, StopWorks, NoTxFaults));
    assert Live(s', 0) && Live(s', 1) && s'.runners[0].id == s'.runners[1].id;
  }

  /** Asking for the session, taking the request, and running the start task. */
  lemma FirstStart(row: Session, tx: TxFaults) returns (es: seq<Event>)
    requires RowOk(row) && row.state == Idle && (tx == NoTxFaults || tx == TxFaults(Faults(false, true), false))
    ensures Init(Start(row)) && IsRun(Start(row), es)
    ensures Harmless(es)
    ensures var s := After(Start(row), es);
            && s.table == (if tx == NoTxFaults then [row.(state := Ready)] else [row])
            && s.active == (if tx == NoTxFaults then map[row.name := 0] else map[])
            && s.phase == (if tx == NoTxFaults then Free else CleanUp(0))
            && s.queue == [] && s.allowStarts && |s.runners| == 1
            && s.runners[0].driver.core && s.runners[0].id == row.id && s.runners[0].name == row.name
            && s.runners[0].driver.docker == (row.driver == DOCKER) && s.runners[0].driver.handle
            && s.runners[0].driver.open
            && s.runners[0].open && s.runners[0].queue == []
  {
    var e0, e1, e2 := Ask(StartSession(row.name)), Take(TakeOk), Work(0, StartWorks, StopWorks, tx);
    var s0 := Start(row);
    assert IsRun(s0, []);
    RunSnoc(s0, [], e0);
    TakeOne(Next(s0, e0), row);
    RunSnoc(s0, [] + [e0], e1);
    WorkOne(Next(Next(s0, e0), e1), row, tx);
    RunSnoc(s0, [] + [e0] + [e1], e2);
    es := [] + [e0] + [e1] + [e2];
  }

  /** The start task of the first runner over the one row. */
  lemma WorkOne(s: Sys, row: Session, tx: TxFaults)
    requires row.state == Idle && (tx == NoTxFaults || tx == TxFaults(Faults(false, true), false))
    requires s.table == [row.(state := Idle)] && s.phase == AwaitStart(0) && s.active == map[]
    requires s.runners == [NewRunner(row.(state := Idle)).(ipcLoop := true, open := true, queue := [TaskStart])]
    ensures var s' := Next(s, Work(0, StartWorks, StopWorks, tx));
            && s'.table == (if tx == NoTxFaults then [row.(state := Ready)] else [row])
            && s'.active == (if tx == NoTxFaults then map[row.name := 0] else map[])
            && s'.phase == (if tx == NoTxFaults then Free else CleanUp(0))
            && s'.queue == s.queue && s'.allowStarts == s.allowStarts && |s'.runners| == 1
            && s'.runners[0].driver.core && s'.runners[0].id == row.id && s'.runners[0].name == row.name
            && s'.runners[0].driver.docker == (row.driver == DOCKER) && s'.runners[0].driver.handle
            && s'.runners[0].driver.open
            && s'.runners[0].open && s'.runners[0].queue == []
  {
    assert row.(state := Idle) == row && s.runners[0].queue[1..] == [];
    StartOnOneRow(s.runners[0].(queue := []), row, tx);
  }

  lemma RenameStep(s: Sys, row: Session, newName: string)
    requires s.table == [row] && EntryOk(row.(name := newName))
    ensures Next(s, Edit(Rename(row.name, newName), NoFaults)) == s.(table := [row.(name := newName)])
  {
    assert Find([row], row.name) == 0;
    assert [row][0 := row.(name := newName)] == [row.(name := newName)];
  }

  /** Renaming a loaded session, whichever it is and whatever the new name, lets a second driver
      attach to it, with nothing else unsafe before or after. */
  lemma RenameAttachesTwice(row: Session, newName: string) returns (a: seq<Event>, b: seq<Event>)
    requires RowOk(row) && row.state == Idle && SessionNameOk(newName) && newName != row.name
    ensures ReachesDouble(row, a + [Edit(Rename(row.name, newName), NoFaults)] + b) && Harmless(a) && Harmless(b)
  {
    var e := Edit(Rename(row.name, newName), NoFaults);
    a := FirstStart(row, NoTxFaults);
    RenameStep(After(Start(row), a), row.(state := Ready), newName);
    RunSnoc(Start(row), a, e);
    var s := After(Start(row), a + [e]);
    SecondStart(s, row.(state := Ready, name := newName));
    b := LoadAgain(newName);
    RunAppend(Start(row), a + [e], b);
  }

  lemma FailedCleanUpStep(s: Sys, row: Session, f: StopFault)
    requires s.phase == CleanUp(0) && |s.runners| == 1 && s.runners[0].driver.core && s.table == [row]
    requires s.runners[0].name == row.name && row.state == Idle
    requires f.TearDownFails? || s.runners[0].driver.docker
    ensures var s1 := Next(s, HaltRunner(f));
            Enabled(s1, Finish(false, NoFaults)) &&
            (var s2 := Next(s1, Finish(false, NoFaults));
             && s2 == s.(runners := s2.runners, phase := Free)
             && |s2.runners| == 1 && s2.runners[0].driver.core && s2.runners[0].id == s.runners[0].id)
  {
    assert Find([row], row.name) == 0 && [row][0 := row.(state := Idle)] == [row];
  }

  /** So does a failed start whose clean-up could not tear the driver down: the READY transaction
      fails, the tear down fails and is only logged, and the runner is dropped all the same. For a
      DOCKER session the tear down need not fail by itself: whatever it would have done, the halt
      has cancelled its context. */
  lemma FailedCleanUpAttachesTwice(row: Session, f: StopFault) returns (a: seq<Event>, b: seq<Event>)
    requires RowOk(row) && row.state == Idle && (f.TearDownFails? || row.driver == DOCKER)
    ensures ReachesDouble(row, a + [HaltRunner(f)] + b) && Harmless(a) && Harmless(b)
  {
    a := FirstStart(row, TxFaults(Faults(false, true), false));
    var halt, finish := HaltRunner(f), Finish(false, NoFaults);
    FailedCleanUpStep(After(Start(row), a), row, f);
    RunSnoc(Start(row), a, halt);
    RunSnoc(Start(row), a + [halt], finish);
    FinishAndLoad(row, a + [halt]);
    b := [finish] + LoadAgain(row.name);
  }

  /** Once the runner is dropped the session is loaded a second time. */
  lemma FinishAndLoad(row: Session, a: seq<Event>)
    requires Init(Start(row)) && IsRun(Start(row), a) && Enabled(After(Start(row), a), Finish(false, NoFaults))
    requires var s := Next(After(Start(row), a), Finish(false, NoFaults));
             && s.table == [row] && |s.runners| == 1 && s.queue == [] && s.phase == Free && s.allowStarts
             && row.name !in s.active && s.runners[0].id == row.id && s.runners[0].driver.core
    ensures ReachesDouble(row, a + ([Finish(false, NoFaults)] + LoadAgain(row.name)))
  {
    var finish, b := Finish(false, NoFaults), LoadAgain(row.name);
    RunSnoc(Start(row), a, finish);
    SecondStart(After(Start(row), a + [finish]), row);
    RunAppend(Start(row), a + [finish], b);
    assert a + [finish] + b == a + ([finish] + b);
  }
}
