/** When a session that is attached once can come to be attached twice although nothing unsafe is
    done any more: exactly when the state is exposed. And what a restart does to it. */
module SessionExposure {
  import opened Common
  import opened SessionTable
  import opened SessionDriver
  import opened SessionRunner
  import opened SessionManager
  import opened SessionSystem
  import opened SessionSafety
  import opened SessionHandlers

  // ---------------------------------------------------------------------------- fresh names

  function MaxLength(ss: seq<string>): nat {
    if ss == [] then 0
    else if |ss[0]| > MaxLength(ss[1..]) then |ss[0]| else MaxLength(ss[1..])
  }

  /** A valid name that is none of these. */
  function FreshName(ss: seq<string>): string {
    seq(MaxLength(ss) + 1, i => 'a')
  }

  lemma {:induction false} LengthBound(ss: seq<string>, k: nat)
    requires k < |ss|
    ensures |ss[k]| <= MaxLength(ss)
  {
    if k > 0 {
      LengthBound(ss[1..], k - 1);
    }
  }

  lemma FreshIsFresh(ss: seq<string>)
    ensures FreshName(ss) !in ss && SessionNameOk(FreshName(ss))
  {
    var x := FreshName(ss);
    if x in ss {
      var k :| 0 <= k < |ss| && ss[k] == x;
      LengthBound(ss, k);
    }
  }

  function Labels(s: Sys): (ls: seq<string>)
    ensures forall k :: 0 <= k < |s.table| ==> s.table[k].id in ls && s.table[k].name in ls
    ensures forall i :: 0 <= i < |s.runners| ==> s.runners[i].id in ls && s.runners[i].name in ls
  {
    var a := seq(|s.table|, k requires 0 <= k < |s.table| => s.table[k].id);
    var b := seq(|s.table|, k requires 0 <= k < |s.table| => s.table[k].name);
    var c := seq(|s.runners|, i requires 0 <= i < |s.runners| => s.runners[i].id);
    var d := seq(|s.runners|, i requires 0 <= i < |s.runners| => s.runners[i].name);
    assert forall k :: 0 <= k < |s.table| ==> a[k] == s.table[k].id && b[k] == s.table[k].name;
    assert forall i :: 0 <= i < |s.runners| ==> c[i] == s.runners[i].id && d[i] == s.runners[i].name;
    a + b + c + d
  }

  // ---------------------------------------------------------------------------- making room

  /** Between two handlers, with nothing asked for. */
  predicate Rested(s: Sys) {
    Shape(s) && s.phase == Free && s.queue == [] && s.allowStarts
  }

  /** What getting ready for a start leaves alone: runner i, row k's id, and everybody's labels. */
  predicate Prepared(s: Sys, s': Sys, i: nat, k: nat) {
    && Rested(s') && |s'.runners| == |s.runners| && |s.table| <= |s'.table| && i < |s.runners| && k < |s.table|
    && s'.runners[i] == s.runners[i] && s'.table[k].id == s.table[k].id
    && (forall h :: 0 <= h < |s.runners| ==>
          s'.runners[h].name == s.runners[h].name && s'.runners[h].id == s.runners[h].id)
  }

  const DropIt: Event := Take(TakeFaults(true, Faults(false, false), false, false, true, map[]))

  /** Requests can fail one by one without any effect, except a bulk stop. */
  lemma {:induction false} DropRequests(s: Sys) returns (es: seq<Event>)
    requires s.phase == Free && StopAllSessions !in s.queue
    ensures SafeLeads(s, es, s.(queue := []))
    decreases |s.queue|
  {
    if s.queue == [] {
      es := [];
    } else {
      var s1 := s.(queue := s.queue[1..]);
      assert s.queue[0] in s.queue;
      assert Next(s, DropIt) == s1;
      SafeOne(s, DropIt);
      var more := DropRequests(s1);
      SafeFurther(s, [DropIt], s1, more, s1.(queue := []));
      es := [DropIt] + more;
    }
  }

  /** Queued stops bring the core down when it can be brought down. */
  lemma {:induction false} QueuedStopsWork(r: RunnerRec, t: Table)
    requires RunnerOk(r) && TableInv(t) && Find(t, r.name) < |t| && (r.driver.core ==> CanTearDown(r.driver))
    requires forall k :: 0 <= k < |r.queue| ==> r.queue[k] == TaskStop(false)
    ensures var (r', t') := Drained(r, t, []);
            && RunnerOk(r') && TableInv(t') && r'.name == r.name && Find(t', r.name) < |t'|
            && (r'.driver.core ==> CanTearDown(r'.driver)) && SameLabelled(t, t')
    decreases |r.queue|
  {
    if r.queue != [] {
      var p := r.(queue := r.queue[1..]);
      RunnerOkOf(r, p);
      StopTaskKeeps(p, t, StopWorks, NoTxFaults);
      StopWorksOnce(p, t);
      var (r', t', _) := StopTask(p, t, StopWorks, NoTxFaults);
      QueuedStopsWork(r', t');
    }
  }

  predicate SameLabelled(t: Table, t': Table) {
    |t'| == |t| && forall k :: 0 <= k < |t| ==> t'[k].id == t[k].id && t'[k].name == t[k].name
  }

  lemma StopWorksOnce(r: RunnerRec, t: Table)
    requires TableInv(t) && Find(t, r.name) < |t| && (r.driver.core ==> CanTearDown(r.driver))
    ensures var (r', t', ok) := StopTask(r, t, StopWorks, NoTxFaults);
            ok && !r'.driver.core && r'.name == r.name && Find(t', r.name) < |t'| && SameLabelled(t, t')
  {
    MarkingWorks(t, r.name);
    StopWorksOnDriver(r.driver);
  }

  lemma StopWorksOnDriver(d: DriverRec)
    requires d.core ==> CanTearDown(d)
    ensures var (d', res) := DriverStop(d, StopWorks); !res.StopFailed? && !d'.core
  {
  }

  lemma MarkingWorks(t: Table, name: string)
    requires TableInv(t) && Find(t, name) < |t|
    ensures var (t', row) := MarkAndRead(t, name, Idle, NoTxFaults);
            row.Some? && Find(t', name) < |t'| && SameLabelled(t, t')
  {
    SetStateExact(t, name, Idle, NoTxFaults.update);
    FindMarked(t, Find(t, name), Idle);
  }

  /** A runner that is not stuck, and whose row exists, can be unloaded. */
  lemma UnloadWorks(r: RunnerRec, t: Table)
    requires RunnerOk(r) && TableInv(t) && r.open && Find(t, r.name) < |t| && (r.driver.core ==> CanTearDown(r.driver))
    requires forall k :: 0 <= k < |r.queue| ==> r.queue[k] == TaskStop(false)
    ensures var (v, t', ok) := Unloaded(r, t, NoUnloadFaults);
            ok && v.name == r.name && v.id == r.id && SameLabelled(t, t')
  {
    QueuedStopsWork(r, t);
    DrainedOk(r, t, []);
    var (r1, t1) := Drained(r, t, []);
    StopWorksOnce(r1, t1);
    var (v, t2, stopped) := StopTask(r1, t1, StopWorks, NoTxFaults);
    StopTaskKeeps(r1, t1, StopWorks, NoTxFaults);
    assert StopSubmitted(r, t, false, [], StopWorks, NoTxFaults) == (v, t2, stopped);
    HaltedLabels(v);
  }

  lemma HaltedLabels(r: RunnerRec)
    ensures var v := Joined(Halt(r, StopWorks), true); v.name == r.name && v.id == r.id
  {
  }

  /** Unloading runner j, whose row exists. */
  lemma UnloadOne(s: Sys, i: nat, k: nat, j: nat) returns (es: seq<Event>, s': Sys)
    requires Rested(s) && i < |s.runners| && j < |s.runners| && i != j && k < |s.table|
    requires Registered(s, j) && !Stuck(s, j) && Find(s.table, s.runners[j].name) < |s.table|
    ensures SafeLeads(s, es, s') && Prepared(s, s', i, k) && s'.table[k].name == s.table[k].name
    ensures s'.active == s.active - {s.runners[j].name}
    ensures forall h :: 0 <= h < |s.runners| && h != j ==> s'.runners[h] == s.runners[h]
  {
    var name, r := s.runners[j].name, s.runners[j];
    OnlyStopsQueued(s, j);
    assert RunnerOk(r);
    UnloadWorks(r, s.table);
    es, s' := AskAndUnload(s, name, NoUnloadFaults);
    RunKeepsShape(s, es);
    var (v, t, _) := Unloaded(r, s.table, NoUnloadFaults);
    UnloadPrepared(s, s', i, k, j, v, t);
  }

  lemma UnloadPrepared(s: Sys, s': Sys, i: nat, k: nat, j: nat, v: RunnerRec, t: Table)
    requires Rested(s) && Shape(s') && i < |s.runners| && j < |s.runners| && i != j && k < |s.table|
    requires v.name == s.runners[j].name && v.id == s.runners[j].id && SameLabelled(s.table, t)
    requires s' == s.(table := t, runners := s.runners[j := v], active := s'.active)
    ensures Prepared(s, s', i, k) && s'.table[k].name == s.table[k].name
  {
  }

  lemma OnlyStopsQueued(s: Sys, j: nat)
    requires Rested(s) && j < |s.runners| && s.runners[j].open
    ensures forall n :: 0 <= n < |s.runners[j].queue| ==> s.runners[j].queue[n] == TaskStop(false)
  {
    var q := s.runners[j].queue;
    assert QueueOk(s, j);
    forall n | 0 <= n < |q| ensures q[n] == TaskStop(false) {
      assert q[n] in q;
    }
  }

  /** A row under any valid name can be had. */
  lemma EnsureRow(s: Sys, i: nat, k: nat, name: string) returns (es: seq<Event>, s': Sys)
    requires Rested(s) && i < |s.runners| && k < |s.table| && SessionNameOk(name)
    ensures SafeLeads(s, es, s') && Prepared(s, s', i, k) && s'.table[k].name == s.table[k].name
    ensures Find(s'.table, name) < |s'.table| && s'.runners == s.runners && s'.active == s.active
  {
    if Find(s.table, name) < |s.table| {
      es, s' := [], s;
    } else {
      var id := FreshName(Labels(s));
      FreshIsFresh(Labels(s));
      var op := Define(id, name, None, Command("sh", []), 16384, PtyParams(30, 80), None);
      var e := Edit(op, NoFaults);
      DefineWorks(s, op);
      SafeOne(s, e);
      es, s' := [e], Next(s, e);
      NextKeepsShape(s, e);
      FindUnique(s'.table, name, |s.table|);
    }
  }

  lemma DefineWorks(s: Sys, op: Op)
    requires op.Define? && op.id != "" && SessionNameOk(op.name)
    requires op == Define(op.id, op.name, None, Command("sh", []), 16384, PtyParams(30, 80), None)
    requires forall k :: 0 <= k < |s.table| ==> s.table[k].id != op.id && s.table[k].name != op.name
    ensures Next(s, Edit(op, NoFaults)) == s.(table := s.table + [NewRow(op)])
  {
    assert EntryOk(NewRow(op));
  }

  lemma PreparedFurther(s: Sys, s': Sys, s'': Sys, i: nat, k: nat)
    requires Prepared(s, s', i, k) && Prepared(s', s'', i, k)
    ensures Prepared(s, s'', i, k)
  {
  }

  /** Unloading one registered runner that carries i's id. */
  lemma UnloadNamesake(s: Sys, i: nat, k: nat, j: nat) returns (es: seq<Event>, s': Sys)
    requires Rested(s) && i < |s.runners| && k < |s.table| && !IdBlocked(s, i)
    requires j < |s.runners| && s.runners[j].id == s.runners[i].id && Registered(s, j)
    ensures SafeLeads(s, es, s') && Prepared(s, s', i, k) && s'.table[k].name == s.table[k].name
    ensures |s'.active| < |s.active| && !IdBlocked(s', i)
  {
    assert !Blocks(s, i, j);
    assert RunnerOk(s.runners[j]);
    var es1, s1 := EnsureRow(s, i, k, s.runners[j].name);
    var es2; es2, s' := UnloadOne(s1, i, k, j);
    SafeFurther(s, es1, s1, es2, s');
    PreparedFurther(s, s1, s', i, k);
    FewerActive(s.active, s.runners[j].name);
    NotBlockedStays(s, s', i, j);
    es := es1 + es2;
  }

  /** Unloading every registered runner that carries i's id but is not stuck and not i. */
  lemma {:induction false} UnloadNamesakes(s: Sys, i: nat, k: nat) returns (es: seq<Event>, s': Sys)
    requires Rested(s) && i < |s.runners| && k < |s.table| && !IdBlocked(s, i)
    ensures SafeLeads(s, es, s') && Prepared(s, s', i, k) && s'.table[k].name == s.table[k].name
    ensures forall h :: 0 <= h < |s'.runners| && s'.runners[h].id == s.runners[i].id ==> !Registered(s', h)
    decreases |s.active|
  {
    if j :| 0 <= j < |s.runners| && s.runners[j].id == s.runners[i].id && Registered(s, j) {
      var es1, s1 := UnloadNamesake(s, i, k, j);
      var es2; es2, s' := UnloadNamesakes(s1, i, k);
      SafeFurther(s, es1, s1, es2, s');
      PreparedFurther(s, s1, s', i, k);
      es := es1 + es2;
    } else {
      es, s' := [], s;
    }
  }

  lemma FewerActive(m: map<string, nat>, name: string)
    requires name in m
    ensures |m - {name}| < |m|
  {
    var m' := m - {name};
    assert m' == map n | n in m.Keys - {name} :: m[n];
    assert |m'.Keys| == |m.Keys| - 1;
  }

  /** Once j is unloaded, whoever blocks blocked before. */
  lemma NotBlockedStays(s: Sys, s': Sys, i: nat, j: nat)
    requires s.phase == Free == s'.phase && |s'.runners| == |s.runners| && i < |s.runners| && j < |s.runners| && i != j
    requires Registered(s, j) && s'.active == s.active - {s.runners[j].name} && !IdBlocked(s, i)
    requires forall h :: 0 <= h < |s.runners| && h != j ==> s'.runners[h] == s.runners[h]
    requires s'.runners[j].name == s.runners[j].name && s'.runners[j].id == s.runners[j].id
    ensures !IdBlocked(s', i)
  {
    forall h | 0 <= h < |s'.runners| && Blocks(s', i, h) ensures s'.runners[h].id != s'.runners[i].id {
      assert h != j && Blocks(s, i, h);
    }
  }

  /** Renaming row k, which nobody registered holds, to a name nobody uses. */
  lemma RenameAway(s: Sys, i: nat, k: nat) returns (es: seq<Event>, s': Sys)
    requires Rested(s) && i < |s.runners| && k < |s.table| && s.table[k].id == s.runners[i].id
    requires forall h :: 0 <= h < |s.runners| && s.runners[h].id == s.runners[i].id ==> !Registered(s, h)
    ensures SafeLeads(s, es, s') && Prepared(s, s', i, k) && s'.table[k].name !in s'.active
  {
    var x := FreshName(Labels(s));
    FreshIsFresh(Labels(s));
    var e := Edit(Rename(s.table[k].name, x), NoFaults);
    RenameWorks(s.table, k, x);
    RenameIsSafe(s, i, k, x);
    SafeOne(s, e);
    es, s' := [e], Next(s, e);
    NextKeepsShape(s, e);
  }

  lemma RenameIsSafe(s: Sys, i: nat, k: nat, x: string)
    requires TableInv(s.table) && s.phase == Free && i < |s.runners| && k < |s.table|
    requires s.table[k].id == s.runners[i].id
    requires forall h :: 0 <= h < |s.runners| && s.runners[h].id == s.runners[i].id ==> !Registered(s, h)
    ensures Safe(s, Edit(Rename(s.table[k].name, x), NoFaults))
  {
    forall h, j | 0 <= h < |s.runners| && 0 <= j < |s.table| && s.table[j].name == s.table[k].name && Held(s, h)
      ensures s.table[j].id != s.runners[h].id
    {
      assert j == k;
    }
  }

  lemma RenameWorks(t: Table, k: nat, x: string)
    requires TableInv(t) && k < |t| && SessionNameOk(x) && forall j :: 0 <= j < |t| ==> t[j].name != x
    ensures Apply(t, Rename(t[k].name, x), NoFaults).0 == t[k := t[k].(name := x)]
  {
    FindUnique(t, t[k].name, k);
    assert RowOk(t[k]);
  }

  // ---------------------------------------------------------------------------- the second attachment

  const NoLoadFaults: LoadFaults :=
    LoadFaults(false, NoFaults, false, false, false, StartWorks, NoTxFaults, StopWorks, NoFaults)

  /** A row nobody has loaded under its name can be started. */
  lemma StartRow(s: Sys, i: nat, k: nat) returns (es: seq<Event>)
    requires Rested(s) && i < |s.runners| && k < |s.table| && s.table[k].id == s.runners[i].id && Live(s, i)
    requires s.table[k].name !in s.active
    ensures IsRun(s, es) && IsSafeRun(s, es) && !SingleAttachment(After(s, es))
  {
    var name, n := s.table[k].name, |s.runners|;
    var ask, take, work := Ask(StartSession(name)), TakeLoad(NoLoadFaults), Work(n, StartWorks, StopWorks, NoTxFaults);
    var s1 := Next(s, ask);
    NextKeepsShape(s, ask);
    SafeOne(s, ask);
    TakeRow(s1, k);
    SafeOn(s, [ask], s1, take);
    var s2 := Next(s1, take);
    WorkRow(s2, n, k);
    SafeOn(s, [ask] + [take], s2, work);
    var s3 := Next(s2, work);
    assert s3.runners[i] == s.runners[i] && Live(s3, i) && Live(s3, n);
    es := [ask] + [take] + [work];
  }

  lemma TakeRow(s: Sys, k: nat)
    requires Shape(s) && s.phase == Free && s.allowStarts && k < |s.table|
    requires s.queue == [StartSession(s.table[k].name)] && s.table[k].name !in s.active
    ensures var s', n := Next(s, TakeLoad(NoLoadFaults)), |s.runners|;
            && s'.phase == AwaitStart(n) && |s'.table| == |s.table| && s'.table[k].id == s.table[k].id
            && s'.runners == s.runners + [NewRunner(s'.table[k]).(ipcLoop := true, open := true, queue := [TaskStart])]
  {
    FindUnique(s.table, s.table[k].name, k);
  }

  lemma WorkRow(s: Sys, n: nat, k: nat)
    requires s.phase == AwaitStart(n) && |s.runners| == n + 1 && k < |s.table|
    requires s.runners[n] == NewRunner(s.table[k]).(ipcLoop := true, open := true, queue := [TaskStart])
    ensures var e := Work(n, StartWorks, StopWorks, NoTxFaults);
            Enabled(s, e) &&
            (var s' := Next(s, e);
             && |s'.runners| == n + 1 && (forall h :: 0 <= h < n ==> s'.runners[h] == s.runners[h])
             && s'.runners[n].id == s.table[k].id && s'.runners[n].driver.core)
  {
    assert [TaskStart][1..] == [];
  }

  /** Some run without an unsafe event ends with a session attached twice. */
  ghost predicate CanAttachTwice(s: Sys) {
    exists es :: IsRun(s, es) && IsSafeRun(s, es) && !SingleAttachment(After(s, es))
  }

  lemma ThenAttachesTwice(s: Sys, a: seq<Event>, s': Sys, b: seq<Event>)
    requires SafeLeads(s, a, s') && IsRun(s', b) && IsSafeRun(s', b) && !SingleAttachment(After(s', b))
    ensures CanAttachTwice(s)
  {
    SafeFurther(s, a, s', b, After(s', b));
  }

  lemma OpenRowStarts(s: Sys, i: nat, k: nat)
    requires Rested(s) && i < |s.runners| && k < |s.table| && Live(s, i) && OpenRow(s, i, k)
    ensures CanAttachTwice(s)
  {
    var name := s.table[k].name;
    var es, s' := [], s;
    if !IdBlocked(s, i) {
      es, s' := UnloadNamesakes(s, i, k);
      var more, s'' := RenameAway(s', i, k);
      SafeFurther(s, es, s', more, s'');
      es, s' := es + more, s'';
    } else if name in s.active {
      var j := s.active[name];
      assert !Blocks(s, i, j) && s.runners[j].name == name;
      FindUnique(s.table, name, k);
      es, s' := UnloadOne(s, i, k, j);
    }
    var start := StartRow(s', i, k);
    ThenAttachesTwice(s, es, s', start);
  }

  /** Exposed, and no bulk stop pending: the second attachment can be brought about. */
  lemma ExposedAttaches(s: Sys)
    requires Shape(s) && s.phase == Free && StopAllSessions !in s.queue && Exposed(s)
    ensures CanAttachTwice(s)
  {
    var i, k :| 0 <= i < |s.runners| && 0 <= k < |s.table| && Live(s, i) && OpenRow(s, i, k);
    var s1 := s.(queue := []);
    var es := DropRequests(s);
    SameQueues(s, s1);
    BlockedWithoutQueue(s, s1, i, s.table[k].name);
    OpenRowStarts(s1, i, k);
    var more :| IsRun(s1, more) && IsSafeRun(s1, more) && !SingleAttachment(After(s1, more));
    ThenAttachesTwice(s, es, s1, more);
  }

  lemma BlockedWithoutQueue(s: Sys, s': Sys, i: nat, name: string)
    requires s' == s.(queue := s'.queue) && i < |s.runners|
    ensures (NameBlocked(s', i, name) ==> NameBlocked(s, i, name)) && (IdBlocked(s', i) ==> IdBlocked(s, i))
  {
    assert forall h :: 0 <= h < |s.runners| && Blocks(s', i, h) ==> Blocks(s, i, h);
  }

  /** Not exposed: no safe run, whatever is asked for and whatever fails, ever attaches twice. This
      needs nothing of the queue. */
  lemma UnexposedNeverAttaches(s: Sys, es: seq<Event>)
    requires Shape(s) && s.phase == Free && SingleAttachment(s) && !Exposed(s) && IsSafeRun(s, es)
    ensures IsRun(s, es) && SingleAttachment(After(s, es))
  {
    SafeRunKeepsSecure(s, es);
  }

  /** Exactly when a session attached once can come to be attached twice. From any reached state
      between two handlers with no bulk stop pending, whatever led there, some continuation that
      neither renames a loaded session nor fails a clean-up, nor restarts over a container, attaches a
      session twice if and only if the state is exposed. */
  lemma AttachedTwiceExact(s0: Sys, es: seq<Event>)
    requires Init(s0) && IsRun(s0, es)
    requires After(s0, es).phase == Free && StopAllSessions !in After(s0, es).queue && SingleAttachment(After(s0, es))
    ensures CanAttachTwice(After(s0, es)) <==> Exposed(After(s0, es))
  {
    RunKeepsShape(s0, es);
    var s := After(s0, es);
    if Exposed(s) {
      ExposedAttaches(s);
    }
    if CanAttachTwice(s) && !Exposed(s) {
      var more :| IsRun(s, more) && IsSafeRun(s, more) && !SingleAttachment(After(s, more));
      UnexposedNeverAttaches(s, more);
    }
  }

  // ---------------------------------------------------------------------------- when nothing can start any more

  predicate BulkAt(queue: seq<Request>, q: int) {
    0 <= q < |queue| && queue[q] == StopAllSessions && forall k :: 0 <= k < q ==> !queue[k].StartSession?
  }

  /** Starts are refused, or a bulk stop is queued with no start before it; and none is under way. */
  predicate Closing(s: Sys) {
    !s.phase.AwaitStart? && (!s.allowStarts || exists q :: 0 <= q < |s.queue| && BulkAt(s.queue, q))
  }

  /** Nothing comes up. */
  predicate NothingNew(s: Sys, s': Sys) {
    && |s'.runners| == |s.runners|
    && forall i :: 0 <= i < |s.runners| ==> s'.runners[i].id == s.runners[i].id && (Live(s', i) ==> Live(s, i))
  }

  lemma LongerQueue(s: Sys, r: Request, q: int)
    requires BulkAt(s.queue, q)
    ensures BulkAt(s.queue + [r], q)
  {
  }

  lemma ClosingStep(s: Sys, e: Event)
    requires Shape(s) && Closing(s) && Enabled(s, e) && !e.Restart?
    ensures Closing(Next(s, e)) && NothingNew(s, Next(s, e))
  {
    match e
    case Work(i, start, stop, tx) => ClosingWork(s, i, start, stop, tx);
    case Take(f) => if q :| BulkAt(s.queue, q) { ClosingTake(s, f, q); } else { ClosedTake(s, f); }
    case _ => ClosingMinor(s, e);
  }

  /** Steps in which no task is run and no request is taken. */
  lemma ClosingMinor(s: Sys, e: Event)
    requires Closing(s) && Enabled(s, e) && !e.Restart? && !e.Work? && !e.Take?
    ensures Closing(Next(s, e)) && NothingNew(s, Next(s, e))
  {
    MinorNothingNew(s, e);
    match e
    case Ask(req) => ClosingEnqueue(s, Next(s, e), req);
    case IpcLoopEnds(i, _) => ClosingEnqueue(s, Next(s, e), StopSession(s.runners[i].name));
    case Notify(i, _) => ClosingEnqueue(s, Next(s, e), StopSession(s.runners[i].name));
    case _ => assert Next(s, e).queue == s.queue;
  }

  lemma MinorNothingNew(s: Sys, e: Event)
    requires Enabled(s, e) && !e.Restart? && !e.Work? && !e.Take?
    ensures NothingNew(s, Next(s, e))
    ensures var s' := Next(s, e);
            s'.allowStarts == s.allowStarts && (s'.phase == s.phase || s'.phase == Free || s'.phase.Waiting?)
  {
    if e.HaltRunner? { HaltLeavesUpExact(s.runners[s.phase.i], e.stop); }
  }

  lemma ClosingEnqueue(s: Sys, s': Sys, r: Request)
    requires Closing(s) && (s'.phase == s.phase || !s'.phase.AwaitStart?) && s'.allowStarts == s.allowStarts
    requires s'.queue == s.queue || s'.queue == s.queue + [r]
    ensures Closing(s')
  {
    if q :| 0 <= q < |s.queue| && BulkAt(s.queue, q) {
      LongerQueue(s, r, q);
      assert BulkAt(s'.queue, q);
    }
  }

  lemma ClosingTake(s: Sys, f: TakeFaults, q: int)
    requires Shape(s) && Closing(s) && Enabled(s, Take(f)) && BulkAt(s.queue, q)
    ensures Closing(Next(s, Take(f))) && NothingNew(s, Next(s, Take(f)))
  {
    var rest := s.(queue := s.queue[1..]);
    if q == 0 {
      BulkStopTaken(s, rest, f);
    } else {
      assert BulkAt(rest.queue, q - 1) && !s.queue[0].StartSession?;
      if s.queue[0] == StopAllSessions {
        BulkStopTaken(s, rest, f);
      } else {
        StopTaken(s, rest, s.queue[0].name, f);
      }
    }
  }

  lemma ClosedTake(s: Sys, f: TakeFaults)
    requires Shape(s) && !s.allowStarts && Enabled(s, Take(f))
    ensures Closing(Next(s, Take(f))) && NothingNew(s, Next(s, Take(f)))
  {
    var rest := s.(queue := s.queue[1..]);
    match s.queue[0]
    case StartSession(name) => assert TakeStart(rest, name, f) == rest;
    case StopSession(name) => StopTaken(s, rest, name, f);
    case StopAllSessions => BulkStopTaken(s, rest, f);
  }

  lemma StopTaken(s: Sys, rest: Sys, name: string, f: TakeFaults)
    requires rest == s.(queue := rest.queue) && s.phase == Free
    ensures var s' := TakeStop(rest, name, f);
            NothingNew(s, s') && !s'.phase.AwaitStart? && s'.allowStarts == s.allowStarts && s'.queue == rest.queue
  {
  }

  lemma BulkStopTaken(s: Sys, rest: Sys, f: TakeFaults)
    requires rest == s.(queue := rest.queue) && s.phase == Free
    ensures var s' := TakeStopAll(rest, f); NothingNew(s, s') && s'.phase == Free && !s'.allowStarts
  {
    forall i | 0 <= i < |s.runners|
      ensures Halt(s.runners[i], HaltFault(f.halts, i)).driver.core ==> s.runners[i].driver.core
    {
      HaltLeavesUpExact(s.runners[i], HaltFault(f.halts, i));
    }
  }

  lemma ClosingWork(s: Sys, i: nat, start: StartFault, stop: StopFault, tx: TxFaults)
    requires Shape(s) && Closing(s) && Enabled(s, Work(i, start, stop, tx))
    ensures Closing(Next(s, Work(i, start, stop, tx))) && NothingNew(s, Next(s, Work(i, start, stop, tx)))
  {
    assert QueueOk(s, i) && s.runners[i].queue[0] in s.runners[i].queue;
    var r := s.runners[i].(queue := s.runners[i].queue[1..]);
    StuckStopFails(r, s.table, stop, tx);
    var (r', t, ok) := StopTask(r, s.table, stop, tx);
    assert Next(s, Work(i, start, stop, tx)) == StopDone(s, i, s.runners[i].queue[0].byManager, r', t, ok);
  }

  /** Then, until the service is restarted, no run at all, safe or not, attaches a session that is
      attached once a second time. */
  lemma {:induction false} ClosingNeverAttaches(s: Sys, es: seq<Event>)
    requires Shape(s) && Closing(s) && SingleAttachment(s) && IsRun(s, es)
    requires forall k :: 0 <= k < |es| ==> !es[k].Restart?
    ensures SingleAttachment(After(s, es))
    decreases |es|
  {
    if es != [] {
      ClosingStep(s, es[0]);
      NextKeepsShape(s, es[0]);
      ClosingNeverAttaches(Next(s, es[0]), es[1..]);
    }
  }

  // ---------------------------------------------------------------------------- across a restart

  /** A container of runner i outlives the process, and row k is its session. */
  predicate OrphanRow(s: Sys, removed: set<nat>, i: nat, k: nat)
    requires i < |s.runners| && k < |s.table|
  {
    Survives(s.runners[i].driver, i in removed) && s.table[k].id == s.runners[i].id
  }

  /** Exactly when a restart, at whatever moment it comes and whatever led there, lets a session that
      is attached once be attached twice: when some container outlives the process whose session is
      still in the table. So the third premise cannot be weakened. */
  lemma RestartExact(s0: Sys, es: seq<Event>, removed: set<nat>)
    requires Init(s0) && IsRun(s0, es) && SingleAttachment(After(s0, es))
    ensures var s := After(s0, es);
            CanAttachTwice(Next(s, Restart(removed))) <==>
            exists i, k :: 0 <= i < |s.runners| && 0 <= k < |s.table| && OrphanRow(s, removed, i, k)
  {
    var s := After(s0, es);
    var e := Restart(removed);
    RunSnoc(s0, es, e);
    RestartKeepsSingle(s, removed);
    AttachedTwiceExact(s0, es + [e]);
    RestartExposed(s, removed);
  }

  lemma RestartKeepsSingle(s: Sys, removed: set<nat>)
    requires SingleAttachment(s)
    ensures SingleAttachment(RestartStep(s, removed))
  {
    var s' := RestartStep(s, removed);
    assert forall i :: 0 <= i < |s.runners| ==> s'.runners[i].id == s.runners[i].id && (Live(s', i) ==> Live(s, i));
  }

  lemma RestartExposed(s: Sys, removed: set<nat>)
    ensures Exposed(RestartStep(s, removed)) <==>
            exists i, k :: 0 <= i < |s.runners| && 0 <= k < |s.table| && OrphanRow(s, removed, i, k)
  {
    var s' := RestartStep(s, removed);
    assert forall i, k :: 0 <= i < |s.runners| && 0 <= k < |s.table| ==>
             (Live(s', i) && OpenRow(s', i, k) <==> OrphanRow(s, removed, i, k));
  }

  lemma {:induction false} HarmlessIsSafe(s: Sys, es: seq<Event>)
    requires IsRun(s, es) && Harmless(es)
    ensures IsSafeRun(s, es)
    decreases |es|
  {
    if es != [] {
      HarmlessIsSafe(Next(s, es[0]), es[1..]);
    }
  }

  /** Taking up a bulk stop over the one loaded DOCKER session, and the restart after it. */
  lemma BulkStopOrphans(s: Sys, row: Session)
    requires s.table == [row] && s.active == map[row.name := 0] && s.phase == Free && s.queue == [StopAllSessions]
    requires |s.runners| == 1 && s.runners[0].driver.core && s.runners[0].driver.docker && s.runners[0].id == row.id
    ensures var s1 := Next(s, Take(TakeOk));
            var s2 := Next(s1, Restart({}));
            && !s1.allowStarts && s1.phase == Free
            && s2.table == [row.(state := Idle)] && s2.active == map[] && s2.queue == [] && s2.phase == Free
            && s2.allowStarts && |s2.runners| == 1 && s2.runners[0].driver.core && s2.runners[0].id == row.id
  {
    HaltLeavesUpExact(s.runners[0], StopWorks);
    assert 0 in s.active.Values by { assert s.active[row.name] == 0; }
    assert AllIdle([row]) == [row.(state := Idle)];
  }

  /** Loading the session and bulk-stopping it, all of it safe. */
  lemma LoadThenBulkStop(row: Session) returns (es: seq<Event>, s: Sys)
    requires RowOk(row) && row.state == Idle && row.driver == DOCKER
    ensures Init(Start(row)) && SafeLeads(Start(row), es, s) && Closing(s) && !s.allowStarts
    ensures var s' := Next(s, Restart({}));
            && s'.table == [row] && s'.active == map[] && s'.queue == [] && s'.phase == Free
            && s'.allowStarts && |s'.runners| == 1 && s'.runners[0].driver.core && s'.runners[0].id == row.id
  {
    var first := FirstStart(row, NoTxFaults);
    var ask, take := Ask(StopAllSessions), Take(TakeOk);
    var s1 := After(Start(row), first);
    var s2 := s1.(queue := [StopAllSessions]);
    assert Next(s1, ask) == s2 by { assert s1.queue + [StopAllSessions] == [StopAllSessions]; }
    RunSnoc(Start(row), first, ask);
    RunSnoc(Start(row), first + [ask], take);
    es, s := first + [ask] + [take], Next(s2, take);
    HarmlessIsSafe(Start(row), es);
    BulkStopOrphans(s2, row.(state := Ready));
  }

  /** A bulk stop, which is what the end of a manager's life is, makes every container such an orphan.
      For any DOCKER session: load it and bulk-stop it, all of it safe, so that until then nothing can
      be started any more; restart; load it again. */
  lemma BulkStopThenRestartAttachesTwice(row: Session) returns (es: seq<Event>, s: Sys, more: seq<Event>)
    requires RowOk(row) && row.state == Idle && row.driver == DOCKER
    ensures Init(Start(row)) && SafeLeads(Start(row), es, s) && Closing(s) && !Exposed(s)
    ensures var s' := Next(s, Restart({}));
            IsRun(s', more) && IsSafeRun(s', more) && !SingleAttachment(After(s', more))
  {
    es, s := LoadThenBulkStop(row);
    var s' := Next(s, Restart({}));
    SecondStart(s', row);
    more := LoadAgain(row.name);
    HarmlessIsSafe(s', more);
  }
}
