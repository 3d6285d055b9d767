/** The session driver: the core process with its three support daemons, and the working context
    of the current run. */
module SessionDriver {
  import opened Common

  /** The support tasks of one run: stdin copier, stdout copier, and the task that waits for the
      command and reports its end. */
  datatype Daemon = Input | Output | Waiter

  /** The calls a start makes, in order. */
  datatype StartStep = DropInput | OpenInput | OpenOutput | WritePreamble | Construct | Setup

  /** What a driver did to its collaborators, in order. `live` says whether the working context
      was still usable when the core was torn down. CoreLost: the core ended with the process that
      held it, or was removed behind the driver's back. */
  datatype Effect =
    | Did(step: StartStep)
    | CoreUp
    | TearDown(live: bool, ok: bool)
    | CancelRun
    | CoreDown
    | CoreLost
    | CancelParent

  /** `core` is the non-nil core pointer, `open` the working context (it dies with its parent).
      A DOCKER core is torn down by calls made on the working context; a PTY core by closing its
      `handle`, which can be done once. */
  datatype DriverRec = DriverRec(
    docker: bool, core: bool, open: bool, handle: bool, daemons: set<Daemon>, log: seq<Effect>)

  function NewDriver(docker: bool): DriverRec {
    DriverRec(docker, false, false, false, {}, [])
  }

  const AllDaemons: set<Daemon> := {Input, Output, Waiter}

  const StartSteps: seq<StartStep> := [DropInput, OpenInput, OpenOutput, WritePreamble, Construct, Setup]

  /** How many calls of a start come before this one. */
  function Before(step: StartStep): (n: nat)
    ensures n < |StartSteps| && StartSteps[n] == step
  {
    match step
    case DropInput => 0
    case OpenInput => 1
    case OpenOutput => 2
    case WritePreamble => 3
    case Construct => 4
    case Setup => 5
  }

  function Prepared(n: nat): (log: seq<Effect>)
    requires n <= |StartSteps|
    ensures |log| == n && forall k :: 0 <= k < n ==> log[k] == Did(StartSteps[k])
  {
    seq(n, i requires 0 <= i < n => Did(StartSteps[i]))
  }

  /** `consistencyInside`: the failing call's error chain holds a consistency error. */
  datatype StartFault = StartWorks | FailsAt(step: StartStep, consistencyInside: bool)

  datatype StartResult = Started | AlreadyRunning | StartFailed(consistencyInside: bool)

  /** TearDownFails: `atKill` when it gave up before it touched the PTY handle.
      Lingers: tear down worked, but these daemons did not end within the wait bound. */
  datatype StopFault = StopWorks | TearDownFails(atKill: bool) | Lingers(left: set<Daemon>)

  datatype StopResult = Stopped | NotRunning | StopFailed

  function DriverStart(d: DriverRec, parentLive: bool, f: StartFault): (DriverRec, StartResult) {
    if d.core then (d, AlreadyRunning)
    else if f.FailsAt? then
      (d.(open := false, log := d.log + Prepared(Before(f.step))), StartFailed(f.consistencyInside))
    else
      (DriverRec(d.docker, true, parentLive, true, d.daemons + AllDaemons,
                 d.log + Prepared(|StartSteps|) + [CoreUp]), Started)
  }

  /** Whether a tear down can work at all: not on a dead context, and not a second time. */
  predicate CanTearDown(d: DriverRec) {
    if d.docker then d.open else d.handle
  }

  function DriverStop(d: DriverRec, f: StopFault): (DriverRec, StopResult) {
    if !d.core then (d, NotRunning)
    else if !CanTearDown(d) || f.TearDownFails? then
      (d.(open := false, handle := d.handle && f.TearDownFails? && f.atKill,
          log := d.log + [TearDown(d.open, false), CancelRun]), StopFailed)
    else
      var log := d.log + [TearDown(d.open, true), CancelRun];
      match f
      case Lingers(left) => (DriverRec(d.docker, true, false, false, d.daemons * left, log), StopFailed)
      case _ => (DriverRec(d.docker, false, false, false, {}, log + [CoreDown]), Stopped)
  }

  /** Cancelling the parent context cancels the working context with it. */
  function ParentCancelled(d: DriverRec): DriverRec {
    d.(open := false, log := d.log + [CancelParent])
  }

  /** A DOCKER container runs on without the process that made it, unless it is removed. */
  predicate Survives(d: DriverRec, removed: bool) {
    d.core && d.docker && !removed
  }

  /** The process ends: every context, handle and daemon goes with it, and so does a PTY core. */
  function ProcessGone(d: DriverRec, removed: bool): DriverRec {
    var log := d.log + [CancelParent];
    DriverRec(d.docker, Survives(d, removed), false, false, {},
              if d.core && !Survives(d, removed) then log + [CoreLost] else log)
  }

  /** Consistency of a driver between calls: no daemon outlives the core pointer. */
  predicate DriverOk(d: DriverRec) {
    !d.core ==> d.daemons == {} && !d.open
  }

  // ---------------------------------------------------------------------------- order of effects

  /** The core is up at the end of the log. */
  predicate Up(log: seq<Effect>) {
    log != [] &&
    (log[|log|-1] == CoreUp || (log[|log|-1] != CoreDown && log[|log|-1] != CoreLost && Up(log[..|log|-1])))
  }

  /** A tear down has been attempted since the core last came up. */
  predicate Attempted(log: seq<Effect>) {
    log != [] && (log[|log|-1].TearDown? || (log[|log|-1] != CoreUp && Attempted(log[..|log|-1])))
  }

  /** The core went down at `k`: a tear down that worked came first, then its context was cancelled.
      It ran on a live context exactly when no earlier attempt of that run had failed and the
      parent context had not been cancelled. */
  predicate ClearedAt(log: seq<Effect>, k: int) {
    && 2 <= k < |log| && log[k] == CoreDown && log[k-1] == CancelRun && log[k-2].TearDown? && log[k-2].ok
    && Up(log[..k-2])
    && (log[k-2].live <==> !Attempted(log[..k-2]) && CancelParent !in log[..k-2])
  }

  predicate Cleared(log: seq<Effect>) {
    forall k :: 0 <= k < |log| && log[k] == CoreDown ==> ClearedAt(log, k)
  }

  /** Every tear down that cleared a core ran on a live context. */
  predicate ClearedLive(log: seq<Effect>) {
    forall k :: 2 <= k < |log| && log[k] == CoreDown ==> log[k-2].TearDown? && log[k-2].live
  }

  /** A tear down, whether or not it works, is followed by the cancellation of its context. */
  predicate TearDownsPaired(log: seq<Effect>) {
    forall k :: 0 <= k < |log| && log[k].TearDown? ==> k + 1 < |log| && log[k+1] == CancelRun
  }

  /** What every log keeps, whatever the driver's state. */
  predicate History(log: seq<Effect>, docker: bool) {
    Cleared(log) && (docker ==> ClearedLive(log))
  }

  /** What the log says of the driver. */
  predicate LogOk(d: DriverRec) {
    && TearDownsPaired(d.log)
    && (Up(d.log) <==> d.core)
    && (d.core ==> (d.open <==> !Attempted(d.log) && CancelParent !in d.log))
    && History(d.log, d.docker)
  }

  lemma LogSnoc(log: seq<Effect>, e: Effect)
    ensures Up(log + [e]) <==> e == CoreUp || (e != CoreDown && e != CoreLost && Up(log))
    ensures Attempted(log + [e]) <==> e.TearDown? || (e != CoreUp && Attempted(log))
  {
    assert (log + [e])[..|log|] == log;
  }

  /** What was cleared before stays cleared as it was. */
  lemma ClearedSnoc(log: seq<Effect>, e: Effect)
    requires Cleared(log) && (e == CoreDown ==> ClearedAt(log + [e], |log|))
    ensures Cleared(log + [e])
  {
    forall k | 0 <= k < |log| + 1 && (log + [e])[k] == CoreDown ensures ClearedAt(log + [e], k) {
      if k < |log| {
        assert ClearedAt(log, k) && (log + [e])[..k-2] == log[..k-2];
      }
    }
  }

  /** A call of the start leaves everything the log is asked about as it was. */
  predicate SameStory(log: seq<Effect>, log': seq<Effect>) {
    && (Up(log') <==> Up(log)) && (Attempted(log') <==> Attempted(log))
    && (Cleared(log) ==> Cleared(log')) && (ClearedLive(log) ==> ClearedLive(log'))
    && (CancelParent in log' <==> CancelParent in log)
  }

  lemma DidSnoc(log: seq<Effect>, step: StartStep)
    ensures SameStory(log, log + [Did(step)])
  {
    LogSnoc(log, Did(step));
    if Cleared(log) { ClearedSnoc(log, Did(step)); }
  }

  lemma {:induction false} PreparedLog(log: seq<Effect>, n: nat)
    requires n <= |StartSteps|
    ensures SameStory(log, log + Prepared(n))
  {
    if n == 0 {
      assert log + Prepared(0) == log;
    } else {
      PreparedLog(log, n - 1);
      DidSnoc(log + Prepared(n - 1), StartSteps[n-1]);
      assert log + Prepared(n) == log + Prepared(n - 1) + [Did(StartSteps[n-1])];
    }
  }

  lemma StartLogOk(d: DriverRec, parentLive: bool, f: StartFault)
    requires DriverOk(d) && LogOk(d) && (parentLive <==> CancelParent !in d.log)
    ensures LogOk(DriverStart(d, parentLive, f).0)
  {
    if !d.core {
      var n := if f.FailsAt? then Before(f.step) else |StartSteps|;
      PreparedLog(d.log, n);
      HistorySnoc(d.log + Prepared(n), CoreUp, d.docker);
    }
  }

  lemma HistorySnoc(log: seq<Effect>, e: Effect, docker: bool)
    requires History(log, docker) && e != CoreDown
    ensures History(log + [e], docker)
    ensures Up(log + [e]) <==> e == CoreUp || (e != CoreLost && Up(log))
    ensures Attempted(log + [e]) <==> e.TearDown? || (e != CoreUp && Attempted(log))
  {
    LogSnoc(log, e);
    ClearedSnoc(log, e);
  }

  /** A tear down and the cancellation after it, and the core gone when all went well. */
  lemma StopHistory(log: seq<Effect>, live: bool, ok: bool, docker: bool)
    requires History(log, docker) && Up(log) && (live <==> !Attempted(log) && CancelParent !in log)
    requires docker && ok ==> live
    ensures var log' := log + [TearDown(live, ok), CancelRun];
            History(log', docker) && Up(log') && Attempted(log')
    ensures ok ==> var log' := log + [TearDown(live, ok), CancelRun] + [CoreDown];
                   History(log', docker) && !Up(log')
  {
    var t := TearDown(live, ok);
    var log2, log3 := log + [t, CancelRun], log + [t, CancelRun] + [CoreDown];
    HistorySnoc(log, t, docker);
    HistorySnoc(log + [t], CancelRun, docker);
    assert log + [t] + [CancelRun] == log2;
    if ok {
      LogSnoc(log2, CoreDown);
      assert log3[..|log2|-2] == log;
      assert ClearedAt(log3, |log2|);
      ClearedSnoc(log2, CoreDown);
    }
  }

  lemma StopLogOk(d: DriverRec, f: StopFault)
    requires LogOk(d)
    ensures LogOk(DriverStop(d, f).0)
  {
    if d.core {
      StopHistory(d.log, d.open, CanTearDown(d) && !f.TearDownFails?, d.docker);
    }
  }

  lemma CancelLogOk(d: DriverRec)
    requires LogOk(d)
    ensures LogOk(ParentCancelled(d))
  {
    HistorySnoc(d.log, CancelParent, d.docker);
  }

  lemma ProcessGoneLogOk(d: DriverRec, removed: bool)
    requires LogOk(d)
    ensures LogOk(ProcessGone(d, removed))
  {
    HistorySnoc(d.log, CancelParent, d.docker);
    HistorySnoc(d.log + [CancelParent], CoreLost, d.docker);
  }

  // ---------------------------------------------------------------------------- imperative form

  class Driver {
    const docker: bool
    var core: bool
    var open: bool
    var handle: bool
    var wg: set<Daemon>
    ghost var log: seq<Effect>

    ghost function View(): DriverRec
      reads this
    {
      DriverRec(docker, core, open, handle, wg, log)
    }

    constructor (docker: bool)
      ensures View() == NewDriver(docker)
    {
      this.docker, core, open, handle, wg, log := docker, false, false, false, {}, [];
    }

    method Start(parentLive: bool, f: StartFault) returns (r: StartResult)
      modifies this
      ensures (View(), r) == DriverStart(old(View()), parentLive, f)
    {
      if core {
        return AlreadyRunning;
      }
      // a fresh working context for this run; each failing call cancels it and leaves core nil
      open := parentLive;
      for n := 0 to |StartSteps|
        invariant !core && open == parentLive && handle == old(handle) && wg == old(wg)
        invariant log == old(log) + Prepared(n)
        invariant f.FailsAt? ==> n <= Before(f.step)
      {
        if f.FailsAt? && f.step == StartSteps[n] {
          open := false;
          return StartFailed(f.consistencyInside);
        }
        log := log + [Did(StartSteps[n])];
        assert log == old(log) + Prepared(n + 1);
      }
      wg := wg + {Input};
      wg := wg + {Output};
      wg := wg + {Waiter};
      assert wg == old(wg) + AllDaemons;
      handle, core := true, true;
      log := log + [CoreUp];
      return Started;
    }

    method Stop(f: StopFault) returns (r: StopResult)
      modifies this
      ensures (View(), r) == DriverStop(old(View()), f)
    {
      if !core {
        return NotRunning;
      }
      // tear down first: a DOCKER core's runs on the working context, a PTY core's closes the handle
      var works := (if docker then open else handle) && !f.TearDownFails?;
      log := log + [TearDown(open, works)];
      handle := handle && f.TearDownFails? && f.atKill;
      open := false;
      log := log + [CancelRun];
      assert log == old(log) + [TearDown(old(open), works), CancelRun];
      if !works {
        return StopFailed;
      }
      if f.Lingers? {
        wg := wg * f.left;
        return StopFailed;
      }
      wg := {};
      core := false;
      log := log + [CoreDown];
      return Stopped;
    }

    method CancelParentContext()
      modifies this
      ensures View() == ParentCancelled(old(View()))
    {
      open := false;
      log := log + [CancelParent];
    }
  }
}

/** Stopping again after a stop has failed, for either kind of core. */
module StopRetries {
  import opened SessionDriver

  function AfterStops(d: DriverRec, faults: seq<StopFault>): DriverRec
    decreases |faults|
  {
    if faults == [] then d else AfterStops(DriverStop(d, faults[0]).0, faults[1..])
  }

  predicate AllFailed(d: DriverRec, faults: seq<StopFault>)
    decreases |faults|
  {
    faults == [] || (DriverStop(d, faults[0]).1 == StopFailed && AllFailed(DriverStop(d, faults[0]).0, faults[1..]))
  }

  /** The attempt gave up before it touched anything. */
  predicate DiedAtKill(f: StopFault) {
    f.TearDownFails? && f.atKill
  }

  lemma {:induction false} FailedKeepCore(d: DriverRec, faults: seq<StopFault>)
    requires d.core && AllFailed(d, faults)
    ensures AfterStops(d, faults).core
    decreases |faults|
  {
    if faults != [] {
      FailedKeepCore(DriverStop(d, faults[0]).0, faults[1..]);
    }
  }

  lemma {:induction false} StuckStays(d: DriverRec, faults: seq<StopFault>)
    requires d.core && !CanTearDown(d)
    ensures AfterStops(d, faults).core && !CanTearDown(AfterStops(d, faults))
    decreases |faults|
  {
    if faults != [] {
      StuckStays(DriverStop(d, faults[0]).0, faults[1..]);
    }
  }

  /** After failed stops of a core that could be torn down, a failure-free retry works exactly when
      the core is a PTY and every failed attempt died at the kill, or when there was none. */
  lemma {:induction false} RetryExact(d: DriverRec, faults: seq<StopFault>)
    requires d.core && CanTearDown(d) && AllFailed(d, faults)
    ensures DriverStop(AfterStops(d, faults), StopWorks).1 == Stopped <==>
            faults == [] || (!d.docker && forall f :: f in faults ==> DiedAtKill(f))
    decreases |faults|
  {
    if faults != [] {
      var d' := DriverStop(d, faults[0]).0;
      assert faults == [faults[0]] + faults[1..];
      if !d.docker && DiedAtKill(faults[0]) {
        RetryExact(d', faults[1..]);
      } else {
        StuckStays(d', faults[1..]);
      }
    }
  }

  /** A DOCKER core gets one attempt: the failed one has cancelled the context every later one needs. */
  lemma DockerGetsOneAttempt(d: DriverRec, faults: seq<StopFault>, f: StopFault)
    requires d.docker && d.core && faults != [] && AllFailed(d, faults)
    ensures DriverStop(AfterStops(d, faults), f).1 == StopFailed
  {
    StuckStays(DriverStop(d, faults[0]).0, faults[1..]);
  }
}

/** The PTY core driver's tear down in terms of its child process. */
module PtyCore {
  import opened SessionDriver
  import opened StopRetries

  /** One stop attempt: whether it finds the child reaped, which can happen between two attempts,
      and its failures: the kill, the close, and daemons outliving the wait. */
  datatype Attempt = Attempt(reaped: bool, killFails: bool, closeFails: bool, left: set<Daemon>)

  /** An attempt in which nothing goes wrong. */
  function Clean(reaped: bool): Attempt {
    Attempt(reaped, false, false, {})
  }

  /** What an attempt amounts to. A child that has been waited for is not signalled any more; a
      failed close gives the handle up all the same. */
  function Fault(a: Attempt): StopFault {
    if !a.reaped && a.killFails then TearDownFails(true)
    else if a.closeFails then TearDownFails(false)
    else if a.left != {} then Lingers(a.left)
    else StopWorks
  }

  function AsFaults(attempts: seq<Attempt>): (f: seq<StopFault>)
    ensures |f| == |attempts| && forall k :: 0 <= k < |f| ==> f[k] == Fault(attempts[k])
  {
    seq(|attempts|, i requires 0 <= i < |attempts| => Fault(attempts[i]))
  }

  /** After any number of failed stops of a running PTY session, a failure-free retry succeeds
      exactly when every failed attempt died at the kill. One attempt that reached the close, for
      instance one whose daemons merely outlived the wait, makes every later retry fail. */
  lemma PtyRetryExact(d: DriverRec, attempts: seq<Attempt>, reaped: bool)
    requires !d.docker && d.core && d.handle && AllFailed(d, AsFaults(attempts))
    ensures DriverStop(AfterStops(d, AsFaults(attempts)), Fault(Clean(reaped))).1 == Stopped
            <==> forall k :: 0 <= k < |attempts| ==> !attempts[k].reaped && attempts[k].killFails
  {
    var faults := AsFaults(attempts);
    RetryExact(d, faults);
    if forall k :: 0 <= k < |attempts| ==> !attempts[k].reaped && attempts[k].killFails {
      assert forall f :: f in faults ==> DiedAtKill(f);
    } else {
      var k :| 0 <= k < |attempts| && !(!attempts[k].reaped && attempts[k].killFails);
      assert faults[k] in faults && !DiedAtKill(faults[k]);
    }
  }

  lemma ClosedStaysStuck(d: DriverRec, attempts: seq<Attempt>, last: Attempt)
    requires !d.docker && d.core && !d.handle
    ensures DriverStop(AfterStops(d, AsFaults(attempts)), Fault(last)).1 == StopFailed
  {
    StuckStays(d, AsFaults(attempts));
  }
}
