/** The manager's lifecycle word under any number of concurrent Start and Stop calls, interleaved
    at every atomic access. */
module Lifecycle {
  import opened Common

  datatype Word = New | Running | Stopped

  /** Program points of one call.
      Start: the first compare-and-swap; the load that tells the two refusals apart; the table
      reset and worker start; the roll back compare-and-swap; the store that allows new sessions.
      Stop: the two compare-and-swaps; the tear down, which clears the flag only if the bulk stop it
      submits is taken up. */
  datatype Point =
    | StartCas | StartRefused | StartWork | StartRollback | StartAllow | StartDone(ok: bool)
    | StopCas | StopNewCas | TearDown | StopDone(first: bool, second: bool)

  /** `late`: some Stop had returned when this call began. */
  datatype Call = Call(point: Point, late: bool)

  /** `lost`: some Stop's second compare-and-swap found the word RUNNING. */
  datatype World = World(word: Word, allow: bool, calls: seq<Call>, tearDowns: nat, lost: bool)

  datatype Event =
    | Begin(isStart: bool)
    | Go(k: nat, works: bool)

  predicate StopReturned(w: World) {
    exists k :: 0 <= k < |w.calls| && w.calls[k].point.StopDone?
  }

  const Fresh: World := World(New, false, [], 0, false)

  /** One atomic access of a call. `works` is the outcome of the work between accesses. */
  function Advance(w: World, p: Point, works: bool): (World, Point) {
    match p
    case StartCas => if w.word == New then (w.(word := Running), StartWork) else (w, StartRefused)
    case StartRefused => (w, StartDone(false))
    case StartWork => (w, if works then StartAllow else StartRollback)
    case StartRollback => (if w.word == Running then w.(word := New) else w, StartDone(false))
    case StartAllow => (w.(allow := true), StartDone(true))
    case StopCas =>
      if w.word == Running then (w.(word := Stopped), TearDown) else (w, StopNewCas)
    case StopNewCas =>
      (w.(word := if w.word == New then Stopped else w.word, lost := w.lost || w.word == Running),
       StopDone(false, w.word == New))
    case TearDown =>
      (w.(allow := if works then false else w.allow, tearDowns := w.tearDowns + 1), StopDone(true, false))
    case StartDone(_) => (w, p)
    case StopDone(_, _) => (w, p)
  }

  function Next(w: World, e: Event): World {
    match e
    case Begin(isStart) =>
      w.(calls := w.calls + [Call(if isStart then StartCas else StopCas, StopReturned(w))])
    case Go(k, works) =>
      if k >= |w.calls| then w
      else
        var (w', p) := Advance(w, w.calls[k].point, works);
        w'.(calls := w.calls[k := w.calls[k].(point := p)])
  }

  function After(w: World, es: seq<Event>): World
    decreases |es|
  {
    if es == [] then w else After(Next(w, es[0]), es[1..])
  }

  // ---------------------------------------------------------------------------- the invariant

  /** A Start that moved the word to RUNNING and has neither returned nor rolled back. */
  predicate Owns(p: Point) {
    p.StartWork? || p.StartRollback? || p.StartAllow?
  }

  predicate Holds(p: Point) {
    Owns(p) || p == StartDone(true)
  }

  /** A Stop that moved the word to STOPPED from RUNNING. */
  predicate TookOver(p: Point) {
    p.TearDown? || (p.StopDone? && p.first)
  }

  /** At most one Start ever gets past the word, and none while the word is NEW. */
  predicate HoldInv(w: World) {
    && (forall i, j :: 0 <= i < j < |w.calls| ==> !(Holds(w.calls[i].point) && Holds(w.calls[j].point)))
    && (w.word == New ==> forall i :: 0 <= i < |w.calls| ==> !Holds(w.calls[i].point))
  }

  /** At most one Stop takes the word over, and only it tears down. */
  predicate StopInv(w: World) {
    && (forall i :: 0 <= i < |w.calls| && TookOver(w.calls[i].point) ==> w.word == Stopped)
    && (forall i, j :: 0 <= i < j < |w.calls| ==> !(TookOver(w.calls[i].point) && TookOver(w.calls[j].point)))
    && w.tearDowns <= 1
    && (w.tearDowns == 1 ==> exists i :: 0 <= i < |w.calls| && w.calls[i].point == StopDone(true, false))
  }

  /** A returned Stop left the word STOPPED unless it lost its race. */
  predicate LateInv(w: World) {
    && (StopReturned(w) && !w.lost ==> w.word == Stopped)
    && (forall i :: 0 <= i < |w.calls| && w.calls[i].late ==> StopReturned(w))
    && (forall i :: 0 <= i < |w.calls| && w.calls[i].late && !w.lost ==> !Holds(w.calls[i].point))
  }

  predicate Inv(w: World) {
    HoldInv(w) && StopInv(w) && LateInv(w)
  }

  /** A returned Stop stays returned. */
  lemma ReturnedStays(w: World, e: Event)
    requires StopReturned(w)
    ensures StopReturned(Next(w, e))
  {
    var i :| 0 <= i < |w.calls| && w.calls[i].point.StopDone?;
    assert Next(w, e).calls[i].point.StopDone?;
  }

  lemma HoldKept(w: World, k: nat, works: bool)
    requires HoldInv(w) && k < |w.calls|
    ensures HoldInv(Next(w, Go(k, works)))
  {
    var w' := Next(w, Go(k, works));
    assert forall i :: 0 <= i < |w.calls| && i != k ==> w'.calls[i] == w.calls[i];
  }

  lemma StopKept(w: World, k: nat, works: bool)
    requires StopInv(w) && k < |w.calls|
    ensures StopInv(Next(w, Go(k, works)))
  {
    var w' := Next(w, Go(k, works));
    assert forall i :: 0 <= i < |w.calls| && i != k ==> w'.calls[i] == w.calls[i];
    if w.tearDowns == 1 {
      var i :| 0 <= i < |w.calls| && w.calls[i].point == StopDone(true, false);
      assert w'.calls[i].point == StopDone(true, false) && TookOver(w.calls[i].point);
    }
    if w.calls[k].point == TearDown {
      assert TookOver(w.calls[k].point) && w'.calls[k].point == StopDone(true, false);
    }
  }

  lemma LateKept(w: World, k: nat, works: bool)
    requires LateInv(w) && StopInv(w) && k < |w.calls|
    ensures LateInv(Next(w, Go(k, works)))
  {
    var w' := Next(w, Go(k, works));
    assert forall i :: 0 <= i < |w.calls| && i != k ==> w'.calls[i] == w.calls[i];
    assert w'.calls[k].late == w.calls[k].late;
    if StopReturned(w) {
      ReturnedStays(w, Go(k, works));
    } else if StopReturned(w') {
      assert w'.calls[k].point.StopDone? && !w.calls[k].point.StopDone?;
      assert TookOver(w.calls[k].point) || w.calls[k].point == StopNewCas;
    }
  }

  lemma BeginKept(w: World, isStart: bool)
    requires Inv(w)
    ensures Inv(Next(w, Begin(isStart)))
  {
    var w', n := Next(w, Begin(isStart)), |w.calls|;
    assert forall i :: 0 <= i < n ==> w'.calls[i] == w.calls[i];
    assert !Holds(w'.calls[n].point) && !TookOver(w'.calls[n].point);
    if StopReturned(w) { ReturnedStays(w, Begin(isStart)); }
    if StopReturned(w') {
      var i :| 0 <= i < |w'.calls| && w'.calls[i].point.StopDone?;
      assert w.calls[i].point.StopDone?;
    }
    if w.tearDowns == 1 {
      var i :| 0 <= i < n && w.calls[i].point == StopDone(true, false);
      assert w'.calls[i].point == StopDone(true, false);
    }
  }

  lemma NextKeepsInv(w: World, e: Event)
    requires Inv(w)
    ensures Inv(Next(w, e))
  {
    match e
    case Begin(isStart) => BeginKept(w, isStart);
    case Go(k, works) =>
      if k < |w.calls| {
        HoldKept(w, k, works);
        StopKept(w, k, works);
        LateKept(w, k, works);
      }
  }

  lemma {:induction false} RunKeepsInv(w: World, es: seq<Event>)
    requires Inv(w)
    ensures Inv(After(w, es))
    decreases |es|
  {
    if es != [] {
      NextKeepsInv(w, es[0]);
      RunKeepsInv(Next(w, es[0]), es[1..]);
    }
  }

  // ---------------------------------------------------------------------------- results

  /** STOPPED is absorbing: no call, and in particular no failing Start, ever overwrites it. */
  lemma {:induction false} StoppedIsForever(w: World, es: seq<Event>)
    requires w.word == Stopped
    ensures After(w, es).word == Stopped
    decreases |es|
  {
    if es != [] {
      StoppedIsForever(Next(w, es[0]), es[1..]);
    }
  }

  /** In every run at most one Start returns success and the tear down body runs at most once. */
  lemma AtMostOneSuccess(es: seq<Event>)
    ensures var w := After(Fresh, es);
            && w.tearDowns <= 1
            && forall i, j :: 0 <= i < j < |w.calls| ==>
                 !(w.calls[i].point == StartDone(true) && w.calls[j].point == StartDone(true))
  {
    RunKeepsInv(Fresh, es);
  }

  /** As long as no Stop's second compare-and-swap has met RUNNING, a returned Stop means STOPPED,
      and no Start that began after a returned Stop succeeds. */
  lemma NoStartAfterStop(es: seq<Event>)
    ensures var w := After(Fresh, es);
            !w.lost ==> (StopReturned(w) ==> w.word == Stopped) && !LateSuccess(w)
  {
    RunKeepsInv(Fresh, es);
  }

  predicate LateSuccess(w: World) {
    exists k :: 0 <= k < |w.calls| && w.calls[k].late && w.calls[k].point == StartDone(true)
  }

  /** Some Start that begins, or began, after a returned Stop can still come to succeed: the word
      is NEW again, or the Start that holds RUNNING may yet fail and roll it back, or a late Start
      is already past the word. */
  predicate Exposed(w: World) {
    || w.word == New
    || (w.word == Running &&
        exists k :: 0 <= k < |w.calls| && (w.calls[k].point == StartWork || w.calls[k].point == StartRollback))
    || (exists k :: 0 <= k < |w.calls| && w.calls[k].late &&
          (w.calls[k].point == StartWork || w.calls[k].point == StartAllow || w.calls[k].point == StartDone(true)))
  }

  /** Every word but NEW is held or stopped. */
  predicate Guarded(w: World) {
    w.word == Running ==> exists i :: 0 <= i < |w.calls| && Holds(w.calls[i].point)
  }

  lemma GuardedKept(w: World, e: Event)
    requires Guarded(w) && HoldInv(w)
    ensures Guarded(Next(w, e))
  {
    var w' := Next(w, e);
    if w'.word == Running {
      if w.word == Running {
        var i :| 0 <= i < |w.calls| && Holds(w.calls[i].point);
        assert Holds(w'.calls[i].point);
      } else {
        assert Holds(w'.calls[e.k].point);
      }
    }
  }

  lemma {:induction false} RunKeepsGuarded(w: World, es: seq<Event>)
    requires Guarded(w) && Inv(w)
    ensures Guarded(After(w, es))
    decreases |es|
  {
    if es != [] {
      GuardedKept(w, es[0]);
      NextKeepsInv(w, es[0]);
      RunKeepsGuarded(Next(w, es[0]), es[1..]);
    }
  }

  lemma UnexposedKept(w: World, e: Event)
    requires Inv(w) && Guarded(w) && StopReturned(w) && !Exposed(w)
    ensures !Exposed(Next(w, e))
  {
    var w' := Next(w, e);
    match e
    case Begin(_) =>
      forall i | 0 <= i < |w'.calls| ensures i < |w.calls| ==> w'.calls[i] == w.calls[i] {
      }
    case Go(k, works) =>
      if k < |w.calls| {
        assert forall i :: 0 <= i < |w.calls| && i != k ==> w'.calls[i] == w.calls[i];
        assert w'.calls[k].late == w.calls[k].late;
      }
  }

  lemma {:induction false} UnexposedForever(w: World, es: seq<Event>)
    requires Inv(w) && Guarded(w) && StopReturned(w) && !Exposed(w)
    ensures !LateSuccess(After(w, es))
    decreases |es|
  {
    if es != [] {
      NextKeepsInv(w, es[0]);
      GuardedKept(w, es[0]);
      UnexposedKept(w, es[0]);
      ReturnedStays(w, es[0]);
      UnexposedForever(Next(w, es[0]), es[1..]);
    }
  }

  lemma {:induction false} AfterAppend(w: World, a: seq<Event>, b: seq<Event>)
    ensures After(w, a + b) == After(After(w, a), b)
    decreases |a|
  {
    if a == [] {
      assert a + b == b;
    } else {
      AfterAppend(Next(w, a[0]), a[1..], b);
      assert (a + b)[1..] == a[1..] + b;
    }
  }

  lemma After1(w: World, e: Event)
    ensures After(w, [e]) == Next(w, e)
  {
    assert [e][1..] == [];
  }

  lemma After2(w: World, e: Event, f: Event)
    ensures After(w, [e, f]) == Next(Next(w, e), f)
  {
    assert [e, f][1..] == [f];
    After1(Next(w, e), f);
  }

  /** Over a NEW word, a Start that begins now and meets no trouble succeeds. */
  lemma LateStartSucceeds(w: World) returns (es: seq<Event>)
    requires w.word == New && StopReturned(w)
    ensures LateSuccess(After(w, es))
  {
    var n := |w.calls|;
    var go := Go(n, true);
    var w2 := Next(Next(w, Begin(true)), go);
    assert w2.calls[n] == Call(StartWork, true);
    var w4 := Next(Next(w2, go), go);
    assert w4.calls[n] == Call(StartDone(true), true);
    After2(w, Begin(true), go);
    After2(w2, go, go);
    AfterAppend(w, [Begin(true), go], [go, go]);
    es := [Begin(true), go] + [go, go];
  }

  /** A Start that has not failed yet and is past the word can go on to return success. */
  lemma HolderSucceeds(w: World, k: nat) returns (es: seq<Event>)
    requires k < |w.calls| && (w.calls[k].point == StartWork || w.calls[k].point == StartAllow)
    ensures var w' := After(w, es);
            |w'.calls| == |w.calls| && w'.calls[k] == w.calls[k].(point := StartDone(true)) && w'.allow
  {
    var go := Go(k, true);
    if w.calls[k].point == StartAllow {
      After1(w, go);
      es := [go];
    } else {
      After2(w, go, go);
      es := [go, go];
    }
  }

  /** A Start that holds RUNNING and fails puts the word back to NEW. */
  lemma HolderFails(w: World, k: nat) returns (es: seq<Event>)
    requires k < |w.calls| && w.word == Running && StopReturned(w)
    requires w.calls[k].point == StartWork || w.calls[k].point == StartRollback
    ensures After(w, es).word == New && StopReturned(After(w, es))
  {
    var fail, go := Go(k, false), Go(k, true);
    if w.calls[k].point == StartRollback {
      After1(w, go);
      ReturnedStays(w, go);
      es := [go];
    } else {
      After2(w, fail, go);
      ReturnedStays(w, fail);
      ReturnedStays(Next(w, fail), go);
      es := [fail, go];
    }
  }

  lemma ExposedCanSucceed(w: World) returns (es: seq<Event>)
    requires StopReturned(w) && Exposed(w)
    ensures LateSuccess(After(w, es))
  {
    if w.word == New {
      es := LateStartSucceeds(w);
    } else if k :| 0 <= k < |w.calls| && w.calls[k].late && w.calls[k].point == StartDone(true) {
      es := [];
    } else if k :| 0 <= k < |w.calls| && w.calls[k].late
                   && (w.calls[k].point == StartWork || w.calls[k].point == StartAllow) {
      es := HolderSucceeds(w, k);
      assert After(w, es).calls[k].late;
    } else {
      var k :| 0 <= k < |w.calls| && (w.calls[k].point == StartWork || w.calls[k].point == StartRollback);
      var fail := HolderFails(w, k);
      var more := LateStartSucceeds(After(w, fail));
      AfterAppend(w, fail, more);
      es := fail + more;
    }
  }

  /** Some continuation ends with a Start that succeeded although it began after a returned Stop. */
  ghost predicate LateStartCanSucceed(w: World) {
    exists more :: LateSuccess(After(w, more))
  }

  /** Exactly when a returned Stop is no longer a promise. In any reachable state in which some
      Stop has returned, a Start begun after it can come to succeed if and only if the state is
      exposed; the word being STOPPED with no late Start past it is never exposed. */
  lemma LateStartExact(es: seq<Event>)
    requires StopReturned(After(Fresh, es))
    ensures LateStartCanSucceed(After(Fresh, es)) <==> Exposed(After(Fresh, es))
  {
    RunKeepsInv(Fresh, es);
    RunKeepsGuarded(Fresh, es);
    var w := After(Fresh, es);
    if Exposed(w) {
      var more := ExposedCanSucceed(w);
      assert LateSuccess(After(w, more));
    } else {
      forall more ensures !LateSuccess(After(w, more)) {
        UnexposedForever(w, more);
      }
    }
  }

  /** The race is real: a Stop reads NEW, a Start overtakes it, the Stop's second compare-and-swap
      meets RUNNING and it returns. Whatever promise a returned Stop makes, this state breaks it. */
  lemma ExposedIsReachable() returns (es: seq<Event>)
    ensures var w := After(Fresh, es);
            StopReturned(w) && w.lost && w.word == Running && Exposed(w)
  {
    var w2 := Next(Next(Fresh, Begin(false)), Begin(true));
    After2(Fresh, Begin(false), Begin(true));
    var w4 := Next(Next(w2, Go(0, true)), Go(1, true));
    After2(w2, Go(0, true), Go(1, true));
    var w5 := Next(w4, Go(0, true));
    After1(w4, Go(0, true));
    assert w5.calls[0].point == StopDone(false, false) && w5.calls[1].point == StartWork;
    AfterAppend(Fresh, [Begin(false), Begin(true)], [Go(0, true), Go(1, true)]);
    AfterAppend(Fresh, [Begin(false), Begin(true)] + [Go(0, true), Go(1, true)], [Go(0, true)]);
    es := [Begin(false), Begin(true)] + [Go(0, true), Go(1, true)] + [Go(0, true)];
  }

  /** A Start is still on its way to the store that allows new sessions. */
  predicate Pending(w: World) {
    exists k :: 0 <= k < |w.calls| && (w.calls[k].point == StartWork || w.calls[k].point == StartAllow)
  }

  lemma {:induction false} NotPendingForever(w: World, es: seq<Event>)
    requires w.word == Stopped && !w.allow && !Pending(w)
    ensures !After(w, es).allow
    decreases |es|
  {
    if es != [] {
      var w' := Next(w, es[0]);
      if es[0].Go? && es[0].k < |w.calls| {
        assert forall i :: 0 <= i < |w.calls| && i != es[0].k ==> w'.calls[i] == w.calls[i];
      } else if es[0].Begin? {
        assert forall i :: 0 <= i < |w.calls| ==> w'.calls[i] == w.calls[i];
      }
      NotPendingForever(w', es[1..]);
    }
  }

  ghost predicate CanReopen(w: World) {
    exists es :: After(w, es).allow
  }

  ghost predicate CanClose(w: World) {
    exists es :: !After(w, es).allow
  }

  /** The one Stop that tears down has yet to. */
  predicate TearingDown(w: World) {
    exists k :: 0 <= k < |w.calls| && w.calls[k].point == TearDown
  }

  lemma {:induction false} StaysAllowed(w: World, es: seq<Event>)
    requires w.word == Stopped && w.allow && !TearingDown(w)
    ensures After(w, es).allow
    decreases |es|
  {
    if es != [] {
      var w' := Next(w, es[0]);
      if es[0].Go? && es[0].k < |w.calls| {
        assert forall i :: 0 <= i < |w.calls| && i != es[0].k ==> w'.calls[i] == w.calls[i];
      } else if es[0].Begin? {
        assert forall i :: 0 <= i < |w.calls| ==> w'.calls[i] == w.calls[i];
      }
      StaysAllowed(w', es[1..]);
    }
  }

  /** Once the word is STOPPED, starts can be allowed from some point on exactly if they are or some
      Start still runs, and refused exactly if they are or the tear down is still to come. So a tear
      down that clears the flag need not keep it cleared, and one whose bulk stop is not taken up
      leaves it set for good. */
  lemma ReopenedExact(w: World)
    requires w.word == Stopped
    ensures CanReopen(w) <==> w.allow || Pending(w)
    ensures CanClose(w) <==> !w.allow || TearingDown(w)
  {
    assert After(w, []) == w;
    if k :| 0 <= k < |w.calls| && (w.calls[k].point == StartWork || w.calls[k].point == StartAllow) {
      var es := HolderSucceeds(w, k);
      assert After(w, es).allow;
    } else if !w.allow {
      forall es ensures !After(w, es).allow {
        NotPendingForever(w, es);
      }
    }
    if k :| 0 <= k < |w.calls| && w.calls[k].point == TearDown {
      After1(w, Go(k, true));
      assert !After(w, [Go(k, true)]).allow;
    } else if w.allow {
      forall es ensures After(w, es).allow {
        StaysAllowed(w, es);
      }
    }
  }
}
