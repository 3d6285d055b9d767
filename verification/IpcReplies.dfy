/** When a request can be answered: exactly when it is well formed and has not been lost. */
module IpcReplies {
  import opened Common
  import opened Commands
  import opened QueueNames
  import opened IpcProtocol
  import opened IpcSafety

  /** The messages the receive loop answers. */
  predicate Answerable(m: Message) {
    WellFormed(m) && (m.RunCommands? || m.StopSession?)
  }

  predicate Owes(l: Loop, id: string) {
    l == Awaiting(id) || (l.Replying? && l.reqId == id)
  }

  /** The loop is about to answer the request and has not been cancelled, or it has answered. */
  predicate OnItsWay(w: World, id: string) {
    (Owes(w.loop, id) && !w.cancelled) || Queue(w, RespQueueName(id)) != []
  }

  predicate Queued(w: World, k: nat)
    requires k < |w.clients|
  {
    exists x :: x in Requests(w) && x.msg == RunCommands(w.clients[k].reqId, w.clients[k].batch)
  }

  /** Some continuation lets the client take a reply. */
  ghost predicate CanTakeReply(w: World, k: nat) {
    exists es :: IsRun(w, es) && Enabled(After(w, es), TakeReply(k))
  }

  // ---------------------------------------------------------------------------- what is lost stays lost

  /** Neither the loop nor a reply queue nor the request queue holds anything that could become an
      answer to this request. */
  predicate NothingFor(w: World, id: string) {
    && !OnItsWay(w, id)
    && forall x :: x in Requests(w) ==> !(Answerable(x.msg) && x.msg.reqId == id)
  }

  predicate Lost(w: World, k: nat) {
    k < |w.clients| && w.clients[k].point != Fetched && NothingFor(w, w.clients[k].reqId)
  }

  lemma PopFindsNothing(w: World, submits: bool, id: string)
    requires NothingFor(w, id) && Requests(w) != []
    ensures NothingFor(PopStep(w, submits), id)
  {
    var w' := PopStep(w, submits);
    assert Requests(w)[0] in Requests(w);
    RequestsApart(w, w');
    assert Requests(w') == Requests(w)[1..];
  }

  lemma ReplyElsewhere(w: World, m: Message, id: string)
    requires NothingFor(w, id) && m.Response? && m.reqId != id
    ensures NothingFor(PushReply(w, m), id)
  {
    ReplyApart(w, PushReply(w, m), m.reqId);
  }

  lemma LoopFindsNothing(w: World, e: Event, id: string)
    requires LoopStep(e) && StepEnabled(w, e) && NothingFor(w, id)
    ensures NothingFor(Step(w, e), id)
  {
    match e
    case LoopPop(submits) => PopFindsNothing(w, submits, id);
    case LoopReply(works) => if works { ReplyElsewhere(w, Response(w.loop.reqId, w.loop.success), id); }
    case _ =>
  }

  lemma DroppedNothing(w: World, own: string, id: string)
    requires NothingFor(w, id)
    ensures NothingFor(Dropped(w, RespQueueName(own)), id)
  {
    ReplyApart(w, Dropped(w, RespQueueName(own)), own);
  }

  lemma PushedNothing(w: World, m: Message, id: string)
    requires NothingFor(w, id) && (Answerable(m) ==> m.reqId != id)
    ensures NothingFor(PushRequest(w, m), id)
  {
    var w' := PushRequest(w, m);
    RequestsApart(w, w');
    assert Requests(w') == Requests(w) + [Item(m, w.pushed)];
  }

  lemma ClientFindsNothing(w: World, e: Event, k: nat)
    requires IdsOk(w) && Lost(w, k) && Enabled(w, e) && ClientStep(e)
    ensures NothingFor(Next(w, e), w.clients[k].reqId)
  {
    var id := w.clients[k].reqId;
    match e
    case Arrive(_, _, _) => assert forall name :: Queue(Next(w, e), name) == Queue(w, name);
    case Push(i, works) =>
      DroppedNothing(w, w.clients[i].reqId, id);
      PushedNothing(w, RunCommands(w.clients[i].reqId, w.clients[i].batch), id);
    case TakeReply(i) => DroppedNothing(w, w.clients[i].reqId, id);
    case GiveUp(i) => DroppedNothing(w, w.clients[i].reqId, id);
    case Expire(i) => DroppedNothing(w, w.clients[i].reqId, id);
    case Inject(m) => PushedNothing(w, m, id);
  }

  lemma StrayFindsNothing(w: World, e: Event, k: nat)
    requires Lost(w, k) && Enabled(w, e) && e.Stray?
    ensures Lost(Next(w, e), k)
  {
    var v := SeenBy(w, e.j);
    LoopFindsNothing(v, e.step, w.clients[k].reqId);
    LoopStepKeeps(v, e.step);
    assert forall name :: Queue(Next(w, e), name) == Queue(Step(v, e.step), name);
  }

  lemma RunnerFindsNothing(w: World, e: Event, id: string)
    requires NothingFor(w, id) && Enabled(w, e) && !e.Stray? && !ClientStep(e) && !LoopStep(e)
    ensures NothingFor(Next(w, e), id)
  {
    if e.WorkerRun? {
      WorkerStepKeeps(w, e.works);
      WorkerLoop(w, e.works);
    }
    assert forall name :: Queue(Next(w, e), name) == Queue(w, name);
  }

  lemma LostStep(w: World, e: Event, k: nat)
    requires Inv(w) && Lost(w, k) && Enabled(w, e)
    ensures Lost(Next(w, e), k)
  {
    var id := w.clients[k].reqId;
    if e.Stray? {
      StrayFindsNothing(w, e, k);
    } else {
      NextFollows(w, e);
      if ClientStep(e) {
        ClientFindsNothing(w, e, k);
      } else if LoopStep(e) {
        LoopFindsNothing(w, e, id);
      } else {
        RunnerFindsNothing(w, e, id);
      }
      LostFollows(w, Next(w, e), k);
    }
  }

  lemma LostFollows(w: World, w': World, k: nat)
    requires Lost(w, k) && Follows(w, w') && NothingFor(w', w.clients[k].reqId)
    ensures Lost(w', k)
  {
  }

  lemma {:induction false} LostForever(w: World, es: seq<Event>, k: nat)
    requires Inv(w) && Lost(w, k) && IsRun(w, es)
    ensures Lost(After(w, es), k)
    decreases |es|
  {
    if es != [] {
      LostStep(w, es[0], k);
      NextKeepsInv(w, es[0]);
      LostForever(Next(w, es[0]), es[1..], k);
    }
  }

  // ---------------------------------------------------------------------------- what is queued can be answered

  predicate Brings(w: World, es: seq<Event>, w': World) {
    IsRun(w, es) && After(w, es) == w'
  }

  lemma BringsOne(w: World, e: Event)
    requires Enabled(w, e)
    ensures Brings(w, [e], Next(w, e))
  {
    assert [e][1..] == [];
  }

  lemma FirstApart(a: seq<Event>, b: seq<Event>)
    requires a != []
    ensures a == [a[0]] + a[1..] && a + b == [a[0]] + (a[1..] + b)
  {
  }

  lemma BringsStep(w: World, e: Event, rest: seq<Event>, w': World)
    requires Enabled(w, e)
    ensures Brings(w, [e] + rest, w') <==> Brings(Next(w, e), rest, w')
  {
    assert ([e] + rest)[1..] == rest;
  }

  lemma {:induction false} BringsFurther(w: World, a: seq<Event>, w': World, b: seq<Event>, w'': World)
    requires Brings(w, a, w') && Brings(w', b, w'')
    ensures Brings(w, a + b, w'')
    decreases |a|
  {
    if a == [] {
      assert a + b == b;
    } else {
      FirstApart(a, b);
      BringsStep(w, a[0], a[1..], w');
      BringsFurther(Next(w, a[0]), a[1..], w', b, w'');
      BringsStep(w, a[0], a[1..] + b, w'');
    }
  }

  /** Nobody cancels or replaces the runner, and no pop fails. */
  predicate Undisturbed(es: seq<Event>) {
    Cancel !in es && NewRunner !in es && LoopPopFails !in es
  }

  predicate TaskOf(t: WorkerTask, id: string) {
    (t.Write? || t.BringDown?) && t.reqId == id
  }

  /** A loop that waits, and has not been told to stop, waits for something the worker has. */
  predicate Waited(w: World) {
    w.loop.Awaiting? && !w.cancelled ==> exists t :: t in w.worker && TaskOf(t, w.loop.reqId)
  }

  lemma WaitedStep(w: World, e: Event)
    requires Waited(w) && Enabled(w, e)
    ensures Waited(Next(w, e))
  {
    var w' := Next(w, e);
    if e.Stray? {
      if e.step.LoopPop? { assert w'.worker == w.worker; }
    } else if LoopStep(e) {
      if e.LoopPop? { PopWaited(w, e.submits); }
    } else if e.WorkerRun? {
      RunWaited(w, e.works);
    } else if e.ManagerTask? {
      assert forall t :: t in w.worker ==> t in w'.worker;
    }
  }

  lemma PopWaited(w: World, submits: bool)
    requires Requests(w) != []
    ensures Waited(PopStep(w, submits))
  {
    var w' := PopStep(w, submits);
    if w'.loop.Awaiting? {
      assert TaskOf(w'.worker[|w.worker|], w'.loop.reqId);
    }
  }

  lemma RunWaited(w: World, works: bool)
    requires Waited(w) && w.worker != []
    ensures Waited(WorkerStep(w, works))
    ensures w.loop.Awaiting? && TaskOf(w.worker[0], w.loop.reqId) ==>
              WorkerStep(w, works).loop.Replying? && WorkerStep(w, works).loop.reqId == w.loop.reqId
  {
    assert w.worker == [w.worker[0]] + w.worker[1..];
    WorkerLoop(w, works);
  }

  lemma {:induction false} RunKeepsWaited(w: World, es: seq<Event>)
    requires Waited(w) && IsRun(w, es)
    ensures Waited(After(w, es))
    decreases |es|
  {
    if es != [] {
      WaitedStep(w, es[0]);
      RunKeepsWaited(Next(w, es[0]), es[1..]);
    }
  }

  /** The loop's own business: nobody's requests or replies are touched. */
  predicate SameMail(w: World, w': World) {
    w'.queues == w.queues && w'.clients == w.clients && w'.sessionId == w.sessionId
  }

  /** A waiting loop gets to answer, by its worker or because it has been told to stop. */
  lemma {:induction false} AwaitingAnswers(w: World) returns (es: seq<Event>, w': World)
    requires w.loop.Awaiting? && Waited(w)
    ensures Brings(w, es, w') && SameMail(w, w') && w'.cancelled == w.cancelled && Waited(w')
    ensures w'.loop.Replying? && w'.loop.reqId == w.loop.reqId
    ensures Undisturbed(es) && forall k :: 0 <= k < |es| ==> !es[k].LoopPop?
    decreases |w.worker|
  {
    var e := if w.cancelled then LoopGiveUp else WorkerRun(true);
    es, w' := [e], Next(w, e);
    BringsOne(w, e);
    if !w.cancelled {
      WorkerStepKeeps(w, true);
      WorkerLoop(w, true);
      RunWaited(w, true);
      if w'.loop.Awaiting? {
        var more, w'' := AwaitingAnswers(w');
        BringsFurther(w, es, w', more, w'');
        es, w' := es + more, w'';
      }
    }
  }

  /** How far a loop that is let run is from its next pop; an ended one has to be replaced first. */
  function ToPop(l: Loop): nat {
    match l
    case Popping => 0
    case Checking => 1
    case Opening => 2
    case Replying(_, _) => 2
    case Awaiting(_) => 3
    case Ended => 4
  }

  /** The loop can be brought to its next pop, without disturbing it if it has neither ended nor been
      cancelled. */
  lemma {:induction false} NextPop(w: World) returns (es: seq<Event>, w': World)
    requires Waited(w)
    ensures Brings(w, es, w') && SameMail(w, w') && w'.loop == Popping && !w'.cancelled && Waited(w')
    ensures !w.cancelled && w.loop != Ended ==> Undisturbed(es)
    decreases w.cancelled, ToPop(w.loop)
  {
    if w.loop == Popping && !w.cancelled {
      es, w' := [], w;
    } else {
      if w.loop.Awaiting? && !w.cancelled {
        es, w' := AwaitingAnswers(w);
      } else {
        var e := if w.cancelled || w.loop == Ended then NewRunner
                 else if w.loop == Opening then LoopOpen(true)
                 else if w.loop == Checking then LoopCheck
                 else LoopReply(false);
        es, w' := [e], Next(w, e);
        BringsOne(w, e);
      }
      var more, w'' := NextPop(w');
      BringsFurther(w, es, w', more, w'');
      es, w' := es + more, w'';
    }
  }

  /** The request at place `n` of the queue can be answered: the loop pops those before it first. */
  lemma {:induction false} QueuedAnswered(w: World, k: nat, n: nat) returns (es: seq<Event>, w': World)
    requires Waited(w) && k < |w.clients| && w.clients[k].point == Waiting && n < |Requests(w)|
    requires Requests(w)[n].msg == RunCommands(w.clients[k].reqId, w.clients[k].batch) && WellFormed(Requests(w)[n].msg)
    ensures Brings(w, es, w') && Enabled(w', TakeReply(k))
    ensures !w.cancelled && w.loop != Ended ==> Undisturbed(es)
    decreases n
  {
    var a, w1 := NextPop(w);
    var pop := LoopPop(false);
    var w2 := Next(w1, pop);
    BringsOne(w1, pop);
    BringsFurther(w, a, w1, [pop], w2);
    assert Requests(w2) == Requests(w)[1..] && w2.clients == w.clients;
    if n == 0 {
      var reply := LoopReply(true);
      BringsOne(w2, reply);
      w' := Next(w2, reply);
      BringsFurther(w, a + [pop], w2, [reply], w');
      es := a + [pop] + [reply];
    } else {
      PopWaited(w1, false);
      var more; more, w' := QueuedAnswered(w2, k, n - 1);
      BringsFurther(w, a + [pop], w2, more, w');
      es := a + [pop] + more;
    }
  }

  // ---------------------------------------------------------------------------- main results

  /** What is on its way to a client can be taken. */
  lemma OwedAnswered(w: World, k: nat) returns (es: seq<Event>)
    requires Waited(w) && k < |w.clients| && w.clients[k].point == Waiting && OnItsWay(w, w.clients[k].reqId)
    ensures IsRun(w, es) && Enabled(After(w, es), TakeReply(k))
  {
    if Queue(w, RespQueueName(w.clients[k].reqId)) != [] {
      es := [];
    } else {
      var w1; es, w1 := [], w;
      if w.loop.Awaiting? { es, w1 := AwaitingAnswers(w); }
      var reply := LoopReply(true);
      BringsOne(w1, reply);
      BringsFurther(w, es, w1, [reply], Next(w1, reply));
      es := es + [reply];
    }
  }

  /** Exactly when a waiting client can still get a reply, in any reachable world: an answer is on its
      way, or its request is still queued and its batch is non-empty and all valid. */
  lemma ReplyExact(w0: World, es: seq<Event>, k: nat)
    requires Init(w0) && IsRun(w0, es)
    requires k < |After(w0, es).clients| && After(w0, es).clients[k].point == Waiting
    ensures var w := After(w0, es);
            var c := w.clients[k];
            CanTakeReply(w, k) <==> OnItsWay(w, c.reqId) || (Queued(w, k) && c.batch != [] && AllValid(c.batch))
  {
    InitInv(w0);
    RunKeepsInv(w0, es);
    RunKeepsWaited(w0, es);
    var w := After(w0, es);
    var c := w.clients[k];
    if OnItsWay(w, c.reqId) {
      var more := OwedAnswered(w, k);
    } else if Queued(w, k) && c.batch != [] && AllValid(c.batch) {
      var n :| 0 <= n < |Requests(w)| && Requests(w)[n].msg == RunCommands(c.reqId, c.batch);
      var more, w' := QueuedAnswered(w, k, n);
    } else {
      NothingQueued(w, k);
      forall more | IsRun(w, more) ensures !Enabled(After(w, more), TakeReply(k)) {
        LostForever(w, more, k);
      }
    }
  }

  lemma NothingQueued(w: World, k: nat)
    requires Inv(w) && k < |w.clients| && w.clients[k].point == Waiting && !OnItsWay(w, w.clients[k].reqId)
    requires !(Queued(w, k) && w.clients[k].batch != [] && AllValid(w.clients[k].batch))
    ensures Lost(w, k)
  {
    forall x | x in Requests(w) ensures !(Answerable(x.msg) && x.msg.reqId == w.clients[k].reqId) {
      assert ItemOk(w, x);
    }
  }

  /** So a queued request can be answered if and only if its batch is non-empty and all valid; and if
      the loop has neither ended nor been cancelled, without anybody disturbing it. */
  lemma QueuedReplyExact(w0: World, es: seq<Event>, k: nat)
    requires Init(w0) && IsRun(w0, es)
    requires k < |After(w0, es).clients| && After(w0, es).clients[k].point == Waiting && Queued(After(w0, es), k)
    ensures var w := After(w0, es);
            var c := w.clients[k];
            && (CanTakeReply(w, k) <==> c.batch != [] && AllValid(c.batch))
            && (CanTakeReply(w, k) && !w.cancelled && w.loop != Ended ==>
                  exists more :: Undisturbed(more) && IsRun(w, more) && Enabled(After(w, more), TakeReply(k)))
  {
    ReplyExact(w0, es, k);
    InitInv(w0);
    RunKeepsInv(w0, es);
    RunKeepsWaited(w0, es);
    var w := After(w0, es);
    var c := w.clients[k];
    if c.batch != [] && AllValid(c.batch) {
      var n :| 0 <= n < |Requests(w)| && Requests(w)[n].msg == RunCommands(c.reqId, c.batch);
      assert IdsOk(w);
      var more, w' := QueuedAnswered(w, k, n);
    } else if OnItsWay(w, c.reqId) {
      OwedIsValid(w, k);
    }
  }

  /** What is on its way answers a batch that was found well formed. */
  lemma OwedIsValid(w: World, k: nat)
    requires Inv(w) && k < |w.clients| && OnItsWay(w, w.clients[k].reqId)
    ensures w.clients[k].batch != [] && AllValid(w.clients[k].batch)
  {
    var id := w.clients[k].reqId;
    if Queue(w, RespQueueName(id)) != [] {
      assert ReplyOk(w, id, Queue(w, RespQueueName(id))[0].msg);
    }
  }

  // ---------------------------------------------------------------------------- one message at a time

  /** Nothing is popped, and the runner is neither cancelled nor replaced. */
  predicate NoPops(es: seq<Event>) {
    Undisturbed(es) && forall k :: 0 <= k < |es| ==> !es[k].LoopPop?
  }

  /** Before its next pop the loop comes to answer this request. */
  ghost predicate ComesToAnswer(w: World, id: string) {
    exists es :: NoPops(es) && IsRun(w, es) && After(w, es).loop.Replying? && After(w, es).loop.reqId == id
  }

  predicate Idle(l: Loop) {
    l.Opening? || l.Checking? || l.Popping? || l.Ended?
  }

  lemma IdleStep(w: World, e: Event)
    requires Idle(w.loop) && Enabled(w, e) && !e.LoopPop?
    ensures Idle(Next(w, e).loop)
  {
    if e.WorkerRun? { WorkerLoop(w, e.works); }
  }

  lemma {:induction false} IdleStays(w: World, es: seq<Event>)
    requires Idle(w.loop) && IsRun(w, es) && forall k :: 0 <= k < |es| ==> !es[k].LoopPop?
    ensures Idle(After(w, es).loop)
    decreases |es|
  {
    if es != [] {
      IdleStep(w, es[0]);
      IdleStays(Next(w, es[0]), es[1..]);
    }
  }

  /** In every reachable world the loop comes to answer a message it pops, before it pops another and
      with nobody interfering, exactly when the message is a well-formed run or stop request, whether
      or not the worker takes the task; otherwise it answers nobody. */
  lemma PoppedAnsweredExact(w0: World, es: seq<Event>, submits: bool)
    requires Init(w0) && IsRun(w0, es) && Enabled(After(w0, es), LoopPop(submits))
    ensures var w := After(w0, es);
            var m, w1 := Requests(w)[0].msg, Next(w, LoopPop(submits));
            if Answerable(m) then ComesToAnswer(w1, m.reqId) else forall id :: !ComesToAnswer(w1, id)
  {
    RunKeepsWaited(w0, es);
    var w := After(w0, es);
    var m, w1 := Requests(w)[0].msg, Next(w, LoopPop(submits));
    PopWaited(w, submits);
    if Answerable(m) {
      var more, w2 := [], w1;
      if w1.loop.Awaiting? { more, w2 := AwaitingAnswers(w1); }
      assert NoPops(more);
    } else {
      forall more | NoPops(more) && IsRun(w1, more) ensures !After(w1, more).loop.Replying? {
        IdleStays(w1, more);
      }
    }
  }

  // ---------------------------------------------------------------------------- a batch that is dropped

  const TwoLetters: seq<InputCommand> := [InputCommand(CTRL, Some([97, 98]))]

  lemma TwoLettersInvalid()
    ensures !AllValid(TwoLetters)
  {
    assert !IsValid(TwoLetters[0]);
  }

  /** A client sends a CTRL command with two letters; the loop pops it and drops it. The client waits,
      nothing is queued, and nothing can ever answer it. */
  lemma TwoLettersDropped(w0: World, id: string) returns (es: seq<Event>)
    requires Init(w0) && id != ""
    ensures IsRun(w0, es)
    ensures var w := After(w0, es);
            && w.clients == [Client(id, TwoLetters, w0.pushed, Waiting)]
            && w.loop == Checking && !w.cancelled && Requests(w) == [] && !CanTakeReply(w, 0)
  {
    var arrive, push, pop := Arrive(id, TwoLetters, true), Push(0, true), LoopPop(true);
    var w1 := Next(w0, arrive);
    assert w1.clients == [Client(id, TwoLetters, 0, Fetched)] && Requests(w1) == [];
    BringsOne(w0, arrive);
    var w2 := Next(w1, push);
    assert w2.clients == [Client(id, TwoLetters, w0.pushed, Waiting)];
    assert Requests(w2) == [Item(RunCommands(id, TwoLetters), w0.pushed)];
    BringsOne(w1, push);
    BringsFurther(w0, [arrive], w1, [push], w2);
    var a, w3 := OpenAndCheck(w2);
    BringsFurther(w0, [arrive] + [push], w2, a, w3);
    TwoLettersInvalid();
    var w4 := Next(w3, pop);
    BringsOne(w3, pop);
    BringsFurther(w0, [arrive] + [push] + a, w3, [pop], w4);
    es := [arrive] + [push] + a + [pop];
    assert Requests(w4) == [];
    assert w4.clients[0].batch == TwoLetters;
    ReplyExact(w0, es, 0);
    NoReplyYet(w0, es, id);
  }

  lemma OpenAndCheck(w: World) returns (es: seq<Event>, w': World)
    requires w.loop == Opening && !w.cancelled
    ensures Brings(w, es, w') && w' == w.(loop := Popping)
  {
    var w1 := Next(w, LoopOpen(true));
    BringsOne(w, LoopOpen(true));
    BringsOne(w1, LoopCheck);
    w' := Next(w1, LoopCheck);
    BringsFurther(w, [LoopOpen(true)], w1, [LoopCheck], w');
    es := [LoopOpen(true)] + [LoopCheck];
  }

  /** An invalid batch has nothing on its way. */
  lemma NoReplyYet(w0: World, es: seq<Event>, id: string)
    requires Init(w0) && IsRun(w0, es) && |After(w0, es).clients| > 0
    requires After(w0, es).clients[0].reqId == id && !AllValid(After(w0, es).clients[0].batch)
    ensures !OnItsWay(After(w0, es), id)
  {
    InitInv(w0);
    RunKeepsInv(w0, es);
    if OnItsWay(After(w0, es), id) {
      OwedIsValid(After(w0, es), 0);
    }
  }
}
