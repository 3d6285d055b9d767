/** Submitting commands to a session: many clients, one runner at a time. A client pushes a request and waits
    on a reply queue named after its request id; the runner's loop takes one request at a time,
    has the worker write it to the input buffer, and pushes a reply. The reply's own request id is
    never looked at by the client. */
module IpcProtocol {
  import opened Common
  import opened Commands
  import opened QueueNames

  datatype Message =
    | RunCommands(reqId: string, batch: seq<InputCommand>)
    | StopSession(reqId: string, blocking: bool)
    | Response(reqId: string, success: bool)
    | Malformed

  /** `ticket` numbers what is pushed on the request queue. */
  datatype Item = Item(msg: Message, ticket: nat)

  datatype Verdict = Accepted | Refused | NoReply | NotReady

  datatype ClientPoint = Fetched | Waiting | Done(verdict: Verdict)

  datatype Client = Client(reqId: string, batch: seq<InputCommand>, ticket: nat, point: ClientPoint)

  /** Opening: the queue handle is not there yet. Checking: about to look at the runner's context.
      Popping: blocked on the request queue. */
  datatype Loop =
    | Opening
    | Checking
    | Popping
    | Awaiting(reqId: string)
    | Replying(reqId: string, success: bool)
    | Ended

  datatype WorkerTask =
    | Write(reqId: string, batch: seq<InputCommand>, ticket: nat)
    | BringDown(reqId: string)
    | BringUp(commanded: bool)

  /** A batch written to the input buffer, and the driver start it was written under. */
  datatype Entry = Entry(reqId: string, batch: seq<InputCommand>, ticket: nat, epoch: nat, ready: bool, commanded: bool)

  /** `strays` are the loops of runners that were cancelled and replaced before their loop ended. */
  datatype World = World(
    sessionId: string,
    queues: map<string, seq<Item>>,
    clients: seq<Client>,
    used: set<string>,
    pushed: nat,
    loop: Loop,
    cancelled: bool,
    strays: seq<Loop>,
    worker: seq<WorkerTask>,
    ready: bool,
    commanded: bool,
    epoch: nat,
    input: seq<byte>,
    log: seq<Entry>)

  datatype Event =
    | Arrive(reqId: string, batch: seq<InputCommand>, sawReady: bool)
    | Push(k: nat, works: bool)
    | TakeReply(k: nat)
    | GiveUp(k: nat)
    | Expire(k: nat)
    | Inject(msg: Message)
    | LoopOpen(works: bool)
    | LoopCheck
    | LoopPop(submits: bool)
    | LoopPopNothing
    | LoopPopFails
    | LoopGiveUp
    | LoopReply(works: bool)
    | Cancel
    | NewRunner
    | ManagerTask(task: WorkerTask)
    | WorkerRun(works: bool)
    | Stray(j: nat, step: Event)

  predicate LoopStep(e: Event) {
    e.LoopOpen? || e.LoopCheck? || e.LoopPop? || e.LoopPopNothing? || e.LoopPopFails? || e.LoopGiveUp? || e.LoopReply?
  }

  /** The world as a stray loop sees it: its own runner is cancelled. */
  function SeenBy(w: World, j: nat): World
    requires j < |w.strays|
  {
    w.(loop := w.strays[j], cancelled := true)
  }

  function Queue(w: World, name: string): seq<Item> {
    if name in w.queues then w.queues[name] else []
  }

  function WithQueue(w: World, name: string, q: seq<Item>): World {
    w.(queues := w.queues[name := q])
  }

  function Dropped(w: World, name: string): World {
    w.(queues := w.queues - {name})
  }

  function Requests(w: World): seq<Item> {
    Queue(w, IpcQueueName(w.sessionId))
  }

  /** What parsing and validating a message lets through. */
  predicate WellFormed(m: Message) {
    match m
    case RunCommands(id, batch) => id != "" && batch != [] && AllValid(batch)
    case StopSession(id, _) => id != ""
    case Response(id, _) => id != ""
    case Malformed => false
  }

  function PushRequest(w: World, m: Message): World {
    WithQueue(w, IpcQueueName(w.sessionId), Requests(w) + [Item(m, w.pushed)]).(pushed := w.pushed + 1)
  }

  function Finish(w: World, k: nat, v: Verdict): World
    requires k < |w.clients|
  {
    Dropped(w, RespQueueName(w.clients[k].reqId)).(clients := w.clients[k := w.clients[k].(point := Done(v))])
  }

  function PushReply(w: World, m: Message): World
    requires m.Response?
  {
    WithQueue(w, RespQueueName(m.reqId), Queue(w, RespQueueName(m.reqId)) + [Item(m, 0)])
  }

  /** One message through the receive loop. `submits`: the worker takes the task it asks for. */
  function PopStep(w: World, submits: bool): World
    requires Requests(w) != []
  {
    var item := Requests(w)[0];
    var w' := WithQueue(w, IpcQueueName(w.sessionId), Requests(w)[1..]);
    if !WellFormed(item.msg) || item.msg.Response? then w'.(loop := Checking)
    else if !submits then w'.(loop := Replying(item.msg.reqId, false))
    else if item.msg.RunCommands? then
      w'.(worker := w.worker + [Write(item.msg.reqId, item.msg.batch, item.ticket)], loop := Awaiting(item.msg.reqId))
    else
      w'.(worker := w.worker + [BringDown(item.msg.reqId)],
          loop := if item.msg.blocking then Awaiting(item.msg.reqId) else Replying(item.msg.reqId, true))
  }

  /** The reply a finished task of this request makes the loop send. */
  function Answer(w: World, reqId: string, success: bool): World {
    if w.loop == Awaiting(reqId) then w.(loop := Replying(reqId, success)) else w
  }

  function WorkerStep(w: World, works: bool): World
    requires w.worker != []
  {
    var w' := w.(worker := w.worker[1..]);
    match w.worker[0]
    case Write(reqId, batch, ticket) =>
      if !w.commanded || !w.ready || !AllValid(batch) || !works then Answer(w', reqId, false)
      else
        Answer(w'.(input := w.input + Encoding(batch),
                   log := w.log + [Entry(reqId, batch, ticket, w.epoch, w.ready, w.commanded)]), reqId, true)
    case BringDown(reqId) => Answer(w'.(ready := if works then false else w.ready), reqId, works)
    case BringUp(commanded) => w'.(epoch := w.epoch + 1, input := [], ready := works, commanded := commanded)
  }

  /** Request ids are generated: a new client's has never been seen, and strangers do not use a
      client's. A runner can be replaced once it is cancelled, even if its loop has not been joined;
      a stray loop's worker is closed and takes nothing. A reply is pushed on the runner's context. */
  predicate StepEnabled(w: World, e: Event) {
    match e
    case Arrive(reqId, _, _) => reqId !in w.used && reqId != ""
    case Push(k, _) => k < |w.clients| && w.clients[k].point == Fetched
    case TakeReply(k) =>
      k < |w.clients| && w.clients[k].point == Waiting && Queue(w, RespQueueName(w.clients[k].reqId)) != []
    case GiveUp(k) => k < |w.clients| && w.clients[k].point == Waiting
    case Expire(k) => k < |w.clients|
    case Inject(msg) => msg.Malformed? || forall k :: 0 <= k < |w.clients| ==> w.clients[k].reqId != msg.reqId
    case LoopOpen(_) => w.loop == Opening
    case LoopCheck => w.loop == Checking
    case LoopPop(_) => w.loop == Popping && Requests(w) != []
    case LoopPopNothing => w.loop == Popping
    case LoopPopFails => w.loop == Popping
    case LoopGiveUp => w.loop.Awaiting? && w.cancelled
    case LoopReply(works) => w.loop.Replying? && (works ==> !w.cancelled)
    case Cancel => true
    case NewRunner => w.loop == Ended || w.cancelled
    case ManagerTask(task) => task.BringUp? || (task.BringDown? && task.reqId == "")
    case WorkerRun(_) => w.worker != []
    case Stray(_, _) => false
  }

  function Step(w: World, e: Event): World
    requires StepEnabled(w, e)
  {
    match e
    case Arrive(reqId, batch, sawReady) =>
      w.(clients := w.clients + [Client(reqId, batch, 0, if sawReady then Fetched else Done(NotReady))],
         used := w.used + {reqId})
    case Push(k, works) =>
      if !works then Finish(w, k, NoReply)
      else
        PushRequest(w, RunCommands(w.clients[k].reqId, w.clients[k].batch))
          .(clients := w.clients[k := w.clients[k].(point := Waiting, ticket := w.pushed)])
    case TakeReply(k) =>
      var m := Queue(w, RespQueueName(w.clients[k].reqId))[0].msg;
      Finish(w, k, if WellFormed(m) && m.Response? && m.success then Accepted else Refused)
    case GiveUp(k) => Finish(w, k, NoReply)
    case Expire(k) => Dropped(w, RespQueueName(w.clients[k].reqId))
    case Inject(msg) => PushRequest(w, msg).(used := if msg.Malformed? then w.used else w.used + {msg.reqId})
    case LoopOpen(works) => w.(loop := if works then Checking else Ended)
    case LoopCheck => w.(loop := if w.cancelled then Ended else Popping)
    case LoopPop(submits) => PopStep(w, submits)
    case LoopPopNothing => w.(loop := Checking)
    case LoopPopFails => w.(loop := Ended)
    case LoopGiveUp => w.(loop := Replying(w.loop.reqId, false))
    case LoopReply(works) =>
      (if works then PushReply(w, Response(w.loop.reqId, w.loop.success)) else w).(loop := Checking)
    case Cancel => w.(cancelled := true)
    case NewRunner =>
      w.(strays := if w.loop == Ended then w.strays else w.strays + [w.loop],
         loop := Opening, cancelled := false, worker := [], ready := false)
    case ManagerTask(task) => w.(worker := w.worker + [task])
    case WorkerRun(works) => WorkerStep(w, works)
  }

  predicate Enabled(w: World, e: Event) {
    if e.Stray? then
      && e.j < |w.strays| && LoopStep(e.step) && (e.step.LoopPop? ==> !e.step.submits)
      && StepEnabled(SeenBy(w, e.j), e.step)
    else StepEnabled(w, e)
  }

  function Next(w: World, e: Event): World
    requires Enabled(w, e)
  {
    if e.Stray? then
      var v := Step(SeenBy(w, e.j), e.step);
      v.(loop := w.loop, cancelled := w.cancelled, strays := w.strays[e.j := v.loop])
    else Step(w, e)
  }

  predicate Init(w: World) {
    && w.queues == map[] && w.clients == [] && w.used == {} && w.loop == Opening && !w.cancelled
    && w.strays == [] && w.worker == [] && w.input == [] && w.log == [] && w.epoch == 0
  }

  predicate IsRun(w: World, es: seq<Event>)
    decreases |es|
  {
    es == [] || (Enabled(w, es[0]) && IsRun(Next(w, es[0]), es[1..]))
  }

  function After(w: World, es: seq<Event>): World
    requires IsRun(w, es)
    decreases |es|
  {
    if es == [] then w else After(Next(w, es[0]), es[1..])
  }
}

/** Safety of the protocol over every run. */
module IpcSafety {
  import opened Common
  import opened Commands
  import opened QueueNames
  import opened IpcProtocol

  // ---------------------------------------------------------------------------- the invariant

  /** A request on its way through the runner, wherever it is, is a client's own or a stranger's. */
  ghost predicate Matches(w: World, reqId: string, batch: seq<InputCommand>, ticket: nat) {
    reqId in w.used &&
    forall k :: 0 <= k < |w.clients| && w.clients[k].reqId == reqId ==>
      batch == w.clients[k].batch && ticket == w.clients[k].ticket && w.clients[k].point != Fetched
  }

  ghost predicate NotAClient(w: World, reqId: string) {
    reqId in w.used + {""} && forall k :: 0 <= k < |w.clients| ==> w.clients[k].reqId != reqId
  }

  ghost predicate ItemOk(w: World, x: Item) {
    match x.msg
    case RunCommands(reqId, batch) => Matches(w, reqId, batch, x.ticket)
    case StopSession(reqId, _) => NotAClient(w, reqId)
    case _ => true
  }

  ghost predicate TaskOk(w: World, t: WorkerTask) {
    match t
    case Write(reqId, batch, ticket) => Matches(w, reqId, batch, ticket) && batch != [] && AllValid(batch)
    case BringDown(reqId) => NotAClient(w, reqId)
    case BringUp(_) => true
  }

  ghost predicate EntryOk(w: World, e: Entry) {
    && Matches(w, e.reqId, e.batch, e.ticket) && e.batch != [] && AllValid(e.batch)
    && e.ready && e.commanded && e.epoch <= w.epoch
  }

  ghost predicate Logged(w: World, reqId: string) {
    exists e :: e in w.log && e.reqId == reqId
  }

  /** An answer on its way to a client: its batch was found well formed; a success was written. */
  ghost predicate AnswerOk(w: World, reqId: string, success: bool) {
    && reqId in w.used + {""}
    && forall k :: 0 <= k < |w.clients| && w.clients[k].reqId == reqId ==>
         w.clients[k].batch != [] && AllValid(w.clients[k].batch) && (success ==> Logged(w, reqId))
  }

  ghost predicate ReplyOk(w: World, id: string, m: Message) {
    m.Response? && m.reqId == id && AnswerOk(w, id, m.success)
  }

  ghost predicate IdsOk(w: World) {
    && (forall i, j :: 0 <= i < j < |w.clients| ==> w.clients[i].reqId != w.clients[j].reqId)
    && (forall k :: 0 <= k < |w.clients| ==> w.clients[k].reqId in w.used && w.clients[k].reqId != "")
  }

  ghost predicate RequestsOk(w: World) { forall x :: x in Requests(w) ==> ItemOk(w, x) }

  ghost predicate TasksOk(w: World) { forall t :: t in w.worker ==> TaskOk(w, t) }

  ghost predicate LogOk(w: World) { forall e :: e in w.log ==> EntryOk(w, e) }

  ghost predicate RepliesOk(w: World) {
    forall id, x :: x in Queue(w, RespQueueName(id)) ==> ReplyOk(w, id, x.msg)
  }

  ghost predicate PointOk(w: World, l: Loop) {
    match l
    case Awaiting(reqId) => AnswerOk(w, reqId, false)
    case Replying(reqId, success) => AnswerOk(w, reqId, success)
    case _ => true
  }

  ghost predicate LoopOk(w: World) { PointOk(w, w.loop) }

  ghost predicate StraysOk(w: World) {
    forall j :: 0 <= j < |w.strays| ==> PointOk(w, w.strays[j])
  }

  ghost predicate VerdictsOk(w: World) {
    forall k :: 0 <= k < |w.clients| && w.clients[k].point in {Done(Accepted), Done(Refused)} ==>
      AnswerOk(w, w.clients[k].reqId, w.clients[k].point == Done(Accepted))
  }

  function LogTickets(log: seq<Entry>): (r: seq<nat>)
    ensures |r| == |log|
  {
    seq(|log|, i requires 0 <= i < |log| => log[i].ticket)
  }

  function WorkerTickets(tasks: seq<WorkerTask>): seq<nat> {
    if tasks == [] then []
    else (if tasks[0].Write? then [tasks[0].ticket] else []) + WorkerTickets(tasks[1..])
  }

  function RequestTickets(q: seq<Item>): (r: seq<nat>)
    ensures |r| == |q|
  {
    seq(|q|, i requires 0 <= i < |q| => q[i].ticket)
  }

  /** Every ticket in flight: written, then waiting for the worker, then waiting for the loop. */
  function Line(w: World): seq<nat> {
    LogTickets(w.log) + WorkerTickets(w.worker) + RequestTickets(Requests(w))
  }

  /** Strictly increasing and below `bound`. */
  ghost predicate Ordered(s: seq<nat>, bound: nat) {
    && (forall i, j :: 0 <= i < j < |s| ==> s[i] < s[j])
    && (forall i :: 0 <= i < |s| ==> s[i] < bound)
  }

  ghost predicate TicketsOk(w: World) { Ordered(Line(w), w.pushed) }

  /** The bytes the logged batches of one driver start amount to. */
  function Stream(log: seq<Entry>, epoch: nat): seq<byte> {
    if log == [] then []
    else
      (if log[0].epoch == epoch && AllValid(log[0].batch) then Encoding(log[0].batch) else []) + Stream(log[1..], epoch)
  }

  ghost predicate StreamOk(w: World) { w.input == Stream(w.log, w.epoch) }

  /** All but the strays. */
  ghost predicate Sound(w: World) {
    && IdsOk(w) && RequestsOk(w) && TasksOk(w) && LogOk(w) && RepliesOk(w) && LoopOk(w) && VerdictsOk(w)
    && TicketsOk(w) && StreamOk(w)
  }

  ghost predicate Inv(w: World) {
    Sound(w) && StraysOk(w)
  }

  // ---------------------------------------------------------------------------- what a step carries over

  /** Clients move on without changing what they asked; a new one has an id never seen. */
  ghost predicate Follows(w: World, w': World) {
    && w'.sessionId == w.sessionId && w.used <= w'.used && w.epoch <= w'.epoch
    && (forall e :: e in w.log ==> e in w'.log)
    && |w.clients| <= |w'.clients|
    && (forall k :: 0 <= k < |w.clients| ==>
          && w'.clients[k].reqId == w.clients[k].reqId && w'.clients[k].batch == w.clients[k].batch
          && (w.clients[k].point != Fetched ==>
                w'.clients[k].ticket == w.clients[k].ticket && w'.clients[k].point != Fetched))
    && (forall k :: |w.clients| <= k < |w'.clients| ==> w'.clients[k].reqId !in w.used + {""})
  }

  lemma MatchesStays(w: World, w': World, reqId: string, batch: seq<InputCommand>, ticket: nat)
    requires Follows(w, w') && Matches(w, reqId, batch, ticket)
    ensures Matches(w', reqId, batch, ticket)
  {
    forall k | 0 <= k < |w'.clients| && w'.clients[k].reqId == reqId
      ensures batch == w'.clients[k].batch && ticket == w'.clients[k].ticket && w'.clients[k].point != Fetched
    {
      assert k < |w.clients| && w.clients[k].reqId == reqId;
    }
  }

  lemma NotAClientStays(w: World, w': World, reqId: string)
    requires Follows(w, w') && NotAClient(w, reqId)
    ensures NotAClient(w', reqId)
  {
    forall k | 0 <= k < |w'.clients| ensures w'.clients[k].reqId != reqId {
      if k < |w.clients| {
        assert w'.clients[k].reqId == w.clients[k].reqId;
      }
    }
  }

  lemma AnswerStays(w: World, w': World, reqId: string, success: bool)
    requires Follows(w, w') && AnswerOk(w, reqId, success)
    ensures AnswerOk(w', reqId, success)
  {
    forall k | 0 <= k < |w'.clients| && w'.clients[k].reqId == reqId
      ensures w'.clients[k].batch != [] && AllValid(w'.clients[k].batch) && (success ==> Logged(w', reqId))
    {
      assert k < |w.clients| && w.clients[k].reqId == reqId;
      if success {
        var e :| e in w.log && e.reqId == reqId;
        assert e in w'.log;
      }
    }
  }

  /** What is in flight stays right; only what the step adds has to be looked at. */
  lemma PipelineStays(w: World, w': World)
    requires Follows(w, w')
    ensures RequestsOk(w) && (forall x :: x in Requests(w') ==> x in Requests(w) || ItemOk(w', x)) ==> RequestsOk(w')
    ensures TasksOk(w) && (forall t :: t in w'.worker ==> t in w.worker || TaskOk(w', t)) ==> TasksOk(w')
    ensures LogOk(w) && (forall e :: e in w'.log ==> e in w.log || EntryOk(w', e)) ==> LogOk(w')
  {
    forall x | ItemOk(w, x) ensures ItemOk(w', x) {
      match x.msg
      case RunCommands(reqId, batch) => MatchesStays(w, w', reqId, batch, x.ticket);
      case StopSession(reqId, _) => NotAClientStays(w, w', reqId);
      case _ =>
    }
    forall t | TaskOk(w, t) ensures TaskOk(w', t) {
      match t
      case Write(reqId, batch, ticket) => MatchesStays(w, w', reqId, batch, ticket);
      case BringDown(reqId) => NotAClientStays(w, w', reqId);
      case BringUp(_) =>
    }
    forall e | EntryOk(w, e) ensures EntryOk(w', e) {
      MatchesStays(w, w', e.reqId, e.batch, e.ticket);
    }
  }

  lemma RepliesStay(w: World, w': World)
    requires Follows(w, w') && RepliesOk(w)
    requires forall id, x :: x in Queue(w', RespQueueName(id)) ==>
               x in Queue(w, RespQueueName(id)) || ReplyOk(w', id, x.msg)
    ensures RepliesOk(w')
  {
    forall id, x | x in Queue(w', RespQueueName(id)) ensures ReplyOk(w', id, x.msg) {
      if x in Queue(w, RespQueueName(id)) {
        AnswerStays(w, w', id, x.msg.success);
      }
    }
  }

  lemma PointStays(w: World, w': World, l: Loop)
    requires Follows(w, w') && PointOk(w, l)
    ensures PointOk(w', l)
  {
    match l
    case Awaiting(reqId) => AnswerStays(w, w', reqId, false);
    case Replying(reqId, success) => AnswerStays(w, w', reqId, success);
    case _ =>
  }

  lemma LoopStays(w: World, w': World)
    requires Follows(w, w') && LoopOk(w) && w'.loop == w.loop
    ensures LoopOk(w')
  {
    PointStays(w, w', w.loop);
  }

  /** `k` is the only client that may reach a verdict in this step. */
  lemma VerdictsStay(w: World, w': World, k: nat)
    requires Follows(w, w') && VerdictsOk(w)
    requires forall i :: 0 <= i < |w.clients| && i != k ==> w'.clients[i].point == w.clients[i].point
    requires forall i :: |w.clients| <= i < |w'.clients| ==> w'.clients[i].point in {Fetched, Done(NotReady)}
    requires k < |w.clients| ==>
               var p := w'.clients[k].point;
               p in {Done(Accepted), Done(Refused)} ==> AnswerOk(w, w.clients[k].reqId, p == Done(Accepted))
    ensures VerdictsOk(w')
  {
    forall i | 0 <= i < |w'.clients| && (w'.clients[i].point == Done(Accepted) || w'.clients[i].point == Done(Refused))
      ensures AnswerOk(w', w'.clients[i].reqId, w'.clients[i].point == Done(Accepted))
    {
      assert i < |w.clients| && w'.clients[i].reqId == w.clients[i].reqId;
      AnswerStays(w, w', w.clients[i].reqId, w'.clients[i].point == Done(Accepted));
    }
  }

  // ---------------------------------------------------------------------------- names keep queues apart

  /** Changing the request queue alone leaves every reply queue as it was. */
  lemma RequestsApart(w: World, w': World)
    requires forall name :: name != IpcQueueName(w.sessionId) ==> Queue(w', name) == Queue(w, name)
    ensures forall id :: Queue(w', RespQueueName(id)) == Queue(w, RespQueueName(id))
  {
    forall id ensures Queue(w', RespQueueName(id)) == Queue(w, RespQueueName(id)) {
      NamesDisjoint(w.sessionId, id);
    }
  }

  /** Changing one reply queue leaves the request queue and the other replies as they were. */
  lemma ReplyApart(w: World, w': World, own: string)
    requires w'.sessionId == w.sessionId
    requires forall name :: name != RespQueueName(own) ==> Queue(w', name) == Queue(w, name)
    ensures Requests(w') == Requests(w)
    ensures forall id :: id != own ==> Queue(w', RespQueueName(id)) == Queue(w, RespQueueName(id))
  {
    NamesDisjoint(w.sessionId, own);
    forall id | id != own ensures Queue(w', RespQueueName(id)) == Queue(w, RespQueueName(id)) {
      NamesInjective(id, own);
    }
  }

  // ---------------------------------------------------------------------------- tickets and bytes

  lemma {:induction false} WorkerTicketsSnoc(tasks: seq<WorkerTask>, t: WorkerTask)
    ensures WorkerTickets(tasks + [t]) == WorkerTickets(tasks) + (if t.Write? then [t.ticket] else [])
  {
    if tasks != [] {
      assert (tasks + [t])[1..] == tasks[1..] + [t];
      WorkerTicketsSnoc(tasks[1..], t);
    } else {
      assert (tasks + [t])[1..] == [];
    }
  }

  /** Leaving one out keeps the order. */
  lemma OrderedWithout(a: seq<nat>, x: seq<nat>, b: seq<nat>, bound: nat)
    requires Ordered(a + x + b, bound)
    ensures Ordered(a + b, bound)
  {
    var whole, s := a + x + b, a + b;
    forall i | 0 <= i < |s|
      ensures s[i] == whole[if i < |a| then i else i + |x|]
    {
    }
  }

  lemma LogTicketsSnoc(log: seq<Entry>, e: Entry)
    ensures LogTickets(log + [e]) == LogTickets(log) + [e.ticket]
  {
  }

  lemma {:induction false} StreamAppend(a: seq<Entry>, b: seq<Entry>, epoch: nat)
    ensures Stream(a + b, epoch) == Stream(a, epoch) + Stream(b, epoch)
  {
    if a == [] {
      assert a + b == b;
    } else {
      assert (a + b)[1..] == a[1..] + b;
      StreamAppend(a[1..], b, epoch);
      var head := if a[0].epoch == epoch && AllValid(a[0].batch) then Encoding(a[0].batch) else [];
      assert (head + Stream(a[1..], epoch)) + Stream(b, epoch) == head + (Stream(a[1..], epoch) + Stream(b, epoch));
    }
  }

  lemma StreamOne(e: Entry, epoch: nat)
    ensures Stream([e], epoch) == if e.epoch == epoch && AllValid(e.batch) then Encoding(e.batch) else []
  {
    assert [e][1..] == [];
    assert Stream([], epoch) == [];
  }

  lemma {:induction false} NothingYet(log: seq<Entry>, epoch: nat)
    requires forall e :: e in log ==> e.epoch < epoch
    ensures Stream(log, epoch) == []
  {
    if log != [] {
      NothingYet(log[1..], epoch);
    }
  }

  // ---------------------------------------------------------------------------- invariance, event by event

  lemma ArriveFollows(w: World, e: Event)
    requires IdsOk(w) && Enabled(w, e) && e.Arrive?
    ensures Follows(w, Next(w, e)) && IdsOk(Next(w, e))
  {
    var w' := Next(w, e);
    assert forall k :: 0 <= k < |w.clients| ==> w'.clients[k] == w.clients[k];
    assert w'.clients[|w.clients|].reqId == e.reqId;
  }

  lemma ArriveKeeps(w: World, e: Event)
    requires Sound(w) && Enabled(w, e) && e.Arrive?
    ensures Sound(Next(w, e))
  {
    var w' := Next(w, e);
    assert forall name :: Queue(w', name) == Queue(w, name);
    ArriveFollows(w, e);
    PipelineStays(w, w');
    RepliesStay(w, w');
    LoopStays(w, w');
    VerdictsStay(w, w', |w.clients|);
  }

  /** A message pushed on the request queue, whether or not a client moves on with it. */
  lemma PushedKeeps(w: World, w': World, m: Message)
    requires RequestsOk(w) && TasksOk(w) && LogOk(w) && RepliesOk(w) && LoopOk(w) && TicketsOk(w)
    requires Follows(w, w') && ItemOk(w', Item(m, w.pushed))
    requires w'.queues == PushRequest(w, m).queues && w'.pushed == w.pushed + 1
    requires w'.worker == w.worker && w'.log == w.log && w'.loop == w.loop
    ensures RequestsOk(w') && TasksOk(w') && LogOk(w') && RepliesOk(w') && LoopOk(w') && TicketsOk(w')
  {
    assert Requests(w') == Requests(w) + [Item(m, w.pushed)];
    PipelineStays(w, w');
    RequestsApart(w, w');
    RepliesStay(w, w');
    LoopStays(w, w');
    assert Line(w') == Line(w) + [w.pushed];
  }

  lemma PushKeeps(w: World, e: Event)
    requires Sound(w) && Enabled(w, e) && e.Push? && e.works
    ensures Sound(Next(w, e))
  {
    var w' := Next(w, e);
    var c := w.clients[e.k];
    assert forall i :: 0 <= i < |w.clients| && i != e.k ==> w'.clients[i] == w.clients[i];
    assert w'.clients[e.k] == c.(point := Waiting, ticket := w.pushed);
    assert Matches(w', c.reqId, c.batch, w.pushed);
    PushedKeeps(w, w', RunCommands(c.reqId, c.batch));
    VerdictsStay(w, w', e.k);
  }

  lemma InjectKeeps(w: World, e: Event)
    requires Sound(w) && Enabled(w, e) && e.Inject?
    ensures Sound(Next(w, e))
  {
    var w' := Next(w, e);
    PushedKeeps(w, w', e.msg);
    VerdictsStay(w, w', |w.clients|);
  }

  /** A client's queue dropped, and perhaps the client done. */
  lemma DroppedKeeps(w: World, w': World, k: nat)
    requires Sound(w) && k < |w.clients| && w' == Dropped(w, RespQueueName(w.clients[k].reqId)).(clients := w'.clients)
    requires Follows(w, w') && |w'.clients| == |w.clients|
    ensures IdsOk(w') && RequestsOk(w') && TasksOk(w') && LogOk(w') && RepliesOk(w') && LoopOk(w')
    ensures TicketsOk(w') && StreamOk(w')
  {
    ReplyApart(w, w', w.clients[k].reqId);
    PipelineStays(w, w');
    assert Queue(w', RespQueueName(w.clients[k].reqId)) == [];
    RepliesStay(w, w');
    LoopStays(w, w');
  }

  lemma FinishKeeps(w: World, k: nat, v: Verdict)
    requires Sound(w) && k < |w.clients|
    requires v == Accepted || v == Refused ==> AnswerOk(w, w.clients[k].reqId, v == Accepted)
    ensures Sound(Finish(w, k, v))
  {
    var w' := Finish(w, k, v);
    assert forall i :: 0 <= i < |w.clients| && i != k ==> w'.clients[i] == w.clients[i];
    assert w'.clients[k] == w.clients[k].(point := Done(v));
    DroppedKeeps(w, w', k);
    VerdictsStay(w, w', k);
  }

  lemma ExpireKeeps(w: World, k: nat)
    requires Sound(w) && k < |w.clients|
    ensures Sound(Dropped(w, RespQueueName(w.clients[k].reqId)))
  {
    DroppedKeeps(w, Dropped(w, RespQueueName(w.clients[k].reqId)), k);
  }

  /** The loop goes from one message to the next; the queues and the log stay. */
  lemma LoopMoves(w: World, w': World)
    requires Sound(w) && LoopOk(w')
    requires w' == w.(loop := w'.loop, cancelled := w'.cancelled, strays := w'.strays)
    ensures Sound(w')
  {
    assert forall name :: Queue(w', name) == Queue(w, name);
    PipelineStays(w, w');
    RepliesStay(w, w');
    VerdictsStay(w, w', |w.clients|);
  }

  lemma PoppedTickets(w: World, w': World, more: seq<WorkerTask>)
    requires TicketsOk(w) && Requests(w) != [] && Requests(w') == Requests(w)[1..] && w'.pushed == w.pushed
    requires w'.log == w.log && w'.worker == w.worker + more && |more| <= 1
    requires forall t :: t in more && t.Write? ==> t.ticket == Requests(w)[0].ticket
    ensures TicketsOk(w')
  {
    var before := LogTickets(w.log) + WorkerTickets(w.worker);
    var first, rest := Requests(w)[0].ticket, RequestTickets(Requests(w'));
    assert RequestTickets(Requests(w)) == [first] + rest;
    assert Line(w) == before + [first] + rest;
    OrderedWithout(before, [first], rest, w.pushed);
    if more != [] {
      assert more == [more[0]] && more[0] in more;
      WorkerTicketsSnoc(w.worker, more[0]);
    } else {
      assert w'.worker == w.worker;
    }
    if more != [] && more[0].Write? {
      assert Line(w') == Line(w);
    } else {
      assert Line(w') == before + rest;
    }
  }

  /** The head of the request queue goes to the worker, or nowhere. */
  lemma PoppedKeeps(w: World, w': World, more: seq<WorkerTask>)
    requires Sound(w) && Requests(w) != []
    requires w' == WithQueue(w, IpcQueueName(w.sessionId), Requests(w)[1..])
                     .(worker := w.worker + more, loop := w'.loop)
    requires LoopOk(w') && |more| <= 1
    requires forall t :: t in more ==> TaskOk(w', t) && (t.Write? ==> t.ticket == Requests(w)[0].ticket)
    ensures Sound(w')
  {
    assert Requests(w') == Requests(w)[1..];
    PoppedTickets(w, w', more);
    PipelineStays(w, w');
    RequestsApart(w, w');
    RepliesStay(w, w');
    VerdictsStay(w, w', |w.clients|);
  }

  lemma PopKeeps(w: World, e: Event)
    requires Sound(w) && Enabled(w, e) && e.LoopPop?
    ensures Sound(Next(w, e))
  {
    var item := Requests(w)[0];
    assert item in Requests(w) && ItemOk(w, item);
    if !WellFormed(item.msg) || item.msg.Response? || !e.submits {
      PopDrops(w, e);
    } else if item.msg.RunCommands? {
      PopWrites(w, e);
    } else {
      PopStops(w, e);
    }
  }

  lemma PopDrops(w: World, e: Event)
    requires Sound(w) && Enabled(w, e) && e.LoopPop? && ItemOk(w, Requests(w)[0])
    requires var m := Requests(w)[0].msg; !WellFormed(m) || m.Response? || !e.submits
    ensures Sound(Next(w, e))
  {
    assert w.worker == w.worker + [];
    PoppedKeeps(w, Next(w, e), []);
  }

  lemma PopWrites(w: World, e: Event)
    requires Sound(w) && Enabled(w, e) && e.LoopPop? && ItemOk(w, Requests(w)[0]) && e.submits
    requires WellFormed(Requests(w)[0].msg) && Requests(w)[0].msg.RunCommands?
    ensures Sound(Next(w, e))
  {
    var item := Requests(w)[0];
    PoppedKeeps(w, Next(w, e), [Write(item.msg.reqId, item.msg.batch, item.ticket)]);
  }

  lemma PopStops(w: World, e: Event)
    requires Sound(w) && Enabled(w, e) && e.LoopPop? && ItemOk(w, Requests(w)[0]) && e.submits
    requires WellFormed(Requests(w)[0].msg) && Requests(w)[0].msg.StopSession?
    ensures Sound(Next(w, e))
  {
    PoppedKeeps(w, Next(w, e), [BringDown(Requests(w)[0].msg.reqId)]);
  }

  lemma ReplyKeeps(w: World, e: Event)
    requires Sound(w) && Enabled(w, e) && e.LoopReply?
    ensures Sound(Next(w, e))
  {
    if e.works {
      ReplyPushed(w, w.loop.reqId, w.loop.success);
      LoopMoves(PushReply(w, Response(w.loop.reqId, w.loop.success)), Next(w, e));
    } else {
      LoopMoves(w, Next(w, e));
    }
  }

  lemma ReplyPushed(w: World, id: string, ok: bool)
    requires Sound(w) && AnswerOk(w, id, ok)
    ensures Sound(PushReply(w, Response(id, ok)))
  {
    var w1 := PushReply(w, Response(id, ok));
    ReplyApart(w, w1, id);
    assert Queue(w1, RespQueueName(id)) == Queue(w, RespQueueName(id)) + [Item(Response(id, ok), 0)];
    assert ReplyOk(w1, id, Response(id, ok));
    PipelineStays(w, w1);
    RepliesStay(w, w1);
    LoopStays(w, w1);
    VerdictsStay(w, w1, |w.clients|);
    assert Line(w1) == Line(w);
  }

  lemma ManagerTaskKeeps(w: World, e: Event)
    requires Sound(w) && Enabled(w, e) && e.ManagerTask?
    ensures Sound(Next(w, e))
  {
    var w' := Next(w, e);
    assert forall name :: Queue(w', name) == Queue(w, name);
    assert e.task.BringDown? ==> NotAClient(w', "");
    PipelineStays(w, w');
    RepliesStay(w, w');
    LoopStays(w, w');
    VerdictsStay(w, w', |w.clients|);
    WorkerTicketsSnoc(w.worker, e.task);
    assert WorkerTickets(w'.worker) == WorkerTickets(w.worker);
    assert Line(w') == Line(w);
  }

  lemma WorkedTickets(w: World, w': World, added: seq<Entry>)
    requires TicketsOk(w) && Requests(w') == Requests(w) && w'.pushed == w.pushed
    requires w.worker != [] && w'.worker == w.worker[1..] && w'.log == w.log + added && |added| <= 1
    requires forall e :: e in added ==> w.worker[0].Write? && e.ticket == w.worker[0].ticket
    ensures TicketsOk(w')
  {
    var head := if w.worker[0].Write? then [w.worker[0].ticket] else [];
    var rest := WorkerTickets(w.worker[1..]) + RequestTickets(Requests(w));
    assert Line(w) == LogTickets(w.log) + head + rest;
    if added == [] {
      assert w'.log == w.log;
      OrderedWithout(LogTickets(w.log), head, rest, w.pushed);
      assert Line(w') == LogTickets(w.log) + rest;
    } else {
      assert added == [added[0]] && added[0] in added;
      LogTicketsSnoc(w.log, added[0]);
      assert Line(w') == Line(w);
    }
  }

  /** The worker takes a task off its queue and may add a batch to the log. */
  lemma WorkedKeeps(w: World, w': World, added: seq<Entry>)
    requires Sound(w) && w.worker != []
    requires w' == w.(worker := w.worker[1..], log := w.log + added, loop := w'.loop, input := w'.input,
                      ready := w'.ready, commanded := w'.commanded, epoch := w'.epoch)
    requires w.epoch <= w'.epoch && LoopOk(w') && StreamOk(w') && |added| <= 1
    requires forall e :: e in added ==> EntryOk(w', e) && w.worker[0].Write? && e.ticket == w.worker[0].ticket
    ensures Sound(w')
  {
    assert forall name :: Queue(w', name) == Queue(w, name);
    WorkedTickets(w, w', added);
    PipelineStays(w, w');
    RepliesStay(w, w');
    VerdictsStay(w, w', |w.clients|);
  }

  /** The loop hears of a finished task. */
  lemma AnswerFits(w: World, w1: World, reqId: string, success: bool)
    requires Follows(w, w1) && LoopOk(w) && w1.loop == w.loop
    requires w.loop == Awaiting(reqId) ==> AnswerOk(w1, reqId, success)
    ensures LoopOk(Answer(w1, reqId, success))
  {
    LoopStays(w, w1);
    var w2 := Answer(w1, reqId, success);
    if w.loop == Awaiting(reqId) {
      assert forall k :: 0 <= k < |w2.clients| ==> w2.clients[k] == w1.clients[k];
      assert Follows(w1, w2);
      AnswerStays(w1, w2, reqId, success);
    }
  }

  lemma WriteKeeps(w: World, e: Event)
    requires Sound(w) && Enabled(w, e) && e.WorkerRun? && w.worker[0].Write?
    ensures Sound(Next(w, e))
  {
    var task := w.worker[0];
    assert TaskOk(w, task);
    var w1 := w.(worker := w.worker[1..]);
    if w.commanded && w.ready && e.works {
      var entry := Entry(task.reqId, task.batch, task.ticket, w.epoch, w.ready, w.commanded);
      var w2 := w1.(input := w.input + Encoding(task.batch), log := w.log + [entry]);
      assert Follows(w, w2);
      assert entry in w2.log && Logged(w2, task.reqId);
      MatchesStays(w, w2, task.reqId, task.batch, task.ticket);
      AnswerFits(w, w2, task.reqId, true);
      StreamAppend(w.log, [entry], w.epoch);
      StreamOne(entry, w.epoch);
      WorkedKeeps(w, Answer(w2, task.reqId, true), [entry]);
    } else {
      assert w.log == w.log + [];
      assert Follows(w, w1);
      AnswerFits(w, w1, task.reqId, false);
      WorkedKeeps(w, Answer(w1, task.reqId, false), []);
    }
  }

  lemma BringUpKeeps(w: World, e: Event)
    requires Sound(w) && Enabled(w, e) && e.WorkerRun? && w.worker[0].BringUp?
    ensures Sound(Next(w, e))
  {
    var w' := Next(w, e);
    assert w.log == w.log + [];
    NothingYet(w.log, w.epoch + 1);
    assert Follows(w, w');
    LoopStays(w, w');
    WorkedKeeps(w, w', []);
  }

  lemma BringDownKeeps(w: World, e: Event)
    requires Sound(w) && Enabled(w, e) && e.WorkerRun? && w.worker[0].BringDown?
    ensures Sound(Next(w, e))
  {
    var task := w.worker[0];
    assert TaskOk(w, task);
    assert w.log == w.log + [];
    var w1 := w.(worker := w.worker[1..], ready := if e.works then false else w.ready);
    assert Follows(w, w1);
    NotAClientStays(w, w1, task.reqId);
    AnswerFits(w, w1, task.reqId, e.works);
    WorkedKeeps(w, Next(w, e), []);
  }

  lemma NewRunnerKeeps(w: World, e: Event)
    requires Sound(w) && Enabled(w, e) && e.NewRunner?
    ensures Sound(Next(w, e))
  {
    var w1 := w.(worker := [], ready := false);
    assert forall name :: Queue(w1, name) == Queue(w, name);
    assert Follows(w, w1);
    PipelineStays(w, w1);
    RepliesStay(w, w1);
    LoopStays(w, w1);
    VerdictsStay(w, w1, |w.clients|);
    OrderedWithout(LogTickets(w.log), WorkerTickets(w.worker), RequestTickets(Requests(w)), w.pushed);
    assert Line(w1) == LogTickets(w.log) + RequestTickets(Requests(w));
    LoopMoves(w1, Next(w, e));
  }

  lemma CancelKeeps(w: World)
    requires Sound(w)
    ensures Sound(Next(w, Cancel))
  {
    var w' := Next(w, Cancel);
    assert Follows(w, w');
    LoopStays(w, w');
    LoopMoves(w, w');
  }

  /** The loop alone moves, to a place where it owes nobody an answer, or gives up on one. */
  lemma LoopAloneKeeps(w: World, e: Event)
    requires Sound(w) && Enabled(w, e)
    requires e.LoopOpen? || e.LoopCheck? || e.LoopPopNothing? || e.LoopPopFails? || e.LoopGiveUp?
    ensures Sound(Next(w, e))
  {
    LoopMoves(w, Next(w, e));
  }

  /** A reply in a client's queue is its own, and says the truth about its batch. */
  lemma TakenReply(w: World, k: nat)
    requires Sound(w) && Enabled(w, TakeReply(k))
    ensures var m := Queue(w, RespQueueName(w.clients[k].reqId))[0].msg;
            && WellFormed(m) && m.Response? && m.reqId == w.clients[k].reqId
            && AnswerOk(w, w.clients[k].reqId, m.success)
  {
    var x := Queue(w, RespQueueName(w.clients[k].reqId))[0];
    assert x in Queue(w, RespQueueName(w.clients[k].reqId));
    assert ReplyOk(w, w.clients[k].reqId, x.msg);
  }

  predicate ClientStep(e: Event) {
    e.Arrive? || e.Push? || e.TakeReply? || e.GiveUp? || e.Expire? || e.Inject?
  }

  lemma ClientStepKeeps(w: World, e: Event)
    requires Sound(w) && Enabled(w, e) && ClientStep(e)
    ensures Sound(Next(w, e))
  {
    match e
    case Arrive(_, _, _) => ArriveKeeps(w, e);
    case Push(k, works) => if works { PushKeeps(w, e); } else { FinishKeeps(w, k, NoReply); }
    case TakeReply(k) =>
      TakenReply(w, k);
      var m := Queue(w, RespQueueName(w.clients[k].reqId))[0].msg;
      FinishKeeps(w, k, if m.success then Accepted else Refused);
    case GiveUp(k) => FinishKeeps(w, k, NoReply);
    case Expire(k) => ExpireKeeps(w, k);
    case Inject(_) => InjectKeeps(w, e);
  }

  lemma NextKeepsSound(w: World, e: Event)
    requires Sound(w) && Enabled(w, e) && !e.Stray?
    ensures Sound(Next(w, e))
  {
    if ClientStep(e) {
      ClientStepKeeps(w, e);
    } else if LoopStep(e) {
      match e
      case LoopPop(_) => PopKeeps(w, e);
      case LoopReply(_) => ReplyKeeps(w, e);
      case _ => LoopAloneKeeps(w, e);
    } else {
      match e
      case Cancel => CancelKeeps(w);
      case NewRunner => NewRunnerKeeps(w, e);
      case ManagerTask(_) => ManagerTaskKeeps(w, e);
      case WorkerRun(_) => WorkerKeeps(w, e);
    }
  }

  lemma WorkerKeeps(w: World, e: Event)
    requires Sound(w) && Enabled(w, e) && e.WorkerRun?
    ensures Sound(Next(w, e))
  {
    match w.worker[0]
    case Write(_, _, _) => WriteKeeps(w, e);
    case BringUp(_) => BringUpKeeps(w, e);
    case BringDown(_) => BringDownKeeps(w, e);
  }

  lemma SameClientsFollow(w: World, w': World)
    requires w'.sessionId == w.sessionId && w.used <= w'.used && w.epoch <= w'.epoch
    requires w.log <= w'.log && w'.clients == w.clients
    ensures Follows(w, w')
  {
  }

  lemma FinishFollows(w: World, k: nat, v: Verdict)
    requires k < |w.clients|
    ensures Follows(w, Finish(w, k, v))
  {
  }

  lemma PushFollows(w: World, k: nat)
    requires Enabled(w, Push(k, true))
    ensures Follows(w, Next(w, Push(k, true)))
  {
  }

  lemma PopStepKeeps(w: World, submits: bool)
    requires Requests(w) != []
    ensures var w' := PopStep(w, submits); w' == w.(loop := w'.loop, queues := w'.queues, worker := w'.worker)
  {
  }

  /** A step of the loop touches the queues, the worker's queue and itself, nothing else. */
  lemma LoopStepKeeps(w: World, e: Event)
    requires Enabled(w, e) && LoopStep(e)
    ensures var w' := Next(w, e); w' == w.(loop := w'.loop, queues := w'.queues, worker := w'.worker)
  {
    if e.LoopPop? { PopStepKeeps(w, e.submits); }
  }

  lemma WorkerStepKeeps(w: World, works: bool)
    requires w.worker != []
    ensures var w' := WorkerStep(w, works);
            && w'.clients == w.clients && w'.queues == w.queues && w'.strays == w.strays && w'.used == w.used
            && w'.sessionId == w.sessionId && w.epoch <= w'.epoch && w.log <= w'.log
  {
    var w1 := w.(worker := w.worker[1..]);
    match w.worker[0]
    case Write(reqId, batch, ticket) =>
      assert WorkerStep(w, works) == Answer(w1, reqId, false) ||
             (AllValid(batch) &&
              WorkerStep(w, works) ==
                Answer(w1.(input := w.input + Encoding(batch),
                           log := w.log + [Entry(reqId, batch, ticket, w.epoch, w.ready, w.commanded)]), reqId, true));
    case BringDown(_) =>
    case BringUp(_) =>
  }

  lemma ClientStepFollows(w: World, e: Event)
    requires Sound(w) && Enabled(w, e) && ClientStep(e)
    ensures Follows(w, Next(w, e)) && Next(w, e).strays == w.strays
  {
    match e
    case Arrive(_, _, _) => ArriveFollows(w, e);
    case Push(k, works) => if works { PushFollows(w, k); } else { FinishFollows(w, k, NoReply); }
    case TakeReply(k) => FinishFollows(w, k, Next(w, e).clients[k].point.verdict);
    case GiveUp(k) => FinishFollows(w, k, NoReply);
    case Expire(_) => SameClientsFollow(w, Next(w, e));
    case Inject(_) => SameClientsFollow(w, Next(w, e));
  }

  /** Whatever happens, clients are followed, and a loop becomes a stray only by being replaced. */
  lemma NextFollows(w: World, e: Event)
    requires Sound(w) && Enabled(w, e) && !e.Stray?
    ensures Follows(w, Next(w, e))
    ensures Next(w, e).strays == w.strays || Next(w, e).strays == w.strays + [w.loop]
  {
    if ClientStep(e) {
      ClientStepFollows(w, e);
    } else if LoopStep(e) {
      LoopStepKeeps(w, e);
      SameClientsFollow(w, Next(w, e));
    } else {
      RunnerStepFollows(w, e);
    }
  }

  lemma RunnerStepFollows(w: World, e: Event)
    requires Enabled(w, e) && !e.Stray? && !ClientStep(e) && !LoopStep(e)
    ensures Follows(w, Next(w, e))
    ensures Next(w, e).strays == w.strays || Next(w, e).strays == w.strays + [w.loop]
  {
    if e.WorkerRun? { WorkerStepKeeps(w, e.works); }
    SameClientsFollow(w, Next(w, e));
  }

  /** A stray loop makes a step: the same as any loop's, in the world it sees. */
  lemma StrayKeeps(w: World, j: nat, step: Event)
    requires Inv(w) && Enabled(w, Stray(j, step))
    ensures Inv(Next(w, Stray(j, step)))
  {
    var v, w' := SeenBy(w, j), Next(w, Stray(j, step));
    LoopMoves(w, v);
    NextKeepsSound(v, step);
    var v' := Next(v, step);
    LoopStepKeeps(v, step);
    SameClientsFollow(w, w');
    SameClientsFollow(v', w');
    PointStays(w, w', w.loop);
    LoopMoves(v', w');
    PointStays(v', w', v'.loop);
    forall i | 0 <= i < |w'.strays| ensures PointOk(w', w'.strays[i]) {
      if i != j { PointStays(w, w', w.strays[i]); }
    }
  }

  lemma NextKeepsInv(w: World, e: Event)
    requires Inv(w) && Enabled(w, e)
    ensures Inv(Next(w, e))
  {
    if e.Stray? {
      StrayKeeps(w, e.j, e.step);
    } else {
      var w' := Next(w, e);
      NextKeepsSound(w, e);
      NextFollows(w, e);
      StraysFollow(w, w');
    }
  }

  lemma StraysFollow(w: World, w': World)
    requires Follows(w, w') && StraysOk(w) && LoopOk(w)
    requires w'.strays == w.strays || w'.strays == w.strays + [w.loop]
    ensures StraysOk(w')
  {
    forall i | 0 <= i < |w'.strays| ensures PointOk(w', w'.strays[i]) {
      PointStays(w, w', if i < |w.strays| then w.strays[i] else w.loop);
    }
  }

  lemma {:induction false} RunKeepsInv(w: World, es: seq<Event>)
    requires Inv(w) && IsRun(w, es)
    ensures Inv(After(w, es))
    decreases |es|
  {
    if es != [] {
      NextKeepsInv(w, es[0]);
      RunKeepsInv(Next(w, es[0]), es[1..]);
    }
  }

  lemma InitInv(w: World)
    requires Init(w)
    ensures Inv(w)
  {
    assert forall name :: Queue(w, name) == [];
  }

  // ---------------------------------------------------------------------------- what every run satisfies

  /** In every reachable world the input is, since the last driver start, the accepted batches in
      the order their requests were pushed; each was written while ready and commanded. */
  lemma InputIsAcceptedBatches(w0: World, es: seq<Event>)
    requires Init(w0) && IsRun(w0, es)
    ensures var w := After(w0, es);
            && w.input == Stream(w.log, w.epoch)
            && (forall i, j :: 0 <= i < j < |w.log| ==> w.log[i].ticket < w.log[j].ticket)
            && (forall i :: 0 <= i < |w.log| ==> w.log[i].ready && w.log[i].commanded && AllValid(w.log[i].batch))
  {
    InitInv(w0);
    RunKeepsInv(w0, es);
    var w := After(w0, es);
    var line := Line(w);
    forall i | 0 <= i < |w.log| ensures line[i] == w.log[i].ticket && EntryOk(w, w.log[i]) {
      assert w.log[i] in w.log;
    }
    forall i, j | 0 <= i < j < |w.log| ensures w.log[i].ticket < w.log[j].ticket {
      assert line[i] < line[j];
    }
  }

  /** Entry `j` is the one and only writing of client `k`'s own batch, while ready and commanded;
      if the driver has not been started since, its bytes are in the input in one piece. */
  ghost predicate WrittenAt(w: World, k: nat, j: nat)
    requires k < |w.clients| && j < |w.log|
  {
    var c, e := w.clients[k], w.log[j];
    && e.reqId == c.reqId && e.batch == c.batch && e.ready && e.commanded && AllValid(e.batch)
    && (forall i :: 0 <= i < |w.log| && w.log[i].reqId == c.reqId ==> i == j)
    && (e.epoch == w.epoch ==>
          w.input == Stream(w.log[..j], w.epoch) + Encoding(e.batch) + Stream(w.log[j+1..], w.epoch))
  }

  lemma StreamAround(log: seq<Entry>, j: nat, epoch: nat)
    requires j < |log| && log[j].epoch == epoch && AllValid(log[j].batch)
    ensures Stream(log, epoch) == Stream(log[..j], epoch) + Encoding(log[j].batch) + Stream(log[j+1..], epoch)
  {
    var e := log[j];
    assert log == log[..j] + [e] + log[j+1..];
    StreamAppend(log[..j] + [e], log[j+1..], epoch);
    StreamAppend(log[..j], [e], epoch);
    StreamOne(e, epoch);
  }

  /** At most one entry carries a client's id, because tickets along the log are distinct. */
  lemma OneEntryEach(w: World, k: nat, i: nat, j: nat)
    requires LogOk(w) && TicketsOk(w) && k < |w.clients| && i < |w.log| && j < |w.log|
    requires w.log[i].reqId == w.log[j].reqId == w.clients[k].reqId
    ensures i == j
  {
    assert w.log[i] in w.log && w.log[j] in w.log;
    assert Line(w)[i] == w.log[i].ticket && Line(w)[j] == w.log[j].ticket;
  }

  /** A client told of success had its batch written, once. */
  lemma SuccessMeansWrittenOnce(w0: World, es: seq<Event>, k: nat)
    requires Init(w0) && IsRun(w0, es) && k < |After(w0, es).clients|
    requires After(w0, es).clients[k].point == Done(Accepted)
    ensures exists j :: 0 <= j < |After(w0, es).log| && WrittenAt(After(w0, es), k, j)
  {
    InitInv(w0);
    RunKeepsInv(w0, es);
    var w := After(w0, es);
    var id := w.clients[k].reqId;
    assert AnswerOk(w, id, true);
    var e :| e in w.log && e.reqId == id;
    var j :| 0 <= j < |w.log| && w.log[j] == e;
    assert EntryOk(w, e);
    forall i | 0 <= i < |w.log| && w.log[i].reqId == id ensures i == j {
      OneEntryEach(w, k, i, j);
    }
    if e.epoch == w.epoch {
      StreamAround(w.log, j, w.epoch);
    }
    assert WrittenAt(w, k, j);
  }

  /** The reply a client takes is a reply to that very client, though its id is never checked. */
  lemma RepliesAreOnesOwn(w0: World, es: seq<Event>, k: nat)
    requires Init(w0) && IsRun(w0, es) && Enabled(After(w0, es), TakeReply(k))
    ensures var w := After(w0, es);
            var m := Queue(w, RespQueueName(w.clients[k].reqId))[0].msg;
            m.Response? && m.reqId == w.clients[k].reqId
  {
    InitInv(w0);
    RunKeepsInv(w0, es);
    TakenReply(After(w0, es), k);
  }

  /** A client whose batch is empty or holds an invalid command never hears back. */
  lemma MalformedBatchGetsNoReply(w0: World, es: seq<Event>, k: nat)
    requires Init(w0) && IsRun(w0, es) && k < |After(w0, es).clients|
    requires After(w0, es).clients[k].batch == [] || !AllValid(After(w0, es).clients[k].batch)
    ensures var w := After(w0, es);
            && w.clients[k].point != Done(Accepted) && w.clients[k].point != Done(Refused)
            && !Enabled(w, TakeReply(k))
  {
    InitInv(w0);
    RunKeepsInv(w0, es);
    var w := After(w0, es);
    if Enabled(w, TakeReply(k)) {
      TakenReply(w, k);
    }
  }

  // ---------------------------------------------------------------------------- when the loop ends

  /** Something that ends the loop: the handle is not obtained, a pop fails, or the check before a
      pop finds the context, cancelled at the start or since, over. */
  predicate Ends(cancelled: bool, es: seq<Event>)
    decreases |es|
  {
    es != [] &&
    (es[0] == LoopOpen(false) || es[0] == LoopPopFails || (es[0] == LoopCheck && cancelled)
     || Ends(cancelled || es[0] == Cancel, es[1..]))
  }

  lemma WorkerLoop(w: World, works: bool)
    requires w.worker != []
    ensures var w' := WorkerStep(w, works);
            w'.cancelled == w.cancelled && (w'.loop == w.loop || (w.loop.Awaiting? && w'.loop.Replying?))
  {
  }

  lemma PopLoop(w: World, submits: bool)
    requires Requests(w) != []
    ensures var w' := PopStep(w, submits);
            w'.cancelled == w.cancelled && (w'.loop == Checking || w'.loop.Awaiting? || w'.loop.Replying?)
  {
  }

  lemma EndedStep(w: World, e: Event)
    requires Enabled(w, e) && !e.NewRunner?
    ensures Next(w, e).loop == Ended <==>
            w.loop == Ended || e == LoopOpen(false) || e == LoopPopFails || (e == LoopCheck && w.cancelled)
    ensures Next(w, e).cancelled <==> w.cancelled || e == Cancel
  {
    match e
    case WorkerRun(works) => WorkerLoop(w, works);
    case LoopPop(submits) => PopLoop(w, submits);
    case _ =>
  }

  lemma {:induction false} EndedExact(w0: World, es: seq<Event>)
    requires IsRun(w0, es) && NewRunner !in es
    ensures After(w0, es).loop == Ended <==> w0.loop == Ended || Ends(w0.cancelled, es)
    decreases |es|
  {
    if es != [] {
      EndedStep(w0, es[0]);
      EndedExact(Next(w0, es[0]), es[1..]);
      assert es == [es[0]] + es[1..];
    }
  }

  predicate CheckAt(es: seq<Event>, j: int, k: int) {
    0 <= j < k < |es| && es[j] == Cancel && es[k] == LoopCheck
  }

  lemma {:induction false} EndsMeans(cancelled: bool, es: seq<Event>)
    ensures Ends(cancelled, es) <==>
            || LoopOpen(false) in es || LoopPopFails in es || (cancelled && LoopCheck in es)
            || exists j, k :: CheckAt(es, j, k)
    decreases |es|
  {
    if es != [] {
      var c, rest := cancelled || es[0] == Cancel, es[1..];
      EndsMeans(c, rest);
      assert es == [es[0]] + rest;
      if j, k :| CheckAt(rest, j, k) {
        assert CheckAt(es, j + 1, k + 1);
      }
      if es[0] == Cancel && LoopCheck in rest {
        var k :| 0 <= k < |rest| && rest[k] == LoopCheck;
        assert CheckAt(es, 0, k + 1);
      }
      if j, k :| CheckAt(es, j, k) {
        assert es[k] == rest[k-1];
        assert j > 0 ==> CheckAt(rest, j - 1, k - 1);
      }
    }
  }

  /** Exactly when a runner's receive loop has ended, in any run of one runner whose context was not
      cancelled at first: the queue handle was not obtained, a pop failed, or a check came after the
      cancellation. What was received plays no part in it. */
  lemma LoopEndedExact(w0: World, es: seq<Event>)
    requires IsRun(w0, es) && NewRunner !in es && !w0.cancelled && w0.loop != Ended
    ensures After(w0, es).loop == Ended <==>
            LoopOpen(false) in es || LoopPopFails in es || exists j, k :: CheckAt(es, j, k)
  {
    EndedExact(w0, es);
    EndsMeans(false, es);
  }

  /** So no message, however malformed and whoever sent it, ends the loop: as long as the handle is
      obtained, no pop fails and nobody cancels the runner, it goes on. */
  lemma ReceivedMessagesNeverEnd(w0: World, es: seq<Event>)
    requires IsRun(w0, es) && NewRunner !in es && !w0.cancelled && w0.loop != Ended
    requires LoopOpen(false) !in es && LoopPopFails !in es && Cancel !in es
    ensures After(w0, es).loop != Ended
  {
    LoopEndedExact(w0, es);
  }

  function LoopSteps(es: seq<Event>): nat {
    if es == [] then 0 else (if LoopStep(es[0]) then 1 else 0) + LoopSteps(es[1..])
  }

  /** How many steps a cancelled loop can still make. */
  function Left(l: Loop): nat {
    match l
    case Ended => 0
    case Checking => 1
    case Opening => 2
    case Replying(_, _) => 2
    case Awaiting(_) => 3
    case Popping => 4
  }

  lemma LeftStep(w: World, e: Event)
    requires Enabled(w, e) && !e.NewRunner? && w.cancelled
    ensures var w' := Next(w, e);
            w'.cancelled && Left(w'.loop) + (if LoopStep(e) then 1 else 0) <= Left(w.loop)
  {
    match e
    case WorkerRun(works) => WorkerLoop(w, works);
    case LoopPop(submits) => PopLoop(w, submits);
    case _ =>
  }

  /** Once cancelled, the loop makes at most four more steps, in whatever order everything else
      happens. */
  lemma {:induction false} CancelledLoopEnds(w0: World, es: seq<Event>)
    requires IsRun(w0, es) && NewRunner !in es && w0.cancelled
    ensures LoopSteps(es) + Left(After(w0, es).loop) <= Left(w0.loop) <= 4
    decreases |es|
  {
    if es != [] {
      assert es == [es[0]] + es[1..];
      LeftStep(w0, es[0]);
      CancelledLoopEnds(Next(w0, es[0]), es[1..]);
    }
  }

  /** Until it has ended it can make one without waiting for a message or for the worker. */
  lemma CancelledLoopMoves(w: World) returns (e: Event)
    requires w.cancelled && w.loop != Ended
    ensures Enabled(w, e) && LoopStep(e) && !e.LoopPop?
  {
    match w.loop
    case Opening => e := LoopOpen(false);
    case Checking => e := LoopCheck;
    case Popping => e := LoopPopFails;
    case Awaiting(_) => e := LoopGiveUp;
    case Replying(_, _) => e := LoopReply(false);
  }

  /** ... and so it can always end, by itself and without popping anything more. */
  lemma {:induction false} CancelledLoopCanEnd(w: World) returns (es: seq<Event>)
    requires w.cancelled
    ensures IsRun(w, es) && After(w, es).loop == Ended && |es| <= Left(w.loop)
    ensures forall k :: 0 <= k < |es| ==> LoopStep(es[k]) && !es[k].LoopPop?
    decreases Left(w.loop)
  {
    if w.loop == Ended {
      es := [];
    } else {
      var e := CancelledLoopMoves(w);
      LeftStep(w, e);
      var more := CancelledLoopCanEnd(Next(w, e));
      es := [e] + more;
    }
  }
}
