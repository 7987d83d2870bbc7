/** The proxy's request life cycle: any number of request handlers, one queue processor that
    releases the lock between looking at the head and removing it, and a goroutine for each
    request taken off the queue.  Every step is one critical section or one atomic update. */
module ProxyQueue {
  import opened RequestQueue
  import opened Sets

  type Server = nat

  datatype Config = Config(queueEnabled: bool, maxQueueSize: int, capacityGating: bool, maxRunningPerServer: int)

  /** What a request is counted as when its handler returns. */
  datatype Outcome = Forwarded | Queued | Rejected

  /** Where a request's handler is. */
  datatype Handler =
    | Selecting(passed: set<Server>)  // servers whose capacity check it has passed so far
    | Chosen(server: Server)
    | Running(server: Server)         // registered on the server, backend call in progress
    | Served
    | Fallback                        // no server, or the forward failed
    | Refused
    | Waiting                         // in the queue, or taken from it
    | Counted(outcome: Outcome)

  datatype Processor = Idle | Peeked(head: Id, seen: set<Server>) | Decided(head: Id, target: Server)

  /** Where the goroutine of a request taken off the queue is. */
  datatype Work = Starting(to: Server) | Calling(on: Server) | Returned | Closed

  datatype Worker = Worker(id: Id, work: Work)

  datatype State = State(
    queue: seq<Id>,
    processor: Processor,
    handlers: map<Id, Handler>,
    workers: seq<Worker>,
    tracked: map<Server, set<Id>>,    // each server's runningRequests
    handled: nat, forwarded: nat, queued: nat, rejected: nat,
    answered: set<Id>,                // requests whose direct forward succeeded
    admitted: seq<Id>,                // every request ever appended to the queue, in order
    closes: seq<Id>)                  // every close of a request's done channel, in order

  const INIT := State([], Idle, map[], [], map[], 0, 0, 0, 0, {}, [], [])

  // ----- the critical sections on running requests

  function TrackedOn(tracked: map<Server, set<Id>>, s: Server): set<Id> {
    if s in tracked then tracked[s] else {}
  }

  function Track(tracked: map<Server, set<Id>>, s: Server, r: Id): map<Server, set<Id>> {
    tracked[s := TrackedOn(tracked, s) + {r}]
  }

  function Untrack(tracked: map<Server, set<Id>>, s: Server, r: Id): map<Server, set<Id>> {
    tracked[s := TrackedOn(tracked, s) - {r}]
  }

  /** The gating part of serverHasCapacity; health and cache usage may refuse a server at any time. */
  predicate HasCapacity(cfg: Config, st: State, s: Server) {
    cfg.capacityGating && cfg.maxRunningPerServer > 0 ==> |TrackedOn(st.tracked, s)| < cfg.maxRunningPerServer
  }

  // ----- the steps

  datatype Step =
    | Arrive(r: Id)
    | Check(r: Id, s: Server)
    | Choose(r: Id, s: Server)
    | NoServer(r: Id)
    | BuildFails(r: Id)
    | Register(r: Id)
    | Answer(r: Id, ok: bool)
    | CountForwarded(r: Id)
    | TryEnqueue(r: Id)
    | CountRejected(r: Id)
    | Leave(r: Id)
    | Peek
    | PeekCheck(s: Server)
    | PeekNone
    | Decide(s: Server)
    | Pop
    | WorkFails(i: nat)
    | WorkRegister(i: nat)
    | WorkAnswer(i: nat)
    | Close(i: nat)

  predicate In(st: State, r: Id, h: Handler) {
    r in st.handlers && st.handlers[r] == h
  }

  predicate Enabled(cfg: Config, st: State, step: Step) {
    match step
    case Arrive(r) => r !in st.handlers
    case Check(r, s) => r in st.handlers && st.handlers[r].Selecting? && HasCapacity(cfg, st, s)
    case Choose(r, s) => r in st.handlers && st.handlers[r].Selecting? && s in st.handlers[r].passed
    case NoServer(r) => In(st, r, Selecting({}))
    case BuildFails(r) => r in st.handlers && st.handlers[r].Chosen?
    case Register(r) => r in st.handlers && st.handlers[r].Chosen?
    case Answer(r, _) => r in st.handlers && st.handlers[r].Running?
    case CountForwarded(r) => In(st, r, Served)
    case TryEnqueue(r) => In(st, r, Fallback) && cfg.queueEnabled
    case CountRejected(r) => In(st, r, Refused) || (In(st, r, Fallback) && !cfg.queueEnabled)
    case Leave(r) => In(st, r, Waiting)
    case Peek => st.processor.Idle? && st.queue != []
    case PeekCheck(s) => st.processor.Peeked? && HasCapacity(cfg, st, s)
    case PeekNone => st.processor.Peeked? && st.processor.seen == {}
    case Decide(s) => st.processor.Peeked? && s in st.processor.seen
    case Pop => st.processor.Decided?
    case WorkFails(i) => i < |st.workers| && st.workers[i].work.Starting?
    case WorkRegister(i) => i < |st.workers| && st.workers[i].work.Starting?
    case WorkAnswer(i) => i < |st.workers| && st.workers[i].work.Calling?
    case Close(i) => i < |st.workers| && st.workers[i].work.Returned?
  }

  function Move(st: State, r: Id, h: Handler): State {
    st.(handlers := st.handlers[r := h])
  }

  function Turn(st: State, i: nat, w: Work): State
    requires i < |st.workers|
  {
    st.(workers := st.workers[i := st.workers[i].(work := w)])
  }

  function Do(cfg: Config, st: State, step: Step): State
    requires Enabled(cfg, st, step)
  {
    match step
    case Arrive(r) => Move(st, r, Selecting({})).(handled := st.handled + 1)
    case Check(r, s) => Move(st, r, Selecting(st.handlers[r].passed + {s}))
    case Choose(r, s) => Move(st, r, Chosen(s))
    case NoServer(r) => Move(st, r, Fallback)
    case BuildFails(r) => Move(st, r, Fallback)
    case Register(r) =>
      var s := st.handlers[r].server;
      Move(st, r, Running(s)).(tracked := Track(st.tracked, s, r))
    case Answer(r, ok) =>
      var s := st.handlers[r].server;
      Move(st, r, if ok then Served else Fallback)
      .(tracked := Untrack(st.tracked, s, r), answered := if ok then st.answered + {r} else st.answered)
    case CountForwarded(r) => Move(st, r, Counted(Forwarded)).(forwarded := st.forwarded + 1)
    case TryEnqueue(r) =>
      var (ok, queue) := Admit(st.queue, cfg.maxQueueSize, r);
      if ok then Move(st, r, Waiting).(queue := queue, admitted := st.admitted + [r]) else Move(st, r, Refused)
    case CountRejected(r) => Move(st, r, Counted(Rejected)).(rejected := st.rejected + 1)
    case Leave(r) => Move(st, r, Counted(Queued)).(queued := st.queued + 1)
    case Peek => st.(processor := Peeked(st.queue[0], {}))
    case PeekCheck(s) => st.(processor := st.processor.(seen := st.processor.seen + {s}))
    case PeekNone => st.(processor := Idle)
    case Decide(s) => st.(processor := Decided(st.processor.head, s))
    case Pop =>
      var Decided(r, s) := st.processor;
      st.(queue := PopIfHead(st.queue, r), processor := Idle, workers := st.workers + [Worker(r, Starting(s))])
    case WorkFails(i) => Turn(st, i, Returned)
    case WorkRegister(i) =>
      var s := st.workers[i].work.to;
      Turn(st, i, Calling(s)).(tracked := Track(st.tracked, s, st.workers[i].id))
    case WorkAnswer(i) =>
      var s := st.workers[i].work.on;
      Turn(st, i, Returned).(tracked := Untrack(st.tracked, s, st.workers[i].id))
    case Close(i) => Turn(st, i, Closed).(closes := st.closes + [st.workers[i].id])
  }

  // ----- runs

  /** The states of a run that starts empty and takes the given steps. */
  ghost predicate Run(cfg: Config, steps: seq<Step>, states: seq<State>) {
    && |states| == |steps| + 1 && states[0] == INIT
    && forall i {:trigger steps[i]} | 0 <= i < |steps| :: Next(cfg, states[i], steps[i], states[i + 1])
  }

  ghost predicate Next(cfg: Config, st: State, step: Step, next: State) {
    Enabled(cfg, st, step) && next == Do(cfg, st, step)
  }

  // ----- the invariant

  function Ids(ws: seq<Worker>): seq<Id> {
    seq(|ws|, i requires 0 <= i < |ws| => ws[i].id)
  }

  predicate WasQueued(h: Handler) {
    h.Waiting? || h == Counted(Queued)
  }

  predicate WasServed(h: Handler) {
    h.Served? || h == Counted(Forwarded)
  }

  /** Requests leave the queue in the order they were admitted, each once. */
  ghost predicate Fifo(st: State) {
    InOrder(st) && AdmittedExactly(st)
  }

  ghost predicate InOrder(st: State) {
    Ids(st.workers) + st.queue == st.admitted && Distinct(st.admitted)
  }

  /** A request was admitted exactly when its handler waits for it, or did and was counted so. */
  ghost predicate AdmittedExactly(st: State) {
    && (forall r | r in st.admitted :: r in st.handlers)
    && (forall r | r in st.handlers :: r in st.admitted <==> WasQueued(st.handlers[r]))
  }

  /** The processor's request is still at the head of the queue. */
  ghost predicate HeadKept(st: State) {
    !st.processor.Idle? ==> st.queue != [] && st.queue[0] == st.processor.head
  }

  ghost predicate Bounded(cfg: Config, st: State) {
    cfg.maxQueueSize > 0 ==> |st.queue| <= cfg.maxQueueSize
  }

  /** done is closed only by the request's own goroutine, as its last step. */
  ghost predicate ClosedOnce(st: State) {
    && Distinct(st.closes)
    && forall i {:trigger st.workers[i]} | 0 <= i < |st.workers| ::
         st.workers[i].id in st.closes <==> st.workers[i].work.Closed?
  }

  ghost predicate ClosesKnown(st: State) {
    forall r | r in st.closes :: r in Ids(st.workers)
  }

  function Uncounted(handlers: map<Id, Handler>): set<Id> {
    set r | r in handlers && !handlers[r].Counted?
  }

  function CountedAs(handlers: map<Id, Handler>, o: Outcome): set<Id> {
    set r | r in handlers && handlers[r] == Counted(o)
  }

  /** The counters count the handlers with that outcome, and every other handler is still to be counted. */
  ghost predicate Conserved(st: State) {
    && st.forwarded == |CountedAs(st.handlers, Forwarded)|
    && st.queued == |CountedAs(st.handlers, Queued)|
    && st.rejected == |CountedAs(st.handlers, Rejected)|
    && st.handled == st.forwarded + st.queued + st.rejected + |Uncounted(st.handlers)|
  }

  /** A request is counted as forwarded only if a backend answered its direct attempt. */
  ghost predicate AnsweredExactly(st: State) {
    && (forall r | r in st.answered :: r in st.handlers)
    && (forall r | r in st.handlers :: r in st.answered <==> WasServed(st.handlers[r]))
  }

  ghost predicate WorkerCalls(ws: seq<Worker>, s: Server, r: Id) {
    exists i :: 0 <= i < |ws| && ws[i] == Worker(r, Calling(s))
  }

  /** The backend call of r to s is in progress. */
  ghost predicate Calls(st: State, s: Server, r: Id) {
    In(st, r, Running(s)) || WorkerCalls(st.workers, s, r)
  }

  ghost predicate TrackedExactly(st: State) {
    forall s: Server, r: Id {:trigger Calls(st, s, r)} :: r in TrackedOn(st.tracked, s) <==> Calls(st, s, r)
  }

  ghost predicate Inv(cfg: Config, st: State) {
    && Fifo(st) && HeadKept(st) && Bounded(cfg, st) && ClosedOnce(st) && ClosesKnown(st)
    && Conserved(st) && AnsweredExactly(st) && TrackedExactly(st)
  }

  // ----- every step keeps it

  lemma SameIds(st: State, i: nat, w: Work)
    requires i < |st.workers|
    ensures Ids(Turn(st, i, w).workers) == Ids(st.workers)
  {
  }

  lemma OrderStep(cfg: Config, st: State, step: Step)
    requires Fifo(st) && HeadKept(st) && Enabled(cfg, st, step)
    ensures InOrder(Do(cfg, st, step))
  {
    match step
    case Pop =>
      var r := st.processor.head;
      assert Ids(Do(cfg, st, step).workers) == Ids(st.workers) + [r];
      assert [r] + st.queue[1..] == st.queue;
    case WorkFails(i) => SameIds(st, i, Returned);
    case WorkRegister(i) => SameIds(st, i, Calling(st.workers[i].work.to));
    case WorkAnswer(i) => SameIds(st, i, Returned);
    case Close(i) => SameIds(st, i, Closed);
    case TryEnqueue(r) =>
      assert r !in st.admitted;
    case _ =>
  }

  lemma AdmittedStep(cfg: Config, st: State, step: Step)
    requires AdmittedExactly(st) && Enabled(cfg, st, step)
    ensures AdmittedExactly(Do(cfg, st, step))
  {
  }

  lemma HeadStep(cfg: Config, st: State, step: Step)
    requires HeadKept(st) && Bounded(cfg, st) && Enabled(cfg, st, step)
    ensures HeadKept(Do(cfg, st, step)) && Bounded(cfg, Do(cfg, st, step))
  {
  }

  /** No two goroutines work on the same request, and its handler is past the direct attempt. */
  lemma WorkersApart(st: State)
    requires Fifo(st)
    ensures forall i, j | 0 <= i < j < |st.workers| :: st.workers[i].id != st.workers[j].id
    ensures forall i | 0 <= i < |st.workers| :: st.workers[i].id in st.admitted
    ensures forall i | 0 <= i < |st.workers| :: st.workers[i].id !in st.queue
  {
    var ids := Ids(st.workers);
    assert forall i | 0 <= i < |ids| :: st.admitted[i] == st.workers[i].id;
    assert forall k | 0 <= k < |st.queue| :: st.admitted[|ids| + k] == st.queue[k];
  }

  lemma KnownStep(cfg: Config, st: State, step: Step)
    requires ClosesKnown(st) && Enabled(cfg, st, step)
    ensures ClosesKnown(Do(cfg, st, step))
  {
    match step
    case Pop => assert Ids(Do(cfg, st, step).workers) == Ids(st.workers) + [st.processor.head];
    case WorkFails(i) => SameIds(st, i, Returned);
    case WorkRegister(i) => SameIds(st, i, Calling(st.workers[i].work.to));
    case WorkAnswer(i) => SameIds(st, i, Returned);
    case Close(i) =>
      SameIds(st, i, Closed);
      assert Ids(st.workers)[i] == st.workers[i].id;
    case _ =>
  }

  lemma ClosedStep(cfg: Config, st: State, step: Step)
    requires Fifo(st) && HeadKept(st) && ClosedOnce(st) && ClosesKnown(st) && Enabled(cfg, st, step)
    ensures ClosedOnce(Do(cfg, st, step))
  {
    WorkersApart(st);
    match step
    case Pop =>
      assert st.processor.head !in Ids(st.workers);
      assert st.processor.head !in st.closes;
    case Close(i) =>
      assert st.workers[i].id !in st.closes;
    case _ =>
  }

  lemma MoveCount(st: State, r: Id, h: Handler)
    ensures var was, now := |Uncounted(st.handlers)|, |Uncounted(Move(st, r, h).handlers)|;
            if r in st.handlers && !st.handlers[r].Counted? then
              now == if h.Counted? then was - 1 else was
            else
              now == if h.Counted? then was else was + 1
  {
    var was, now := Uncounted(st.handlers), Uncounted(Move(st, r, h).handlers);
    if h.Counted? {
      SizeWithout(was, r);
      assert now == was - {r};
    } else {
      SizeWith(was, r);
      assert now == was + {r};
    }
  }

  lemma MoveTally(st: State, r: Id, h: Handler, o: Outcome)
    requires r in st.handlers ==> !st.handlers[r].Counted?
    ensures |CountedAs(Move(st, r, h).handlers, o)|
            == |CountedAs(st.handlers, o)| + if h == Counted(o) then 1 else 0
  {
    var was, now := CountedAs(st.handlers, o), CountedAs(Move(st, r, h).handlers, o);
    SizeWith(was, r);
    assert r !in was;
    assert now == if h == Counted(o) then was + {r} else was;
  }

  /** The handler a step moves, and where to. */
  function MovedTo(cfg: Config, st: State, step: Step): (Id, Handler)
    requires Enabled(cfg, st, step)
    requires Do(cfg, st, step).handlers != st.handlers
  {
    var r := match step
             case Arrive(r) => r
             case Check(r, _) => r
             case Choose(r, _) => r
             case NoServer(r) => r
             case BuildFails(r) => r
             case Register(r) => r
             case Answer(r, _) => r
             case CountForwarded(r) => r
             case TryEnqueue(r) => r
             case CountRejected(r) => r
             case Leave(r) => r;
    (r, Do(cfg, st, step).handlers[r])
  }

  lemma CountStep(cfg: Config, st: State, step: Step)
    requires Conserved(st) && Enabled(cfg, st, step)
    ensures Conserved(Do(cfg, st, step))
  {
    var next := Do(cfg, st, step);
    if next.handlers != st.handlers {
      var (r, h) := MovedTo(cfg, st, step);
      MoveCount(st, r, h);
      MoveTally(st, r, h, Forwarded);
      MoveTally(st, r, h, Queued);
      MoveTally(st, r, h, Rejected);
    }
  }

  lemma AnsweredStep(cfg: Config, st: State, step: Step)
    requires AnsweredExactly(st) && Enabled(cfg, st, step)
    ensures AnsweredExactly(Do(cfg, st, step))
  {
  }

  lemma TurnCalls(ws: seq<Worker>, i: nat, w: Work, s: Server, r: Id)
    requires i < |ws| && forall j, k | 0 <= j < k < |ws| :: ws[j].id != ws[k].id
    ensures WorkerCalls(ws[i := ws[i].(work := w)], s, r) <==>
            if ws[i].id == r then w == Calling(s) else WorkerCalls(ws, s, r)
    ensures ws[i].id == r ==> (WorkerCalls(ws, s, r) <==> ws[i].work == Calling(s))
  {
    var now := ws[i := ws[i].(work := w)];
    if j :| 0 <= j < |ws| && ws[j] == Worker(r, Calling(s)) {
      assert j != i ==> now[j] == ws[j];
    }
    if j :| 0 <= j < |now| && now[j] == Worker(r, Calling(s)) {
      assert j != i ==> now[j] == ws[j];
    }
    if w == Calling(s) {
      assert now[i] == Worker(ws[i].id, w);
    }
  }

  lemma NewWorker(ws: seq<Worker>, w: Worker, s: Server, r: Id)
    requires w.work.Starting?
    ensures WorkerCalls(ws + [w], s, r) <==> WorkerCalls(ws, s, r)
  {
    if j :| 0 <= j < |ws| && ws[j] == Worker(r, Calling(s)) {
      assert (ws + [w])[j] == Worker(r, Calling(s));
    }
  }

  predicate IsWork(step: Step) {
    step.WorkFails? || step.WorkRegister? || step.WorkAnswer? || step.Close?
  }

  lemma WorkCallsStep(cfg: Config, st: State, step: Step, s: Server, r: Id)
    requires Fifo(st) && TrackedExactly(st) && Enabled(cfg, st, step) && IsWork(step)
    ensures r in TrackedOn(Do(cfg, st, step).tracked, s) <==> Calls(Do(cfg, st, step), s, r)
  {
    WorkersApart(st);
    assert r in TrackedOn(st.tracked, s) <==> Calls(st, s, r);
    match step
    case WorkFails(i) => TurnCalls(st.workers, i, Returned, s, r);
    case WorkRegister(i) => TurnCalls(st.workers, i, Calling(st.workers[i].work.to), s, r);
    case WorkAnswer(i) => TurnCalls(st.workers, i, Returned, s, r);
    case Close(i) => TurnCalls(st.workers, i, Closed, s, r);
  }

  lemma CallsStep(cfg: Config, st: State, step: Step, s: Server, r: Id)
    requires Fifo(st) && HeadKept(st) && TrackedExactly(st) && Enabled(cfg, st, step) && !IsWork(step)
    ensures r in TrackedOn(Do(cfg, st, step).tracked, s) <==> Calls(Do(cfg, st, step), s, r)
  {
    WorkersApart(st);
    assert r in TrackedOn(st.tracked, s) <==> Calls(st, s, r);
    assert WorkerCalls(st.workers, s, r) ==> r in st.admitted;
    if step.Pop? {
      NewWorker(st.workers, Worker(st.processor.head, Starting(st.processor.target)), s, r);
    }
  }

  lemma TrackedStep(cfg: Config, st: State, step: Step)
    requires Fifo(st) && HeadKept(st) && TrackedExactly(st) && Enabled(cfg, st, step)
    ensures TrackedExactly(Do(cfg, st, step))
  {
    forall s: Server, r: Id ensures r in TrackedOn(Do(cfg, st, step).tracked, s) <==> Calls(Do(cfg, st, step), s, r) {
      if IsWork(step) {
        WorkCallsStep(cfg, st, step, s, r);
      } else {
        CallsStep(cfg, st, step, s, r);
      }
    }
  }
}
