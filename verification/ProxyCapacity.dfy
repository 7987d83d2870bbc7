/** How many requests can run on one server of the proxy: selecting a server and registering on it
    are separate steps. */
module ProxyCapacity {
  import opened Invariants
  import opened ProxyQueue
  import opened ProxyRuns
  import opened RequestQueue
  import opened Sets

  predicate HandlerBetween(h: Handler, s: Server) {
    match h
    case Selecting(passed) => s in passed
    case Chosen(c) => c == s
    case _ => false
  }

  predicate ProcessorBetween(p: Processor, s: Server) {
    match p
    case Idle => false
    case Peeked(_, seen) => s in seen
    case Decided(_, t) => t == s
  }

  function HandlersBetween(handlers: map<Id, Handler>, s: Server): set<Id> {
    set r | r in handlers && HandlerBetween(handlers[r], s)
  }

  function WorkersBetween(ws: seq<Worker>, s: Server): set<nat> {
    set i | 0 <= i < |ws| && ws[i].work == Starting(s)
  }

  /** How many handlers and goroutines, and whether the processor, have passed s's capacity check and
      may still register on s. */
  function Between(st: State, s: Server): nat {
    |HandlersBetween(st.handlers, s)| + |WorkersBetween(st.workers, s)|
    + if ProcessorBetween(st.processor, s) then 1 else 0
  }

  /** Running and pending requests on s. */
  function Load(st: State, s: Server): nat {
    |TrackedOn(st.tracked, s)| + Between(st, s)
  }

  /** A handler or the processor passes s's check unless capacity is gated and s runs as many requests as
      a positive limit allows. */
  lemma CheckIsExact(cfg: Config, st: State, r: Id, s: Server)
    requires r in st.handlers && st.handlers[r].Selecting?
    ensures var full := cfg.capacityGating && 0 < cfg.maxRunningPerServer <= |TrackedOn(st.tracked, s)|;
            && (Enabled(cfg, st, Check(r, s)) <==> !full)
            && (st.processor.Peeked? ==> (Enabled(cfg, st, PeekCheck(s)) <==> !full))
  {
  }

  lemma Grow(tracked: map<Server, set<Id>>, s: Server, r: Id)
    ensures |TrackedOn(Track(tracked, s, r), s)| <= |TrackedOn(tracked, s)| + 1
  {
    SizeWith(TrackedOn(tracked, s), r);
  }

  lemma TurnLeaves(ws: seq<Worker>, i: nat, w: Work, s: Server)
    requires i < |ws| && !w.Starting?
    ensures WorkersBetween(ws[i := ws[i].(work := w)], s) == WorkersBetween(ws, s) - {i}
  {
  }

  lemma TurnBetween(ws: seq<Worker>, i: nat, w: Work, s: Server)
    requires i < |ws| && ws[i].work == Starting(s) && !w.Starting?
    ensures |WorkersBetween(ws[i := ws[i].(work := w)], s)| == |WorkersBetween(ws, s)| - 1
  {
    SizeWithout(WorkersBetween(ws, s), i);
    TurnLeaves(ws, i, w, s);
  }

  lemma StartBetween(ws: seq<Worker>, w: Worker, s: Server)
    requires w.work == Starting(s)
    ensures |WorkersBetween(ws + [w], s)| == |WorkersBetween(ws, s)| + 1
  {
    SizeWith(WorkersBetween(ws, s), |ws|);
    assert WorkersBetween(ws + [w], s) == WorkersBetween(ws, s) + {|ws|};
  }

  lemma MoveBetween(handlers: map<Id, Handler>, r: Id, h: Handler, s: Server)
    requires r in handlers && HandlerBetween(handlers[r], s) && !HandlerBetween(h, s)
    ensures |HandlersBetween(handlers[r := h], s)| == |HandlersBetween(handlers, s)| - 1
  {
    SizeWithout(HandlersBetween(handlers, s), r);
    assert HandlersBetween(handlers[r := h], s) == HandlersBetween(handlers, s) - {r};
  }

  lemma RegisterTrades(cfg: Config, st: State, r: Id, s: Server)
    requires In(st, r, Chosen(s))
    ensures Load(Do(cfg, st, Register(r)), s) <= Load(st, s)
  {
    MoveBetween(st.handlers, r, Running(s), s);
    Grow(st.tracked, s, r);
  }

  lemma WorkTrades(cfg: Config, st: State, i: nat, s: Server)
    requires i < |st.workers| && st.workers[i].work == Starting(s)
    ensures Load(Do(cfg, st, WorkRegister(i)), s) <= Load(st, s)
  {
    TurnBetween(st.workers, i, Calling(s), s);
    Grow(st.tracked, s, st.workers[i].id);
  }

  lemma PopTrades(cfg: Config, st: State, s: Server)
    requires st.processor.Decided? && st.processor.target == s
    ensures Load(Do(cfg, st, Pop), s) <= Load(st, s)
  {
    StartBetween(st.workers, Worker(st.processor.head, Starting(s)), s);
  }

  /** The step registers a request on s. */
  predicate RegistersOn(st: State, step: Step, s: Server) {
    match step
    case Register(r) => In(st, r, Chosen(s))
    case WorkRegister(i) => i < |st.workers| && st.workers[i].work == Starting(s)
    case _ => false
  }

  /** The step passes s's capacity check. */
  predicate PassesCheck(step: Step, s: Server) {
    step == PeekCheck(s) || (step.Check? && step.s == s)
  }

  lemma OthersShrink(cfg: Config, st: State, step: Step, s: Server)
    requires Enabled(cfg, st, step) && !RegistersOn(st, step, s)
    ensures TrackedOn(Do(cfg, st, step).tracked, s) <= TrackedOn(st.tracked, s)
  {
  }

  lemma BetweenShrinks(cfg: Config, st: State, step: Step, s: Server)
    requires Enabled(cfg, st, step) && !PassesCheck(step, s) && !RegistersOn(st, step, s)
    requires !(step.Pop? && st.processor.target == s)
    ensures var next := Do(cfg, st, step);
            && HandlersBetween(next.handlers, s) <= HandlersBetween(st.handlers, s)
            && WorkersBetween(next.workers, s) <= WorkersBetween(st.workers, s)
            && (ProcessorBetween(next.processor, s) ==> ProcessorBetween(st.processor, s))
  {
  }

  /** Only passing a capacity check can raise the load of a server. */
  lemma LoadStep(cfg: Config, st: State, step: Step, next: State, s: Server)
    requires Next(cfg, st, step, next) && !PassesCheck(step, s)
    ensures Load(next, s) <= Load(st, s)
  {
    if step.Register? && RegistersOn(st, step, s) {
      RegisterTrades(cfg, st, step.r, s);
    } else if step.WorkRegister? && RegistersOn(st, step, s) {
      WorkTrades(cfg, st, step.i, s);
    } else if step.Pop? && st.processor.target == s {
      PopTrades(cfg, st, s);
    } else {
      BetweenShrinks(cfg, st, step, s);
      OthersShrink(cfg, st, step, s);
      SubsetSize(HandlersBetween(next.handlers, s), HandlersBetween(st.handlers, s));
      SubsetSize(WorkersBetween(next.workers, s), WorkersBetween(st.workers, s));
      SubsetSize(TrackedOn(next.tracked, s), TrackedOn(st.tracked, s));
    }
  }

  predicate Gated(cfg: Config) {
    cfg.capacityGating && cfg.maxRunningPerServer > 0
  }

  lemma LoadBound(cfg: Config, st: State, step: Step, next: State, s: Server, p: nat)
    requires Gated(cfg) && Next(cfg, st, step, next) && p >= 1
    requires Load(st, s) <= cfg.maxRunningPerServer + p - 1 && Between(next, s) <= p
    ensures Load(next, s) <= cfg.maxRunningPerServer + p - 1
  {
    if PassesCheck(step, s) {
      assert HasCapacity(cfg, st, s) && next.tracked == st.tracked;
    } else {
      LoadStep(cfg, st, step, next, s);
    }
  }

  lemma EmptyLoad(s: Server)
    ensures Load(INIT, s) == 0
  {
    assert HandlersBetween(INIT.handlers, s) == {} && WorkersBetween(INIT.workers, s) == {};
  }

  /** If never more than p requests are between passing s's check and registering on s, then running
      and pending requests on s never exceed the limit by more than p - 1. */
  lemma {:induction false} CapacityOvershoot(cfg: Config, steps: seq<Step>, states: seq<State>, s: Server, p: nat,
                                             k: nat)
    requires Run(cfg, steps, states) && k < |states| && Gated(cfg) && p >= 1
    requires forall j {:trigger Between(states[j], s)} | 0 <= j <= k :: Between(states[j], s) <= p
    ensures Load(states[k], s) <= cfg.maxRunningPerServer + p - 1
  {
    if k > 0 {
      CapacityOvershoot(cfg, steps, states, s, p, k - 1);
      RunStep(cfg, steps, states, k - 1);
      LoadBound(cfg, states[k - 1], steps[k - 1], states[k], s, p);
    } else {
      EmptyLoad(s);
    }
  }

  // ----- when the running limit holds

  /** A request is never registered twice on a server. */
  lemma RegistersAnew(cfg: Config, st: State, step: Step, s: Server)
    requires Inv(cfg, st) && Enabled(cfg, st, step) && RegistersOn(st, step, s)
    ensures |TrackedOn(Do(cfg, st, step).tracked, s)| == |TrackedOn(st.tracked, s)| + 1
  {
    WorkersApart(st);
    var r := if step.Register? then step.r else st.workers[step.i].id;
    assert Calls(st, s, r) <==> r in TrackedOn(st.tracked, s);
    assert !WorkerCalls(st.workers, s, r) && !In(st, r, Running(s));
    assert TrackedOn(Do(cfg, st, step).tracked, s) == TrackedOn(st.tracked, s) + {r};
  }

  /** The one step that takes a server over its limit: a registration on a server that is full. */
  lemma LimitStep(cfg: Config, st: State, step: Step, next: State, s: Server)
    requires Gated(cfg) && Inv(cfg, st) && Next(cfg, st, step, next)
    requires |TrackedOn(st.tracked, s)| <= cfg.maxRunningPerServer
    ensures |TrackedOn(next.tracked, s)| > cfg.maxRunningPerServer
            <==> RegistersOn(st, step, s) && |TrackedOn(st.tracked, s)| == cfg.maxRunningPerServer
  {
    if RegistersOn(st, step, s) {
      RegistersAnew(cfg, st, step, s);
    } else {
      OthersShrink(cfg, st, step, s);
      SubsetSize(TrackedOn(next.tracked, s), TrackedOn(st.tracked, s));
    }
  }

  predicate RunningWithin(cfg: Config, states: seq<State>, s: Server, j: nat)
    requires j < |states|
  {
    |TrackedOn(states[j].tracked, s)| <= cfg.maxRunningPerServer
  }

  /** Step j does not register a request on s, or finds s below its limit when it does. */
  predicate RoomToRegister(cfg: Config, steps: seq<Step>, states: seq<State>, s: Server, j: nat)
    requires j < |steps| < |states|
  {
    RegistersOn(states[j], steps[j], s) ==> |TrackedOn(states[j].tracked, s)| < cfg.maxRunningPerServer
  }

  lemma LimitStepAt(cfg: Config, steps: seq<Step>, states: seq<State>, s: Server, k: nat)
    requires Run(cfg, steps, states) && k < |steps| && Gated(cfg) && RunningWithin(cfg, states, s, k)
    ensures RunningWithin(cfg, states, s, k + 1) <==> RoomToRegister(cfg, steps, states, s, k)
  {
    RunKeepsInv(cfg, steps, states, k);
    RunStep(cfg, steps, states, k);
    LimitStep(cfg, states[k], steps[k], states[k + 1], s);
  }

  /** Throughout a run a server stays within its limit if and only if every registration finds it
      below the limit: the test that was passed when the server was chosen has to hold again. */
  lemma LimitHolds(cfg: Config, steps: seq<Step>, states: seq<State>, s: Server, k: nat)
    requires Run(cfg, steps, states) && k < |states| && Gated(cfg)
    ensures (forall j | 0 <= j <= k :: RunningWithin(cfg, states, s, j))
            <==> (forall j | 0 <= j < k :: RoomToRegister(cfg, steps, states, s, j))
  {
    var holds := (j: nat) => j <= k && RunningWithin(cfg, states, s, j);
    var safe := (j: nat) => j < k && RoomToRegister(cfg, steps, states, s, j);
    assert TrackedOn(states[0].tracked, s) == {};
    forall j | 0 <= j < k && holds(j) ensures holds(j + 1) <==> safe(j) {
      LimitStepAt(cfg, steps, states, s, j);
    }
    HoldsIffSafe(holds, safe, k);
    assert forall j | 0 <= j <= k :: holds(j) <==> RunningWithin(cfg, states, s, j);
    assert forall j | 0 <= j < k :: safe(j) <==> RoomToRegister(cfg, steps, states, s, j);
  }

  lemma Take(cfg: Config, steps: seq<Step>, states: seq<State>, step: Step)
    returns (steps': seq<Step>, states': seq<State>)
    requires Run(cfg, steps, states) && Enabled(cfg, states[|steps|], step)
    ensures Run(cfg, steps', states') && states'[|steps'|] == Do(cfg, states[|steps|], step)
  {
    steps', states' := steps + [step], states + [Do(cfg, states[|steps|], step)];
  }

  /** A request arrives, passes server 0's check and chooses it, but has not registered yet. */
  lemma Chooses(cfg: Config, steps: seq<Step>, states: seq<State>, r: Id)
    returns (steps': seq<Step>, states': seq<State>)
    requires Run(cfg, steps, states) && r !in states[|steps|].handlers && HasCapacity(cfg, states[|steps|], 0)
    ensures Run(cfg, steps', states') && states'[|steps'|].tracked == states[|steps|].tracked
    ensures states'[|steps'|].handlers == states[|steps|].handlers[r := Chosen(0)]
  {
    steps', states' := Take(cfg, steps, states, Arrive(r));
    steps', states' := Take(cfg, steps', states', Check(r, 0));
    steps', states' := Take(cfg, steps', states', Choose(r, 0));
  }

  /** The limit itself is not an invariant: two requests that both pass the check before either
      registers run on a server limited to one. */
  lemma LimitCanBeExceeded()
    ensures exists cfg: Config, steps: seq<Step>, states: seq<State> ::
              Run(cfg, steps, states) && Gated(cfg) && cfg.maxRunningPerServer == 1
              && TrackedOn(states[|steps|].tracked, 0) == {0, 1}
  {
    var cfg := Config(true, 0, true, 1);
    var steps, states := Chooses(cfg, [], [INIT], 0);
    steps, states := Chooses(cfg, steps, states, 1);
    steps, states := Take(cfg, steps, states, Register(0));
    steps, states := Take(cfg, steps, states, Register(1));
  }
}
