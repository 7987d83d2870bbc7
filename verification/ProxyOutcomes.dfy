/** Why each request of the proxy was counted as it was, told from the steps of the run. */
module ProxyOutcomes {
  import opened ProxyQueue
  import opened ProxyRuns
  import opened RequestQueue

  predicate HasRoom(cfg: Config, st: State) {
    cfg.maxQueueSize <= 0 || |st.queue| < cfg.maxQueueSize
  }

  /** Before step k the request tried to join the queue, and found room there or did not. */
  ghost predicate Tried(cfg: Config, steps: seq<Step>, states: seq<State>, k: nat, r: Id, room: bool)
    requires k <= |steps| < |states|
  {
    exists j :: 0 <= j < k && steps[j] == TryEnqueue(r) && HasRoom(cfg, states[j]) == room
  }

  predicate IsServed(st: State, r: Id) {
    r in st.handlers && WasServed(st.handlers[r])
  }

  predicate IsQueued(st: State, r: Id) {
    r in st.handlers && WasQueued(st.handlers[r])
  }

  predicate IsRefused(cfg: Config, st: State, r: Id) {
    r in st.handlers && (st.handlers[r].Refused? || (cfg.queueEnabled && st.handlers[r] == Counted(Rejected)))
  }

  lemma ServedStep(cfg: Config, st: State, step: Step, next: State, r: Id)
    requires Next(cfg, st, step, next)
    ensures IsServed(next, r) <==> IsServed(st, r) || step == Answer(r, true)
  {
  }

  lemma QueuedStep(cfg: Config, st: State, step: Step, next: State, r: Id)
    requires Next(cfg, st, step, next)
    ensures IsQueued(next, r) <==> IsQueued(st, r) || (step == TryEnqueue(r) && HasRoom(cfg, st))
  {
  }

  lemma RefusedStep(cfg: Config, st: State, step: Step, next: State, r: Id)
    requires Next(cfg, st, step, next) && (r in st.handlers && st.handlers[r].Refused? ==> cfg.queueEnabled)
    ensures IsRefused(cfg, next, r) <==> IsRefused(cfg, st, r) || (step == TryEnqueue(r) && !HasRoom(cfg, st))
    ensures r in next.handlers && next.handlers[r].Refused? ==> cfg.queueEnabled
  {
  }

  lemma TriedMore(cfg: Config, steps: seq<Step>, states: seq<State>, k: nat, r: Id, room: bool)
    requires k < |steps| < |states|
    ensures Tried(cfg, steps, states, k + 1, r, room)
            <==> Tried(cfg, steps, states, k, r, room) || (steps[k] == TryEnqueue(r) && HasRoom(cfg, states[k]) == room)
  {
  }

  ghost predicate ExplainedAt(cfg: Config, steps: seq<Step>, states: seq<State>, k: nat, r: Id)
    requires k <= |steps| < |states|
  {
    && (IsServed(states[k], r) <==> Answer(r, true) in steps[..k])
    && (IsQueued(states[k], r) <==> Tried(cfg, steps, states, k, r, true))
    && (IsRefused(cfg, states[k], r) <==> Tried(cfg, steps, states, k, r, false))
    && (r in states[k].handlers && states[k].handlers[r].Refused? ==> cfg.queueEnabled)
  }

  lemma ExplainedNext(cfg: Config, steps: seq<Step>, states: seq<State>, k: nat, r: Id)
    requires k < |steps| < |states| && Next(cfg, states[k], steps[k], states[k + 1])
    requires ExplainedAt(cfg, steps, states, k, r)
    ensures ExplainedAt(cfg, steps, states, k + 1, r)
  {
    assert steps[..k + 1] == steps[..k] + [steps[k]];
    ServedStep(cfg, states[k], steps[k], states[k + 1], r);
    QueuedStep(cfg, states[k], steps[k], states[k + 1], r);
    RefusedStep(cfg, states[k], steps[k], states[k + 1], r);
    TriedMore(cfg, steps, states, k, r, true);
    TriedMore(cfg, steps, states, k, r, false);
  }

  lemma {:induction false} Explained(cfg: Config, steps: seq<Step>, states: seq<State>, k: nat, r: Id)
    requires Run(cfg, steps, states) && k < |states|
    ensures ExplainedAt(cfg, steps, states, k, r)
  {
    if k > 0 {
      Explained(cfg, steps, states, k - 1, r);
      RunStep(cfg, steps, states, k - 1);
      ExplainedNext(cfg, steps, states, k - 1, r);
    }
  }

  /** Once its handler has returned, a request was counted as forwarded exactly when a backend answered
      its direct attempt, as queued exactly when it tried to join the queue and there was room, and as
      rejected exactly when the queue it tried to join had reached a positive limit, or when there was
      no answer and no queue to join. */
  lemma CountedForAReason(cfg: Config, steps: seq<Step>, states: seq<State>, k: nat, r: Id)
    requires Run(cfg, steps, states) && k < |states|
    requires r in states[k].handlers && states[k].handlers[r].Counted?
    ensures var o := states[k].handlers[r].outcome;
            && (o == Forwarded <==> Answer(r, true) in steps[..k])
            && (o == Queued <==> exists j :: 0 <= j < k && steps[j] == TryEnqueue(r)
                                   && (cfg.maxQueueSize <= 0 || |states[j].queue| < cfg.maxQueueSize))
            && (o == Rejected <==>
                  || (exists j :: 0 <= j < k && steps[j] == TryEnqueue(r)
                        && 0 < cfg.maxQueueSize <= |states[j].queue|)
                  || (!cfg.queueEnabled && Answer(r, true) !in steps[..k]))
  {
    Explained(cfg, steps, states, k, r);
    if !cfg.queueEnabled {
      NoQueueToTry(cfg, steps, states, k, r);
    }
  }

  lemma NoQueueToTry(cfg: Config, steps: seq<Step>, states: seq<State>, k: nat, r: Id)
    requires Run(cfg, steps, states) && k < |states| && !cfg.queueEnabled
    ensures forall j | 0 <= j < k :: steps[j] != TryEnqueue(r)
  {
    forall j | 0 <= j < k ensures steps[j] != TryEnqueue(r) {
      RunStep(cfg, steps, states, j);
    }
  }

  // ----- what a choice rests on

  lemma CheckedStep(cfg: Config, st: State, step: Step, next: State, r: Id, s: Server)
    requires Next(cfg, st, step, next) && r in next.handlers && next.handlers[r].Selecting?
    ensures step != Arrive(r) ==> r in st.handlers && st.handlers[r].Selecting?
    ensures step == Arrive(r) ==> r !in st.handlers && s !in next.handlers[r].passed
    ensures step != Arrive(r) ==>
              (s in next.handlers[r].passed <==> s in st.handlers[r].passed || step == Check(r, s))
  {
  }

  lemma ArrivalStays(cfg: Config, st: State, step: Step, next: State, r: Id, s: Server)
    requires Next(cfg, st, step, next) && r !in next.handlers
    ensures r !in st.handlers && step != Check(r, s)
  {
  }

  lemma {:induction false} NotYetArrived(cfg: Config, steps: seq<Step>, states: seq<State>, k: nat, r: Id, s: Server)
    requires Run(cfg, steps, states) && k < |states| && r !in states[k].handlers
    ensures forall j | 0 <= j < k :: steps[j] != Check(r, s)
  {
    if k > 0 {
      RunStep(cfg, steps, states, k - 1);
      ArrivalStays(cfg, states[k - 1], steps[k - 1], states[k], r, s);
      NotYetArrived(cfg, steps, states, k - 1, r, s);
    }
  }

  /** A selecting handler knows exactly the servers whose checks it passed. */
  lemma {:induction false} ChecksRemembered(cfg: Config, steps: seq<Step>, states: seq<State>, k: nat, r: Id, s: Server)
    requires Run(cfg, steps, states) && k < |states|
    requires r in states[k].handlers && states[k].handlers[r].Selecting?
    ensures s in states[k].handlers[r].passed <==> Check(r, s) in steps[..k]
    decreases k
  {
    RunStep(cfg, steps, states, k - 1);
    CheckedStep(cfg, states[k - 1], steps[k - 1], states[k], r, s);
    assert steps[..k] == steps[..k - 1] + [steps[k - 1]];
    if steps[k - 1] == Arrive(r) {
      NotYetArrived(cfg, steps, states, k - 1, r, s);
    } else {
      ChecksRemembered(cfg, steps, states, k - 1, r, s);
    }
  }

  /** A handler chooses only a server whose check it passed, and gives up only when it passed none. */
  lemma ChosenWasChecked(cfg: Config, steps: seq<Step>, states: seq<State>, k: nat, r: Id, s: Server)
    requires Run(cfg, steps, states) && k < |steps|
    ensures steps[k] == Choose(r, s) ==> Check(r, s) in steps[..k] && states[k + 1].handlers[r] == Chosen(s)
    ensures steps[k] == NoServer(r) ==> Check(r, s) !in steps[..k]
  {
    RunStep(cfg, steps, states, k);
    if steps[k] == Choose(r, s) || steps[k] == NoServer(r) {
      ChecksRemembered(cfg, steps, states, k, r, s);
    }
  }

  // ----- nothing gets stuck

  predicate MovesHandler(cfg: Config, st: State, step: Step, r: Id) {
    Enabled(cfg, st, step) && r in Do(cfg, st, step).handlers
    && (r in st.handlers ==> Do(cfg, st, step).handlers[r] != st.handlers[r])
  }

  /** Until its handler has returned, a request always has a next step of its own. */
  lemma HandlerNeverStuck(cfg: Config, st: State, r: Id)
    requires r in st.handlers && !st.handlers[r].Counted?
    ensures exists step :: MovesHandler(cfg, st, step, r)
  {
    match st.handlers[r]
    case Selecting(passed) =>
      if s :| s in passed {
        assert MovesHandler(cfg, st, Choose(r, s), r);
      } else {
        assert MovesHandler(cfg, st, NoServer(r), r);
      }
    case Chosen(_) => assert MovesHandler(cfg, st, Register(r), r);
    case Running(_) => assert MovesHandler(cfg, st, Answer(r, true), r);
    case Served => assert MovesHandler(cfg, st, CountForwarded(r), r);
    case Fallback =>
      if cfg.queueEnabled {
        assert MovesHandler(cfg, st, TryEnqueue(r), r);
      } else {
        assert MovesHandler(cfg, st, CountRejected(r), r);
      }
    case Refused => assert MovesHandler(cfg, st, CountRejected(r), r);
    case Waiting => assert MovesHandler(cfg, st, Leave(r), r);
  }

  predicate MovesWorker(cfg: Config, st: State, step: Step, i: nat) {
    Enabled(cfg, st, step) && i < |st.workers| && i < |Do(cfg, st, step).workers|
    && Do(cfg, st, step).workers[i] != st.workers[i]
  }

  /** A goroutine always has a next step until it has closed its request's channel, and the processor
      has one whenever there is something in the queue. */
  lemma QueueNeverStuck(cfg: Config, st: State, i: nat)
    ensures i < |st.workers| && !st.workers[i].work.Closed? ==> exists step :: MovesWorker(cfg, st, step, i)
    ensures !st.processor.Idle? || st.queue != [] ==>
              exists step :: Enabled(cfg, st, step) && Do(cfg, st, step).processor != st.processor
  {
    if i < |st.workers| {
      match st.workers[i].work
      case Starting(_) => assert MovesWorker(cfg, st, WorkRegister(i), i);
      case Calling(_) => assert MovesWorker(cfg, st, WorkAnswer(i), i);
      case Returned => assert MovesWorker(cfg, st, Close(i), i);
      case Closed =>
    }
    if !st.processor.Idle? || st.queue != [] {
      ProcessorNeverStuck(cfg, st);
    }
  }

  lemma ProcessorNeverStuck(cfg: Config, st: State)
    requires !st.processor.Idle? || st.queue != []
    ensures exists step :: Enabled(cfg, st, step) && Do(cfg, st, step).processor != st.processor
  {
    match st.processor
    case Idle => assert Enabled(cfg, st, Peek) && Do(cfg, st, Peek).processor != st.processor;
    case Peeked(_, seen) =>
      if s :| s in seen {
        assert Enabled(cfg, st, Decide(s)) && Do(cfg, st, Decide(s)).processor != st.processor;
      } else {
        assert Enabled(cfg, st, PeekNone) && Do(cfg, st, PeekNone).processor != st.processor;
      }
    case Decided(_, _) => assert Enabled(cfg, st, Pop) && Do(cfg, st, Pop).processor != st.processor;
  }
}
