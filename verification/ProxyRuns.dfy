/** What holds in every reachable state of the proxy, whatever the interleaving. */
module ProxyRuns {
  import opened ProxyQueue
  import opened RequestQueue

  lemma {:induction false} RunKeepsInv(cfg: Config, steps: seq<Step>, states: seq<State>, k: nat)
    requires Run(cfg, steps, states) && k < |states|
    ensures Inv(cfg, states[k])
  {
    if k > 0 {
      RunKeepsInv(cfg, steps, states, k - 1);
      var st, step := states[k - 1], steps[k - 1];
      OrderStep(cfg, st, step);
      AdmittedStep(cfg, st, step);
      HeadStep(cfg, st, step);
      KnownStep(cfg, st, step);
      ClosedStep(cfg, st, step);
      CountStep(cfg, st, step);
      AnsweredStep(cfg, st, step);
      TrackedStep(cfg, st, step);
    }
  }

  /** Requests are taken off the queue in arrival order, each at most once and closed at most once;
      the queue never exceeds a positive limit; every request handled is accounted for. */
  lemma QueueSafety(cfg: Config, steps: seq<Step>, states: seq<State>, k: nat, r: Id)
    requires Run(cfg, steps, states) && k < |states|
    ensures var st := states[k];
            && Ids(st.workers) + st.queue == st.admitted
            && multiset(Ids(st.workers))[r] <= 1
            && multiset(st.closes)[r] <= 1
            && (cfg.maxQueueSize > 0 ==> |st.queue| <= cfg.maxQueueSize)
            && st.handled == st.forwarded + st.queued + st.rejected + |Uncounted(st.handlers)|
  {
    RunKeepsInv(cfg, steps, states, k);
    var st := states[k];
    assert forall i | 0 <= i < |st.workers| :: st.admitted[i] == Ids(st.workers)[i];
    DistinctOccurs(Ids(st.workers), r);
    DistinctOccurs(st.closes, r);
  }

  /** Each counter is the number of requests with that outcome; a returned handler's request was counted as
      queued exactly when it was admitted to the queue, as forwarded exactly when a backend answered its
      direct attempt, and as rejected otherwise. */
  lemma CountersExact(cfg: Config, steps: seq<Step>, states: seq<State>, k: nat, r: Id)
    requires Run(cfg, steps, states) && k < |states|
    ensures var st := states[k];
            && st.forwarded == |CountedAs(st.handlers, Forwarded)|
            && st.queued == |CountedAs(st.handlers, Queued)|
            && st.rejected == |CountedAs(st.handlers, Rejected)|
            && (r in st.handlers && st.handlers[r].Counted? ==>
                  st.handlers[r].outcome == if r in st.admitted then Queued
                                            else if r in st.answered then Forwarded else Rejected)
  {
    RunKeepsInv(cfg, steps, states, k);
  }

  /** The test before the pop never fails: the request removed is the one that was looked at. */
  lemma GuardNeverFails(cfg: Config, steps: seq<Step>, states: seq<State>, k: nat)
    requires Run(cfg, steps, states) && k < |steps| && steps[k] == Pop
    ensures states[k].queue != [] && states[k].queue[0] == states[k].processor.head
    ensures states[k + 1].queue == states[k].queue[1..]
  {
    RunKeepsInv(cfg, steps, states, k);
    assert Enabled(cfg, states[k], steps[k]);
  }

  /** The tracked entries are the backend calls in progress, so none is left at quiescence. */
  lemma TrackingIsExact(cfg: Config, steps: seq<Step>, states: seq<State>, k: nat, s: Server, r: Id)
    requires Run(cfg, steps, states) && k < |states|
    ensures var st := states[k];
            && (r in TrackedOn(st.tracked, s) <==> Calls(st, s, r))
            && ((forall x | x in st.handlers :: !st.handlers[x].Running?)
                && (forall i | 0 <= i < |st.workers| :: !st.workers[i].work.Calling?)
                ==> TrackedOn(st.tracked, s) == {})
  {
    RunKeepsInv(cfg, steps, states, k);
    var st := states[k];
    forall x | x in TrackedOn(st.tracked, s) ensures Calls(st, s, x) {
    }
    assert r in TrackedOn(st.tracked, s) <==> Calls(st, s, r);
  }

  lemma RunStep(cfg: Config, steps: seq<Step>, states: seq<State>, k: nat)
    requires Run(cfg, steps, states) && k < |steps|
    ensures Next(cfg, states[k], steps[k], states[k + 1])
  {
  }
}
