/** What holds in every reachable state of a network of load balancers, and exactly when the limits
    that its nodes are given hold. */
module LbRuns {
  import opened Invariants
  import opened LbNetwork
  import opened RequestQueue

  lemma {:induction false} RunKeepsInv(limits: Limits, steps: seq<Step>, nets: seq<Net>, k: nat)
    requires Run(limits, steps, nets) && k < |nets|
    ensures Inv(limits, nets[k])
  {
    if k > 0 {
      RunKeepsInv(limits, steps, nets, k - 1);
      var net, step, next := nets[k - 1], steps[k - 1], nets[k];
      assert Next(limits, net, step, next);
      assert step.DeliverHeld? ==> NodeOk(limits, net, step.n);
      HopStep(limits, net, step, next);
      forall n: Node ensures HeldHopOk(next, n) && NodeOk(limits, next, n) {
        assert NodeOk(limits, net, n);
        HeldStep(limits, net, step, next, n);
        KnownStep(limits, net, step, next, n);
        NodeStep(limits, net, step, next, n);
      }
    } else {
      forall n: Node ensures HeldHopOk(INIT, n) && NodeOk(limits, INIT, n) {
        assert At(INIT, n) == QUIET;
      }
    }
  }

  lemma RunStep(limits: Limits, steps: seq<Step>, nets: seq<Net>, k: nat)
    requires Run(limits, steps, nets) && k < |steps|
    ensures Next(limits, nets[k], steps[k], nets[k + 1])
  {
  }

  // ----- what it means

  /** In every reachable state a node's queue, with what its processor holds, exceeds the limit by at
      most one, and each admitted request is in exactly one of queue, hands and completed, once. */
  lemma QueueSafety(limits: Limits, steps: seq<Step>, nets: seq<Net>, k: nat, n: Node, c: Id)
    requires Run(limits, steps, nets) && k < |nets|
    ensures var s := At(nets[k], n);
            && (LimitOf(limits, n) > 0 ==> |s.queue| + |Held(s.hold)| <= LimitOf(limits, n) + 1)
            && multiset(s.queue)[c] + multiset(Held(s.hold))[c] + multiset(s.closes)[c]
               == (if c in s.admitted then 1 else 0)
  {
    RunKeepsInv(limits, steps, nets, k);
    assert NodeOk(limits, nets[k], n);
    var s := At(nets[k], n);
    DistinctOccurs(s.admitted, c);
    assert multiset(s.admitted)[c] == (multiset(s.queue) + multiset(Held(s.hold)) + multiset(s.closes))[c];
  }

  predicate EndsWell(step: Step, n: Node) {
    step == ForwardEnds(n, true) || step == ServeEnds(n)
  }

  /** A held request that was forwarded successfully or served here is completed for good: it is never
      queued or held again, so it is neither sent to a peer nor served a second time. */
  lemma {:induction false} ServedOnce(limits: Limits, steps: seq<Step>, nets: seq<Net>, n: Node, k: nat, l: nat)
    requires Run(limits, steps, nets) && k < l < |nets| && EndsWell(steps[k], n)
    requires Next(limits, nets[k], steps[k], nets[k + 1])
    ensures var c, s := At(nets[k], n).hold.id, At(nets[l], n);
            c in s.closes && c !in s.queue && (s.hold.Free? || s.hold.id != c)
    decreases l
  {
    var c := At(nets[k], n).hold.id;
    if l > k + 1 {
      ServedOnce(limits, steps, nets, n, k, l - 1);
      assert Next(limits, nets[l - 1], steps[l - 1], nets[l]);
    }
    assert c in At(nets[l], n).closes;
    QueueSafety(limits, steps, nets, l, n, c);
  }

  // ----- turns

  /** A step of any node leaves n's queue alone, takes its head, or adds one at the back. */
  lemma QueueMoves(limits: Limits, net: Net, step: Step, next: Net, n: Node)
    requires Next(limits, net, step, next)
    ensures var q, q' := At(net, n).queue, At(next, n).queue;
            q' == q || (q != [] && q' == q[1..]) || (|q'| == |q| + 1 && q' == q + [q'[|q|]])
  {
    if step.TryEnqueue? {
      EnqueueAt(limits, net, step.c, next, n);
    }
  }

  /** w without its first t, then c, is where the queue starts. */
  ghost predicate Behind(q: seq<Id>, w: seq<Id>, c: Id, t: nat) {
    t <= |w| && |q| > |w| - t && q[..|w| - t] == w[t..] && q[|w| - t] == c
  }

  lemma TurnStep(q: seq<Id>, q': seq<Id>, w: seq<Id>, c: Id, t: nat) returns (t': nat)
    requires Behind(q, w, c, t) && c in q' && multiset(q)[c] <= 1
    requires q' == q || (q != [] && q' == q[1..]) || (|q'| == |q| + 1 && q' == q + [q'[|q|]])
    ensures Behind(q', w, c, t') && t <= t'
  {
    t' := t;
    if q' == q[1..] {
      assert q == [q[0]] + q';
      assert q[0] != c;
      t' := t + 1;
      assert q'[..|w| - t'] == q[..|w| - t][1..] == w[t..][1..] == w[t'..];
    }
  }

  /** After a failed forward a request waits its turn: as long as it stays queued, the requests that
      were waiting before it leave in order and none that came later gets ahead. */
  lemma {:induction false} FailedGoesLast(limits: Limits, steps: seq<Step>, nets: seq<Net>, n: Node, k: nat, l: nat)
    returns (t: nat)
    requires Run(limits, steps, nets) && k < l < |nets| && steps[k] == ForwardEnds(n, false)
    requires forall j {:trigger nets[j]} | k < j <= l :: At(nets[k], n).hold.id in At(nets[j], n).queue
    requires Next(limits, nets[k], steps[k], nets[k + 1])
    ensures Behind(At(nets[l], n).queue, At(nets[k], n).queue, At(nets[k], n).hold.id, t)
    decreases l
  {
    var w, c := At(nets[k], n).queue, At(nets[k], n).hold.id;
    if l == k + 1 {
      t := 0;
    } else {
      var t0 := FailedGoesLast(limits, steps, nets, n, k, l - 1);
      assert Next(limits, nets[l - 1], steps[l - 1], nets[l]);
      QueueMoves(limits, nets[l - 1], steps[l - 1], nets[l], n);
      QueueSafety(limits, steps, nets, l - 1, n, c);
      assert c in At(nets[l], n).queue;
      t := TurnStep(At(nets[l - 1], n).queue, At(nets[l], n).queue, w, c, t0);
    }
  }

  lemma Take(limits: Limits, steps: seq<Step>, nets: seq<Net>, step: Step) returns (steps': seq<Step>, nets': seq<Net>)
    requires Run(limits, steps, nets) && Enabled(limits, nets[|steps|], step)
    ensures Run(limits, steps', nets') && |nets'| == |nets| + 1
    ensures nets'[|steps'|] == Do(limits, nets[|steps|], step)
  {
    steps', nets' := steps + [step], nets + [Do(limits, nets[|steps|], step)];
  }

  /** A new request that finds no peer joins node 0's queue when there is room. */
  lemma Joins(limits: Limits, steps: seq<Step>, nets: seq<Net>, c: Id) returns (steps': seq<Step>, nets': seq<Net>)
    requires Run(limits, steps, nets) && c !in nets[|steps|].copies
    requires QueueEnabledAt(limits, 0) && Admit(At(nets[|steps|], 0).queue, LimitOf(limits, 0), c).0
    ensures Run(limits, steps', nets') && At(nets'[|steps'|], 0) == Append(At(nets[|steps|], 0), c)
    ensures c in nets'[|steps'|].copies && nets'[|steps'|].copies[c].header == ""
    ensures nets'[|steps'|].copies.Keys == nets[|steps|].copies.Keys + {c}
  {
    steps', nets' := Take(limits, steps, nets, Enter(c, 0, ""));
    steps', nets' := Take(limits, steps', nets', NoPeer(c));
    steps', nets' := Take(limits, steps', nets', TryEnqueue(c));
  }

  /** The extra one is real: with a limit of 1, a request that arrives while the processor's forward
      fails leaves two in the queue. */
  lemma QueueCanExceedItsLimit()
    ensures exists limits: Limits, steps: seq<Step>, nets: seq<Net> ::
              Run(limits, steps, nets) && LimitOf(limits, 0) == 1 && |At(nets[|steps|], 0).queue| == 2
  {
    var limits: Limits := map[0 := Policy(true, 1)];
    var steps, nets := Joins(limits, [], [INIT], 0);
    steps, nets := Take(limits, steps, nets, TakeToForward(0, 1));
    assert At(nets[|steps|], 0).queue == [];
    steps, nets := Joins(limits, steps, nets, 1);
    steps, nets := Take(limits, steps, nets, ForwardEnds(0, false));
  }

  // ----- when the queue limit holds

  /** The one step that takes a queue over its limit: a failed forward goes back to a queue that is full. */
  lemma LimitStep(limits: Limits, net: Net, step: Step, next: Net, n: Node)
    requires Next(limits, net, step, next) && 0 < LimitOf(limits, n) && |At(net, n).queue| <= LimitOf(limits, n)
    ensures |At(next, n).queue| > LimitOf(limits, n)
            <==> step == ForwardEnds(n, false) && |At(net, n).queue| == LimitOf(limits, n)
  {
    if step.TryEnqueue? {
      EnqueueAt(limits, net, step.c, next, n);
    }
  }

  ghost predicate QueueWithin(limits: Limits, nets: seq<Net>, n: Node, j: nat)
    requires j < |nets|
  {
    |At(nets[j], n).queue| <= LimitOf(limits, n)
  }

  /** Step j does not re-queue a request at n, or finds room there. */
  ghost predicate RoomToRequeue(limits: Limits, steps: seq<Step>, nets: seq<Net>, n: Node, j: nat)
    requires j < |steps| < |nets|
  {
    steps[j] == ForwardEnds(n, false) ==> |At(nets[j], n).queue| < LimitOf(limits, n)
  }

  /** Throughout a run a queue stays within its limit if and only if every failed forward finds room
      to go back to. */
  lemma LimitHolds(limits: Limits, steps: seq<Step>, nets: seq<Net>, n: Node, k: nat)
    requires Run(limits, steps, nets) && k < |nets| && LimitOf(limits, n) > 0
    ensures (forall j | 0 <= j <= k :: QueueWithin(limits, nets, n, j))
            <==> (forall j | 0 <= j < k :: RoomToRequeue(limits, steps, nets, n, j))
  {
    var holds := (j: nat) => j <= k && QueueWithin(limits, nets, n, j);
    var safe := (j: nat) => j < k && RoomToRequeue(limits, steps, nets, n, j);
    assert At(nets[0], n) == QUIET;
    forall j | 0 <= j < k && holds(j) ensures holds(j + 1) <==> safe(j) {
      assert Next(limits, nets[j], steps[j], nets[j + 1]);
      LimitStep(limits, nets[j], steps[j], nets[j + 1], n);
    }
    HoldsIffSafe(holds, safe, k);
    assert forall j | 0 <= j <= k :: holds(j) <==> QueueWithin(limits, nets, n, j);
    assert forall j | 0 <= j < k :: safe(j) <==> RoomToRequeue(limits, steps, nets, n, j);
  }
}
