/** A network of load balancers.  Requests enter anywhere; each node serves, queues or forwards
    them, and one processor per node drains its queue.  Selection, capacity, delivery and failure
    are arbitrary. */
module LbNetwork {
  import opened HopHeader
  import opened RequestQueue

  type Node = nat

  const MAX_HOPS := 1

  /** What a request is counted as when its handler returns. */
  datatype Outcome = Local | Forwarded | Queued | Rejected

  /** Where the handler of a copy of a request is. */
  datatype Phase = Handling | Sending(peer: Node) | Falling | Waiting | Finished(outcome: Outcome)

  /** One copy of a request: the node that handles it, its hop header, the nodes it came through, and
      the copy that came from the client, with the hop header that the client sent. */
  datatype Copy = Copy(at: Node, header: string, path: seq<Node>, root: Id, sent: string, phase: Phase)

  /** What a node's queue processor holds. */
  datatype Hold = Free | Forwarding(id: Id, peer: Node) | ServingLocally(id: Id)

  datatype NodeState = NodeState(queue: seq<Id>, hold: Hold, admitted: seq<Id>, closes: seq<Id>)

  datatype Net = Net(copies: map<Id, Copy>, nodes: map<Node, NodeState>)

  /** A node's QueueEnabled, and its MaxQueueSize; 0 or less means unlimited. */
  datatype Policy = Policy(queueEnabled: bool, maxQueueSize: int)

  type Limits = map<Node, Policy>

  const INIT := Net(map[], map[])
  const QUIET := NodeState([], Free, [], [])

  function LimitOf(limits: Limits, n: Node): int {
    if n in limits then limits[n].maxQueueSize else 0
  }

  predicate QueueEnabledAt(limits: Limits, n: Node) {
    n in limits ==> limits[n].queueEnabled
  }

  function At(net: Net, n: Node): NodeState {
    if n in net.nodes then net.nodes[n] else QUIET
  }

  function Hops(copy: Copy): int {
    Parse(copy.header)
  }

  datatype Step =
    | Enter(c: Id, n: Node, header: string)
    | ServeHere(c: Id)
    | Send(c: Id, peer: Node)
    | Deliver(c: Id, c2: Id)
    | SendEnds(c: Id, ok: bool)
    | NoPeer(c: Id)
    | TryEnqueue(c: Id)
    | Reject(c: Id)
    | Leave(c: Id)
    | TakeToForward(n: Node, peer: Node)
    | DeliverHeld(n: Node, c2: Id)
    | ForwardEnds(n: Node, ok: bool)
    | TakeToServe(n: Node)
    | ServeEnds(n: Node)

  predicate InPhase(net: Net, c: Id, phase: Phase) {
    c in net.copies && net.copies[c].phase == phase
  }

  predicate Enabled(limits: Limits, net: Net, step: Step) {
    match step
    case Enter(c, _, _) => c !in net.copies
    case ServeHere(c) => InPhase(net, c, Handling)
    case Send(c, _) => InPhase(net, c, Handling) && Hops(net.copies[c]) < MAX_HOPS
    case Deliver(c, c2) => c in net.copies && net.copies[c].phase.Sending? && c2 !in net.copies
    case SendEnds(c, _) => c in net.copies && net.copies[c].phase.Sending?
    case NoPeer(c) => InPhase(net, c, Handling)
    case TryEnqueue(c) => InPhase(net, c, Falling) && QueueEnabledAt(limits, net.copies[c].at)
    case Reject(c) => InPhase(net, c, Falling) && !QueueEnabledAt(limits, net.copies[c].at)
    case Leave(c) => InPhase(net, c, Waiting)
    case TakeToForward(n, _) =>
      At(net, n).hold.Free? && At(net, n).queue != [] && At(net, n).queue[0] in net.copies
      && Hops(net.copies[At(net, n).queue[0]]) < MAX_HOPS
    case DeliverHeld(n, c2) =>
      At(net, n).hold.Forwarding? && At(net, n).hold.id in net.copies && c2 !in net.copies
    case ForwardEnds(n, _) => At(net, n).hold.Forwarding?
    case TakeToServe(n) => At(net, n).hold.Free? && At(net, n).queue != []
    case ServeEnds(n) => At(net, n).hold.ServingLocally?
  }

  function Move(net: Net, c: Id, phase: Phase): Net
    requires c in net.copies
  {
    net.(copies := net.copies[c := net.copies[c].(phase := phase)])
  }

  function Put(net: Net, n: Node, s: NodeState): Net {
    net.(nodes := net.nodes[n := s])
  }

  /** The copy that reaches a peer: one hop more in the header, one node more on the path. */
  function Onward(copy: Copy, peer: Node): Copy {
    Copy(peer, Print(Hops(copy) + 1), copy.path + [peer], copy.root, copy.sent, Handling)
  }

  // ----- the queue processor's edits of its node

  function Append(s: NodeState, c: Id): NodeState {
    s.(queue := PutLast(s.queue, c), admitted := s.admitted + [c])
  }

  function TakeHead(s: NodeState, hold: Hold): NodeState
    requires s.queue != []
  {
    s.(queue := PopIfHead(s.queue, s.queue[0]), hold := hold)
  }

  function Complete(s: NodeState): NodeState
    requires !s.hold.Free?
  {
    s.(hold := Free, closes := s.closes + [s.hold.id])
  }

  function Requeue(s: NodeState): NodeState
    requires !s.hold.Free?
  {
    s.(hold := Free, queue := PutLast(s.queue, s.hold.id))
  }

  function Do(limits: Limits, net: Net, step: Step): Net
    requires Enabled(limits, net, step)
  {
    match step
    case Enter(c, n, header) => net.(copies := net.copies[c := Copy(n, header, [n], c, header, Handling)])
    case ServeHere(c) => Move(net, c, Finished(Local))
    case Send(c, peer) => Move(net, c, Sending(peer))
    case Deliver(c, c2) => net.(copies := net.copies[c2 := Onward(net.copies[c], net.copies[c].phase.peer)])
    case SendEnds(c, ok) => Move(net, c, if ok then Finished(Forwarded) else Falling)
    case NoPeer(c) => Move(net, c, Falling)
    case TryEnqueue(c) =>
      var n := net.copies[c].at;
      var s := At(net, n);
      var (ok, _) := Admit(s.queue, LimitOf(limits, n), c);
      if ok then Put(Move(net, c, Waiting), n, Append(s, c)) else Move(net, c, Finished(Rejected))
    case Reject(c) => Move(net, c, Finished(Rejected))
    case Leave(c) => Move(net, c, Finished(Queued))
    case TakeToForward(n, peer) => Put(net, n, TakeHead(At(net, n), Forwarding(At(net, n).queue[0], peer)))
    case DeliverHeld(n, c2) =>
      var hold := At(net, n).hold;
      net.(copies := net.copies[c2 := Onward(net.copies[hold.id], hold.peer)])
    case ForwardEnds(n, ok) => Put(net, n, if ok then Complete(At(net, n)) else Requeue(At(net, n)))
    case TakeToServe(n) => Put(net, n, TakeHead(At(net, n), ServingLocally(At(net, n).queue[0])))
    case ServeEnds(n) => Put(net, n, Complete(At(net, n)))
  }

  ghost predicate Next(limits: Limits, net: Net, step: Step, next: Net) {
    Enabled(limits, net, step) && next == Do(limits, net, step)
  }

  ghost predicate Run(limits: Limits, steps: seq<Step>, nets: seq<Net>) {
    && |nets| == |steps| + 1 && nets[0] == INIT
    && forall i {:trigger steps[i]} | 0 <= i < |steps| :: Next(limits, nets[i], steps[i], nets[i + 1])
  }

  // ----- the invariant

  /** A copy's hop count is its client's plus the forwards behind it, and no forward passes MAX_HOPS. */
  predicate HopOk(copy: Copy) {
    && |copy.path| >= 1 && copy.path[|copy.path| - 1] == copy.at
    && Hops(copy) == Parse(copy.sent) + |copy.path| - 1
    && (|copy.path| > 1 ==> Hops(copy) <= MAX_HOPS)
    && (copy.phase.Sending? ==> Hops(copy) < MAX_HOPS)
  }

  ghost predicate AllHopsOk(net: Net) {
    forall c | c in net.copies :: HopOk(net.copies[c])
  }

  /** A request held for forwarding is below the hop limit. */
  ghost predicate HeldHopOk(net: Net, n: Node) {
    At(net, n).hold.Forwarding? ==>
      At(net, n).hold.id in net.copies && Hops(net.copies[At(net, n).hold.id]) < MAX_HOPS
  }

  function Held(hold: Hold): seq<Id> {
    if hold.Free? then [] else [hold.id]
  }

  /** Every admitted request is queued, held or completed, and in one of these only. */
  ghost predicate Owned(s: NodeState) {
    && multiset(s.queue) + multiset(Held(s.hold)) + multiset(s.closes) == multiset(s.admitted)
    && Distinct(s.admitted)
  }

  /** One over the limit, counting the request the processor holds. */
  predicate Within(limit: int, s: NodeState) {
    limit > 0 ==> |s.queue| + |Held(s.hold)| <= limit + 1
  }

  ghost predicate AdmittedKnown(net: Net, n: Node) {
    forall c | c in At(net, n).admitted ::
      c in net.copies && net.copies[c].at == n && (net.copies[c].phase.Waiting? || net.copies[c].phase.Finished?)
  }

  ghost predicate NodeOk(limits: Limits, net: Net, n: Node) {
    Owned(At(net, n)) && Within(LimitOf(limits, n), At(net, n)) && AdmittedKnown(net, n)
  }

  ghost predicate Inv(limits: Limits, net: Net) {
    AllHopsOk(net) && forall n: Node {:trigger NodeOk(limits, net, n)} :: HeldHopOk(net, n) && NodeOk(limits, net, n)
  }

  // ----- every step keeps it

  lemma OnwardOk(copy: Copy, peer: Node)
    requires HopOk(copy) && Hops(copy) < MAX_HOPS
    ensures HopOk(Onward(copy, peer))
  {
    RoundTrip(Hops(copy) + 1);
  }

  lemma HopAt(limits: Limits, net: Net, step: Step, next: Net, c: Id)
    requires Next(limits, net, step, next) && c in next.copies
    requires c in net.copies ==> HopOk(net.copies[c])
    requires step.Deliver? ==> HopOk(net.copies[step.c])
    requires step.DeliverHeld? ==> HeldHopOk(net, step.n) && HopOk(net.copies[At(net, step.n).hold.id])
    ensures HopOk(next.copies[c])
  {
    match step
    case Deliver(d, _) => OnwardOk(net.copies[d], net.copies[d].phase.peer);
    case DeliverHeld(n, _) => OnwardOk(net.copies[At(net, n).hold.id], At(net, n).hold.peer);
    case _ =>
  }

  lemma HopStep(limits: Limits, net: Net, step: Step, next: Net)
    requires AllHopsOk(net) && Next(limits, net, step, next)
    requires step.DeliverHeld? ==> HeldHopOk(net, step.n)
    ensures AllHopsOk(next)
  {
    forall c | c in next.copies ensures HopOk(next.copies[c]) {
      HopAt(limits, net, step, next, c);
    }
  }

  lemma AppendOk(limit: int, s: NodeState, c: Id)
    requires Owned(s) && Within(limit, s) && c !in s.admitted && Admit(s.queue, limit, c).0
    ensures Owned(Append(s, c)) && Within(limit, Append(s, c))
  {
  }

  lemma TakeHeadOk(limit: int, s: NodeState, hold: Hold)
    requires Owned(s) && Within(limit, s) && s.hold.Free? && s.queue != []
    requires !hold.Free? && hold.id == s.queue[0]
    ensures Owned(TakeHead(s, hold)) && Within(limit, TakeHead(s, hold))
  {
    assert s.queue == [s.queue[0]] + s.queue[1..];
  }

  lemma CompleteOk(limit: int, s: NodeState)
    requires Owned(s) && Within(limit, s) && !s.hold.Free?
    ensures Owned(Complete(s)) && Within(limit, Complete(s))
    ensures Owned(Requeue(s)) && Within(limit, Requeue(s))
  {
  }

  /** Copies keep their node and header, and once admitted stay waiting or finished. */
  lemma CopiesKeep(limits: Limits, net: Net, step: Step, next: Net, c: Id)
    requires Next(limits, net, step, next) && c in net.copies
    ensures c in next.copies && next.copies[c].at == net.copies[c].at && next.copies[c].header == net.copies[c].header
    ensures net.copies[c].phase.Waiting? || net.copies[c].phase.Finished? ==>
              next.copies[c].phase.Waiting? || next.copies[c].phase.Finished?
  {
  }

  lemma HeldStep(limits: Limits, net: Net, step: Step, next: Net, n: Node)
    requires HeldHopOk(net, n) && Next(limits, net, step, next)
    ensures HeldHopOk(next, n)
  {
    if At(next, n).hold.Forwarding? {
      if At(net, n).hold == At(next, n).hold {
        CopiesKeep(limits, net, step, next, At(net, n).hold.id);
      }
    }
  }

  lemma KnownStep(limits: Limits, net: Net, step: Step, next: Net, n: Node)
    requires AdmittedKnown(net, n) && Next(limits, net, step, next)
    ensures AdmittedKnown(next, n)
  {
    forall c | c in At(next, n).admitted
      ensures c in next.copies && next.copies[c].at == n
      ensures next.copies[c].phase.Waiting? || next.copies[c].phase.Finished?
    {
      if c in At(net, n).admitted {
        CopiesKeep(limits, net, step, next, c);
      }
    }
  }

  lemma EnqueueAt(limits: Limits, net: Net, c: Id, next: Net, n: Node)
    requires Next(limits, net, TryEnqueue(c), next)
    ensures At(next, n) == if n == net.copies[c].at && Admit(At(net, n).queue, LimitOf(limits, n), c).0
                           then Append(At(net, n), c) else At(net, n)
  {
  }

  lemma EnqueueStep(limits: Limits, net: Net, c: Id, next: Net, n: Node)
    requires NodeOk(limits, net, n) && Next(limits, net, TryEnqueue(c), next)
    ensures Owned(At(next, n)) && Within(LimitOf(limits, n), At(next, n))
  {
    EnqueueAt(limits, net, c, next, n);
    if At(next, n) != At(net, n) {
      AppendOk(LimitOf(limits, n), At(net, n), c);
    }
  }

  /** Any step but an enqueue leaves a node alone, takes the head, completes or re-queues. */
  lemma ProcessorAt(limits: Limits, net: Net, step: Step, next: Net, n: Node)
    requires Next(limits, net, step, next) && !step.TryEnqueue?
    ensures var s, s' := At(net, n), At(next, n);
            || s' == s
            || (s.hold.Free? && s.queue != [] && !s'.hold.Free? && s'.hold.id == s.queue[0]
                && s' == TakeHead(s, s'.hold))
            || (!s.hold.Free? && (s' == Complete(s) || s' == Requeue(s)))
  {
  }

  lemma ProcessorStep(limits: Limits, net: Net, step: Step, next: Net, n: Node)
    requires NodeOk(limits, net, n) && Next(limits, net, step, next) && !step.TryEnqueue?
    ensures Owned(At(next, n)) && Within(LimitOf(limits, n), At(next, n))
  {
    var limit, s, s' := LimitOf(limits, n), At(net, n), At(next, n);
    ProcessorAt(limits, net, step, next, n);
    if s' == s {
    } else if s.hold.Free? {
      TakeHeadOk(limit, s, s'.hold);
    } else {
      CompleteOk(limit, s);
    }
  }

  lemma NodeStep(limits: Limits, net: Net, step: Step, next: Net, n: Node)
    requires NodeOk(limits, net, n) && Next(limits, net, step, next)
    ensures Owned(At(next, n)) && Within(LimitOf(limits, n), At(next, n))
  {
    if step.TryEnqueue? {
      EnqueueStep(limits, net, step.c, next, n);
    } else {
      ProcessorStep(limits, net, step, next, n);
    }
  }
}
