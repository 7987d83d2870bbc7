/** Why each copy of a request was counted as it was by the node it reached, told from the steps of the run. */
module LbOutcomes {
  import opened LbNetwork
  import opened LbRuns
  import opened RequestQueue

  /** The node that handles c has room in its queue. */
  predicate HasRoom(limits: Limits, net: Net, c: Id)
    requires c in net.copies
  {
    var n := net.copies[c].at;
    LimitOf(limits, n) <= 0 || |At(net, n).queue| < LimitOf(limits, n)
  }

  /** Step j is c's attempt to join the queue, and it finds room there or does not. */
  ghost predicate TriesAt(limits: Limits, net: Net, step: Step, c: Id, room: bool) {
    step == TryEnqueue(c) && c in net.copies && HasRoom(limits, net, c) == room
  }

  ghost predicate Tried(limits: Limits, steps: seq<Step>, nets: seq<Net>, k: nat, c: Id, room: bool)
    requires k <= |steps| < |nets|
  {
    exists j :: 0 <= j < k && TriesAt(limits, nets[j], steps[j], c, room)
  }

  predicate WasQueued(net: Net, c: Id) {
    InPhase(net, c, Waiting) || InPhase(net, c, Finished(Queued))
  }

  lemma ServedStep(limits: Limits, net: Net, step: Step, next: Net, c: Id)
    requires Next(limits, net, step, next)
    ensures InPhase(next, c, Finished(Local)) <==> InPhase(net, c, Finished(Local)) || step == ServeHere(c)
    ensures InPhase(next, c, Finished(Forwarded)) <==> InPhase(net, c, Finished(Forwarded)) || step == SendEnds(c, true)
  {
  }

  lemma QueuedStep(limits: Limits, net: Net, step: Step, next: Net, c: Id)
    requires Next(limits, net, step, next)
    ensures WasQueued(next, c) <==> WasQueued(net, c) || TriesAt(limits, net, step, c, true)
  {
  }

  lemma RejectedStep(limits: Limits, net: Net, step: Step, next: Net, c: Id)
    requires Next(limits, net, step, next)
    ensures InPhase(next, c, Finished(Rejected))
            <==> InPhase(net, c, Finished(Rejected)) || TriesAt(limits, net, step, c, false) || step == Reject(c)
  {
  }

  /** A request was served here, or forwarded, exactly when that is how its handler ended; it joined the
      queue exactly when it tried to and there was room; and it was turned away exactly when the queue it
      tried to join had reached a positive limit, or its node has no queue. */
  lemma {:induction false} CountedForAReason(limits: Limits, steps: seq<Step>, nets: seq<Net>, k: nat, c: Id)
    requires Run(limits, steps, nets) && k < |nets|
    ensures InPhase(nets[k], c, Finished(Local)) <==> ServeHere(c) in steps[..k]
    ensures InPhase(nets[k], c, Finished(Forwarded)) <==> SendEnds(c, true) in steps[..k]
    ensures WasQueued(nets[k], c) <==> Tried(limits, steps, nets, k, c, true)
    ensures InPhase(nets[k], c, Finished(Rejected))
            <==> Tried(limits, steps, nets, k, c, false) || Reject(c) in steps[..k]
  {
    if k > 0 {
      CountedForAReason(limits, steps, nets, k - 1, c);
      var net, step, next := nets[k - 1], steps[k - 1], nets[k];
      RunStep(limits, steps, nets, k - 1);
      assert steps[..k] == steps[..k - 1] + [step];
      ServedStep(limits, net, step, next, c);
      QueuedStep(limits, net, step, next, c);
      RejectedStep(limits, net, step, next, c);
      TriedMore(limits, steps, nets, k - 1, c, true);
      TriedMore(limits, steps, nets, k - 1, c, false);
    }
  }

  lemma TriedMore(limits: Limits, steps: seq<Step>, nets: seq<Net>, k: nat, c: Id, room: bool)
    requires k < |steps| < |nets|
    ensures Tried(limits, steps, nets, k + 1, c, room)
            <==> Tried(limits, steps, nets, k, c, room) || TriesAt(limits, nets[k], steps[k], c, room)
  {
  }

  /** Only a node whose queue is disabled turns a copy away without trying its queue. */
  lemma RejectNeedsNoQueue(limits: Limits, steps: seq<Step>, nets: seq<Net>, j: nat, c: Id)
    requires Run(limits, steps, nets) && j < |steps| && steps[j] == Reject(c)
    ensures c in nets[j].copies && nets[j].copies[c].at in limits && !limits[nets[j].copies[c].at].queueEnabled
  {
    RunStep(limits, steps, nets, j);
  }

  // ----- nothing gets stuck

  predicate MovesCopy(limits: Limits, net: Net, step: Step, c: Id) {
    Enabled(limits, net, step) && c in net.copies && c in Do(limits, net, step).copies
    && Do(limits, net, step).copies[c].phase != net.copies[c].phase
  }

  /** Until its handler has returned, a copy always has a next step of its own. */
  lemma CopyNeverStuck(limits: Limits, net: Net, c: Id)
    requires c in net.copies && !net.copies[c].phase.Finished?
    ensures exists step :: MovesCopy(limits, net, step, c)
  {
    match net.copies[c].phase
    case Handling => assert MovesCopy(limits, net, NoPeer(c), c);
    case Sending(_) => assert MovesCopy(limits, net, SendEnds(c, true), c);
    case Falling =>
      if QueueEnabledAt(limits, net.copies[c].at) {
        assert MovesCopy(limits, net, TryEnqueue(c), c);
      } else {
        assert MovesCopy(limits, net, Reject(c), c);
      }
    case Waiting => assert MovesCopy(limits, net, Leave(c), c);
  }
}
