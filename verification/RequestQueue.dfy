/** The request queue of either router, one method for each critical section. */
module RequestQueue {
  type Id = nat

  predicate Distinct(s: seq<Id>) {
    forall i, j | 0 <= i < j < |s| :: s[i] != s[j]
  }

  lemma {:induction false} DistinctOccurs(s: seq<Id>, r: Id)
    requires Distinct(s)
    ensures multiset(s)[r] == if r in s then 1 else 0
  {
    if s != [] {
      var n := |s| - 1;
      assert s == s[..n] + [s[n]];
      DistinctOccurs(s[..n], r);
    }
  }

  function PutLast(queue: seq<Id>, r: Id): seq<Id> {
    queue + [r]
  }

  /** The size test of enqueueRequest, then append. */
  function Admit(queue: seq<Id>, maxQueueSize: int, r: Id): (bool, seq<Id>) {
    if maxQueueSize > 0 && |queue| >= maxQueueSize then (false, queue) else (true, PutLast(queue, r))
  }

  /** Remove r if it is still the head. */
  function PopIfHead(queue: seq<Id>, r: Id): seq<Id> {
    if |queue| > 0 && queue[0] == r then queue[1..] else queue
  }

  class Queue {
    var queue: seq<Id>
    const maxQueueSize: int

    constructor (maxQueueSize: int)
      ensures queue == [] && this.maxQueueSize == maxQueueSize
    {
      queue := [];
      this.maxQueueSize := maxQueueSize;
    }

    method Enqueue(r: Id) returns (ok: bool)
      modifies this
      ensures (ok, queue) == Admit(old(queue), maxQueueSize, r)
      ensures ok <==> maxQueueSize <= 0 || old(|queue|) < maxQueueSize
      ensures queue == if ok then old(queue) + [r] else old(queue)
      ensures maxQueueSize > 0 && old(|queue|) <= maxQueueSize ==> |queue| <= maxQueueSize
    {
      if maxQueueSize > 0 && |queue| >= maxQueueSize {
        return false;
      }
      queue := queue + [r];
      ok := true;
    }

    /** The proxy's first section: look at the head without removing it. */
    method Head() returns (empty: bool, r: Id)
      ensures empty <==> queue == []
      ensures !empty ==> r == queue[0]
    {
      empty, r := |queue| == 0, 0;
      if !empty {
        r := queue[0];
      }
    }

    /** The proxy's second section. */
    method RemoveIfHead(r: Id)
      modifies this
      ensures queue == PopIfHead(old(queue), r)
      ensures if old(queue) != [] && old(queue)[0] == r then old(queue) == [r] + queue else queue == old(queue)
    {
      if |queue| > 0 && queue[0] == r {
        queue := queue[1..];
      }
    }

    /** The load balancer takes the head in the section that looked at it. */
    method TakeHead() returns (r: Id)
      requires queue != []
      modifies this
      ensures queue == PopIfHead(old(queue), r) && old(queue) == [r] + queue
    {
      r := queue[0];
      queue := queue[1..];
    }

    /** The load balancer puts a request whose forward failed at the back, without a size test. */
    method Requeue(r: Id)
      modifies this
      ensures queue == PutLast(old(queue), r) == old(queue) + [r]
    {
      queue := queue + [r];
    }
  }

  // ----- the two processors, as long as no other step comes in between

  /** The proxy's processor: dispatch from the head while a server is found.  The k-th lookup finds one
      when found[k]; the processor is watched until `found` runs out. */
  method DispatchQueued(q: Queue, found: seq<bool>) returns (dispatched: seq<Id>)
    modifies q
    ensures dispatched + q.queue == old(q.queue)
    ensures |dispatched| <= |found| && forall k | 0 <= k < |dispatched| :: found[k]
    ensures |dispatched| == |found| || q.queue == [] || !found[|dispatched|]
  {
    dispatched := [];
    while |dispatched| < |found|
      invariant dispatched + q.queue == old(q.queue)
      invariant |dispatched| <= |found| && forall k | 0 <= k < |dispatched| :: found[k]
    {
      var empty, r := q.Head();
      if empty || !found[|dispatched|] {
        return;
      }
      q.RemoveIfHead(r);
      dispatched := dispatched + [r];
    }
  }

  /** What comes of one turn of the load balancer's processor. */
  datatype Attempt = Completed | ForwardFailed | NoPlace

  /** Every request is completed or still queued. */
  ghost predicate Conserved(start: seq<Id>, completed: seq<Id>, queue: seq<Id>) {
    multiset(completed) + multiset(queue) == multiset(start)
  }

  lemma TurnKeeps(start: seq<Id>, completed: seq<Id>, r: Id, rest: seq<Id>)
    requires Conserved(start, completed, [r] + rest)
    ensures Conserved(start, completed + [r], rest) && Conserved(start, completed, PutLast(rest, r))
    ensures completed + ([r] + rest) == (completed + [r]) + rest
  {
    assert multiset([r] + rest) == multiset([r]) + multiset(rest);
  }

  /** The load balancer's processor: the head is forwarded or served here, goes to the back when its
      forward fails, or ends the drain when there is no place for it. */
  method DrainQueued(q: Queue, attempts: seq<Attempt>) returns (completed: seq<Id>, k: nat)
    modifies q
    ensures k <= |attempts| && Conserved(old(q.queue), completed, q.queue)
    ensures (forall j | 0 <= j < k :: attempts[j] != ForwardFailed) ==> completed + q.queue == old(q.queue)
    ensures k == |attempts| || q.queue == [] || attempts[k] == NoPlace
  {
    ghost var start := q.queue;
    completed, k := [], 0;
    while k < |attempts| && q.queue != [] && attempts[k] != NoPlace
      invariant k <= |attempts| && Conserved(start, completed, q.queue)
      invariant (forall j | 0 <= j < k :: attempts[j] != ForwardFailed) ==> completed + q.queue == start
    {
      ghost var before := q.queue;
      var r := q.TakeHead();
      assert before == [r] + q.queue;
      TurnKeeps(start, completed, r, q.queue);
      if attempts[k] == Completed {
        completed := completed + [r];
      } else {
        q.Requeue(r);
      }
      k := k + 1;
    }
  }
}
