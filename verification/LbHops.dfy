/** How far a request can travel through a network of load balancers. */
module LbHops {
  import opened HopHeader
  import opened LbNetwork
  import opened LbRuns
  import opened RequestQueue

  /** One node, or as many as the hops left over by a client that sent the count `entry`. */
  predicate HopsAllow(entry: int, len: nat) {
    len == 1 || 1 <= len <= MAX_HOPS + 1 - entry
  }

  /** Whatever is forwarded, queued, lost or retried, a copy carries at most MAX_HOPS exactly when its
      client sent at most that, and every forward uses up one of the hops that the client left over. */
  lemma HopBound(limits: Limits, steps: seq<Step>, nets: seq<Net>, k: nat, c: Id)
    requires Run(limits, steps, nets) && k < |nets| && c in nets[k].copies
    ensures var copy := nets[k].copies[c];
            && Hops(copy) == Parse(copy.sent) + |copy.path| - 1
            && (Hops(copy) <= MAX_HOPS <==> Parse(copy.sent) <= MAX_HOPS)
            && (Hops(copy) <= MAX_HOPS || copy.path == [copy.at])
            && HopsAllow(Parse(copy.sent), |copy.path|)
  {
    RunKeepsInv(limits, steps, nets, k);
    assert HopOk(nets[k].copies[c]);
  }

  // ----- copies and clients

  lemma {:induction false} CopyStays(limits: Limits, steps: seq<Step>, nets: seq<Net>, j: nat, k: nat, c: Id)
    requires Run(limits, steps, nets) && j <= k < |nets| && c in nets[j].copies
    ensures c in nets[k].copies
    decreases k
  {
    if j < k {
      CopyStays(limits, steps, nets, j, k - 1, c);
      assert Next(limits, nets[k - 1], steps[k - 1], nets[k]);
      CopiesKeep(limits, nets[k - 1], steps[k - 1], nets[k], c);
    }
  }

  /** Step j is the arrival of this copy's request from its client. */
  ghost predicate CameIn(steps: seq<Step>, j: nat, copy: Copy)
    requires j < |steps|
  {
    copy.path != [] && steps[j] == Enter(copy.root, copy.path[0], copy.sent)
  }

  lemma LineageStep(limits: Limits, net: Net, step: Step, next: Net, c: Id) returns (p: Id)
    requires Inv(limits, net) && Next(limits, net, step, next) && c in next.copies
    ensures var copy := next.copies[c];
            || (copy.path != [] && step == Enter(copy.root, copy.path[0], copy.sent))
            || (p in net.copies && net.copies[p].root == copy.root && net.copies[p].sent == copy.sent
                && copy.path != [] && net.copies[p].path != [] && net.copies[p].path[0] == copy.path[0])
  {
    p := c;
    assert c in net.copies ==> HopOk(net.copies[c]);
    match step
    case Deliver(d, c2) =>
      if c == c2 {
        p := d;
        assert HopOk(net.copies[d]);
      }
    case DeliverHeld(n, c2) =>
      if c == c2 {
        p := At(net, n).hold.id;
        assert HopOk(net.copies[p]);
      }
    case _ =>
  }

  /** Every copy goes back to a client, to the node and with the header that the client used. */
  lemma {:induction false} Lineage(limits: Limits, steps: seq<Step>, nets: seq<Net>, k: nat, c: Id) returns (j: nat)
    requires Run(limits, steps, nets) && k < |nets| && c in nets[k].copies
    ensures j < k && CameIn(steps, j, nets[k].copies[c])
    decreases k
  {
    assert nets[0].copies == map[];
    RunKeepsInv(limits, steps, nets, k - 1);
    assert Next(limits, nets[k - 1], steps[k - 1], nets[k]);
    var p := LineageStep(limits, nets[k - 1], steps[k - 1], nets[k], c);
    if CameIn(steps, k - 1, nets[k].copies[c]) {
      j := k - 1;
    } else {
      j := Lineage(limits, steps, nets, k - 1, p);
    }
  }

  lemma EntersOnce(limits: Limits, steps: seq<Step>, nets: seq<Net>, i: nat, j: nat)
    requires Run(limits, steps, nets) && i < |steps| && j < |steps| && steps[i].Enter? && steps[j].Enter?
    requires steps[i].c == steps[j].c
    ensures i == j
  {
    assert Next(limits, nets[i], steps[i], nets[i + 1]) && Next(limits, nets[j], steps[j], nets[j + 1]);
    if i < j {
      CopyStays(limits, steps, nets, i + 1, j, steps[i].c);
    } else if j < i {
      CopyStays(limits, steps, nets, j + 1, i, steps[i].c);
    }
  }

  /** A client that sends no header: in every run, whatever is forwarded, queued, lost or retried, each
      copy of its request carries as many hops as forwards brought it there, one at the most, and has come
      through the client's node and at most one other. */
  lemma NoHeaderBound(limits: Limits, steps: seq<Step>, nets: seq<Net>, j: nat, k: nat, r: Id, n: Node, c: Id)
    requires Run(limits, steps, nets) && j < |steps| && k < |nets| && steps[j] == Enter(r, n, "")
    requires c in nets[k].copies && nets[k].copies[c].root == r
    ensures var copy := nets[k].copies[c];
            && 1 <= |copy.path| <= 2 && copy.path[0] == n
            && Hops(copy) == |copy.path| - 1
  {
    var i := Lineage(limits, steps, nets, k, c);
    EntersOnce(limits, steps, nets, i, j);
    HopBound(limits, steps, nets, k, c);
    NoNumberIsZero("", "", "");
  }

  // ----- exactly how far

  /** A run ends with a copy that came through len nodes, of a request whose client sent this header. */
  ghost predicate Visits(limits: Limits, steps: seq<Step>, nets: seq<Net>, c: Id, header: string, len: nat) {
    && Run(limits, steps, nets) && c in nets[|steps|].copies
    && nets[|steps|].copies[c].sent == header && |nets[|steps|].copies[c].path| == len
  }

  ghost predicate CanVisit(header: string, len: nat) {
    exists limits, steps, nets, c :: Visits(limits, steps, nets, c, header, len)
  }

  /** A client that leaves enough hops gets its request through len nodes. */
  lemma {:induction false} LongPath(header: string, len: nat) returns (steps: seq<Step>, nets: seq<Net>)
    requires HopsAllow(Parse(header), len)
    ensures Visits(map[], steps, nets, len - 1, header, len)
    ensures nets[|steps|].copies[len - 1].phase == Handling
    ensures forall c | c in nets[|steps|].copies :: c < len
  {
    if len == 1 {
      steps, nets := Take(map[], [], [INIT], Enter(0, 0, header));
    } else {
      steps, nets := LongPath(header, len - 1);
      HopBound(map[], steps, nets, |steps|, len - 2);
      steps, nets := Take(map[], steps, nets, Send(len - 2, len));
      steps, nets := Take(map[], steps, nets, Deliver(len - 2, len - 1));
    }
  }

  /** The lengths of path that a client can get are exactly these. */
  lemma PathLengths(header: string, len: nat)
    ensures CanVisit(header, len) <==> HopsAllow(Parse(header), len)
  {
    if limits, steps, nets, c :| Visits(limits, steps, nets, c, header, len) {
      HopBound(limits, steps, nets, |steps|, c);
    }
    if HopsAllow(Parse(header), len) {
      var steps, nets := LongPath(header, len);
    }
  }

  /** So no request visits more than MAX_HOPS + 1 nodes if and only if its client sent no negative count. */
  lemma PathBoundHolds(header: string)
    ensures (forall len: nat :: CanVisit(header, len) ==> len <= MAX_HOPS + 1) <==> Parse(header) >= 0
  {
    forall len: nat ensures CanVisit(header, len) <==> HopsAllow(Parse(header), len) {
      PathLengths(header, len);
    }
    PathLengths(header, MAX_HOPS + 2);
  }

  /** The header "-1" takes a request through one node more. */
  lemma NegativeHopGoesFurther()
    ensures CanVisit("-1", MAX_HOPS + 2)
  {
    RoundTrip(-1);
    assert Print(-1) == "-1";
    PathLengths("-1", MAX_HOPS + 2);
  }
}
