/** What decides between this node and its peers, told from latencies, token counts and queued work. */
module GorgoLaws {
  import opened Keys
  import opened Options
  import opened RadixShape
  import opened RadixLookup
  import opened GorgoSelect
  import Tokens

  // ----- peers

  /** p has matches in the tree, all of n bytes. */
  ghost predicate OnlyMatch(q: Question, p: Ref, n: nat) {
    && n <= |q.path| && Match(p, n) in Lookup(q.m, q.path)
    && forall e | e in Lookup(q.m, q.path) && e.server == p :: e.matchedLen == n
  }

  ghost predicate NoMatch(q: Question, p: Ref) {
    forall e | e in Lookup(q.m, q.path) :: e.server != p
  }

  /** p is up, known to the policy, and its latency is known. */
  predicate Ready(q: Question, p: Ref) {
    && p in q.avail && q.avail[p].available && q.avail[p].healthy
    && p in q.peers && p in q.latency
  }

  /** An offer rises by exactly the difference in latency, and by its time for each token that is left. */
  lemma OffersDiffer(q: Question, p: Ref, u: Ref, n: nat, k: nat)
    requires p in q.latency && u in q.latency && n <= |q.path| && k <= |q.path|
    ensures PeerCost(q, p, n) - PeerCost(q, u, n) == (q.latency[p] - q.latency[u]) as real
    ensures PeerCost(q, p, n) - PeerCost(q, p, k)
            == q.tokens(q.path[n..]) as real * q.msPerToken - q.tokens(q.path[k..]) as real * q.msPerToken
    ensures q.tokens(q.path[n..]) == 0 ==> PeerCost(q, p, n) == q.latency[p] as real
  {
  }

  lemma OnlyWarm(q: Question, p: Ref, n: nat, o: Offer)
    requires OnlyMatch(q, p, n) && Ready(q, p) && o.peer == p
    ensures WarmOffer(q, o) <==> o.cost == PeerCost(q, p, n)
  {
    if o.cost == PeerCost(q, p, n) {
      assert IsWarm(q, Match(p, n), o);
    }
  }

  lemma NeverWarm(q: Question, p: Ref, o: Offer)
    requires NoMatch(q, p) && o.peer == p
    ensures !WarmOffer(q, o)
  {
  }

  lemma EqualChance(q: Question, r: Ref, p: Ref, n: nat, o: Offer)
    requires Ready(q, r) && Ready(q, p) && IsLeast(q, o) && o.peer == r
    requires (OnlyMatch(q, r, n) && OnlyMatch(q, p, n)) || (NoMatch(q, r) && NoMatch(q, p))
    ensures q.latency[r] <= q.latency[p]
  {
    var k := if WarmOffer(q, o) then n else 0;
    if OnlyMatch(q, r, n) {
      OnlyWarm(q, r, n, o);
      OnlyWarm(q, p, n, Offer(p, PeerCost(q, p, n)));
    } else {
      NeverWarm(q, r, o);
    }
    var other := Offer(p, PeerCost(q, p, k));
    assert o.cost == PeerCost(q, r, k);
    OffersDiffer(q, r, p, k, k);
    if q.latency[p] < q.latency[r] {
      assert Considered(q, other);
    }
  }

  /** Of two peers that are up and have the same match, or no match, the one with the lower latency is
      never passed over for the other. */
  lemma LowerLatencyWins(q: Question, localCost: real, r: Ref, p: Ref, n: nat)
    requires Decision(q, localCost, r) && r != Nil && Ready(q, r) && Ready(q, p)
    requires (OnlyMatch(q, r, n) && OnlyMatch(q, p, n)) || (NoMatch(q, r) && NoMatch(q, p))
    ensures q.latency[r] <= q.latency[p]
  {
    var cost :| IsLeast(q, Offer(r, cost)) && cost < localCost;
    EqualChance(q, r, p, n, Offer(r, cost));
  }

  /** Latency plus the time for the tokens that n matched bytes leave over. */
  function AskingCost(q: Question, p: Ref, n: nat): real
    requires p in q.latency && n <= |q.path|
  {
    q.latency[p] as real + q.tokens(q.path[n..]) as real * q.msPerToken
  }

  /** A matched peer's offer is considered, at what it asks, when that is below the start value of 2^62. */
  lemma MatchedOffer(q: Question, p: Ref, k: nat) returns (o: Offer)
    requires Ready(q, p) && OnlyMatch(q, p, k)
    ensures o == Offer(p, AskingCost(q, p, k)) && WarmOffer(q, o)
    ensures o.cost < 4611686018427387904.0 ==> Considered(q, o)
  {
    o := Offer(p, PeerCost(q, p, k));
    OnlyWarm(q, p, k, o);
  }

  /** As long as some matched peer asks less than the start value, only matched peers are chosen. */
  lemma MatchedFirst(q: Question, localCost: real, r: Ref, p: Ref, k: nat)
    requires Decision(q, localCost, r) && r != Nil && Ready(q, p) && OnlyMatch(q, p, k)
    requires AskingCost(q, p, k) < 4611686018427387904.0
    ensures !NoMatch(q, r)
  {
    var cost :| IsLeast(q, Offer(r, cost)) && cost < localCost;
    var other := MatchedOffer(q, p, k);
    assert WarmOffer(q, Offer(r, cost));
    var e :| IsWarm(q, e, Offer(r, cost));
  }

  /** A matched peer that is chosen asks less than keeping the request costs, and no more than any other
      matched peer. */
  lemma ForwardedInNumbers(q: Question, localCost: real, r: Ref, n: nat, p: Ref, k: nat)
    requires Decision(q, localCost, r) && r != Nil && Ready(q, r) && OnlyMatch(q, r, n)
    requires Ready(q, p) && OnlyMatch(q, p, k) && AskingCost(q, p, k) < 4611686018427387904.0
    ensures AskingCost(q, r, n) <= AskingCost(q, p, k) && AskingCost(q, r, n) < localCost
  {
    var cost :| IsLeast(q, Offer(r, cost)) && cost < localCost;
    var other := MatchedOffer(q, p, k);
    var mine := MatchedOffer(q, r, n);
    OnlyWarm(q, r, n, Offer(r, cost));
    OnlyWarm(q, r, n, mine);
  }

  /** A request that is kept here costs no more here than any matched peer asks. */
  lemma KeptInNumbers(q: Question, localCost: real, p: Ref, k: nat)
    requires Decision(q, localCost, Nil) && Nil !in q.avail && q.path != []
    requires Ready(q, p) && OnlyMatch(q, p, k) && AskingCost(q, p, k) < 4611686018427387904.0
    ensures localCost <= AskingCost(q, p, k)
  {
    var other := MatchedOffer(q, p, k);
  }

  // ----- this node

  function TokensOf(item: Queued): nat {
    if item.tokenCount > 0 then item.tokenCount else Tokens.Estimate(item.bodyLen)
  }

  lemma QueueTokensSnoc(queue: seq<Queued>, item: Queued)
    ensures QueueTokens(queue + [item]) == QueueTokens(queue) + TokensOf(item)
  {
    assert (queue + [item])[..|queue|] == queue;
  }

  lemma ChargeAdds(ms: real, a: nat, b: nat)
    ensures Charge(ms, a + b) == Charge(ms, a) + b as real * ms
  {
    Tokens.Distribute(a, b, ms, 1.0);
  }

  lemma QueueEnters(q: Question, local: Contents, lb: Local, queue: seq<Queued>)
    ensures CostHere(q, local, Some(lb.(queue := queue))) - CostHere(q, local, Some(lb))
            == Charge(lb.msPerToken, QueueTokens(queue)) - Charge(lb.msPerToken, QueueTokens(lb.queue))
  {
  }

  /** One more queued request adds the time of its tokens, or of its body's estimate when none were counted. */
  lemma QueuedCost(q: Question, local: Contents, lb: Local, item: Queued)
    ensures CostHere(q, local, Some(lb.(queue := lb.queue + [item])))
            == CostHere(q, local, Some(lb)) + TokensOf(item) as real * lb.msPerToken
  {
    QueueTokensSnoc(lb.queue, item);
    ChargeAdds(lb.msPerToken, QueueTokens(lb.queue), TokensOf(item));
    QueueEnters(q, local, lb, lb.queue + [item]);
  }

  /** One more running request adds the weighted time of its tokens. */
  lemma RunningCost(q: Question, local: Contents, lb: Local, r: Tokens.Id, n: nat)
    requires r !in lb.running
    ensures CostHere(q, local, Some(lb.(running := lb.running[r := n])))
            == CostHere(q, local, Some(lb)) + n as real * lb.msPerToken * lb.runningCostFactor
  {
    Tokens.TotalWith(lb.running, r, n);
    Tokens.Distribute(Tokens.Total(lb.running), n, lb.msPerToken, lb.runningCostFactor);
  }

  /** With nothing running or queued only the request itself costs: what is left of it after the longest
      local match, or all of it when nothing or everything matched. */
  lemma IdleCost(q: Question, local: Contents, lb: Local, n: nat)
    requires lb.running == map[] && lb.queue == [] && LongestFor(Nil, Lookup(local, q.path), n) && n <= |q.path|
    ensures var rest := if n == |q.path| then q.path else q.path[n..];
            CostHere(q, local, Some(lb)) == q.tokens(rest) as real * lb.msPerToken
    ensures CostHere(q, local, None) == 0.0
  {
    LongestUnique(Nil, Lookup(local, q.path), n);
    assert q.path[0..] == q.path;
  }

  /** The busier this node is, the more it forwards: a request that is forwarded now would still be, to the
      same peer, with more work queued here. */
  lemma BusierForwards(q: Question, local: Contents, lb: Local, item: Queued, r: Ref)
    requires Decision(q, CostHere(q, local, Some(lb)), r) && r != Nil && lb.msPerToken >= 0.0
    ensures Decision(q, CostHere(q, local, Some(lb.(queue := lb.queue + [item]))), r)
  {
    QueuedCost(q, local, lb, item);
    Tokens.Product(TokensOf(item) as real, lb.msPerToken);
    var now, then' := CostHere(q, local, Some(lb)), CostHere(q, local, Some(lb.(queue := lb.queue + [item])));
    assert now <= then';
    var o :| Considered(q, o) && o.cost < now;
    assert o.cost < then';
  }
}
