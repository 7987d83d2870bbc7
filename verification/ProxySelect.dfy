/** selectServer: the least-cost eligible server for a prompt. */
module ProxySelect {
  import opened Keys
  import opened Options
  import opened RadixShape
  import opened RadixLookup
  import opened RadixHistory
  import opened PrefixTree
  import opened Servers
  import Tokens

  datatype Config = Config(gpuCacheThreshold: real, capacityGating: bool, maxRunningPerServer: int,
                           msPerToken: real, runningCostFactor: real)

  const DEFAULT_TOKENS := 500

  ghost predicate HasCapacity(cfg: Config, s: SGLangServer)
    reads s
  {
    && s.healthy && s.gpuCacheUsage < cfg.gpuCacheThreshold
    && (cfg.capacityGating && cfg.maxRunningPerServer > 0 ==> |s.runningRequests| < cfg.maxRunningPerServer)
  }

  /** Tokens waiting inside the server: none are counted when the proxy gates capacity itself. */
  ghost function QueuedTokens(cfg: Config, s: SGLangServer): nat
    reads s
  {
    if cfg.capacityGating then 0
    else if s.runningRequests == map[] then s.numWaitingReqs * DEFAULT_TOKENS
    else s.numWaitingReqs * (Tokens.Total(s.runningRequests) / |s.runningRequests|)
  }

  /** The latency used for routing, in whole milliseconds. */
  function LatencyMs(s: SGLangServer): nat
    reads s
  {
    (if s.latencyAvg == 0 then s.latency else s.latencyAvg) / 1_000_000
  }

  /** The time until the request's own prefill is done, `matchedLen` bytes of the prompt being cached. */
  ghost function Prefill(cfg: Config, s: SGLangServer, requestTokens: nat, matchedLen: nat): real
    reads s
  {
    Tokens.PrefillMs(QueuedTokens(cfg, s), Tokens.Total(s.runningRequests), requestTokens, Tokens.Estimate(matchedLen),
                     cfg.msPerToken, cfg.runningCostFactor)
  }

  ghost function Cost(cfg: Config, s: SGLangServer, requestTokens: nat, matchedLen: nat): real
    reads s
  {
    Prefill(cfg, s, requestTokens, matchedLen) + LatencyMs(s) as real
  }

  method ServerHasCapacity(cfg: Config, s: SGLangServer) returns (ok: bool)
    ensures ok <==> HasCapacity(cfg, s)
  {
    if !s.healthy {
      return false;
    }
    if s.gpuCacheUsage >= cfg.gpuCacheThreshold {
      return false;
    }
    if cfg.capacityGating {
      if cfg.maxRunningPerServer > 0 && |s.runningRequests| >= cfg.maxRunningPerServer {
        return false;
      }
    }
    return true;
  }

  method CalculateServerCost(cfg: Config, s: SGLangServer, requestTokens: nat)
    returns (cost: real, queuedTokens: nat, runningTokens: nat)
    ensures cost == Cost(cfg, s, requestTokens, 0)
    ensures queuedTokens == QueuedTokens(cfg, s) && runningTokens == Tokens.Total(s.runningRequests)
  {
    runningTokens, cost := Tokens.AddUp(s.runningRequests, cfg.msPerToken, cfg.runningCostFactor);
    queuedTokens := 0;
    if !cfg.capacityGating {
      var avgTokens := DEFAULT_TOKENS;
      if |s.runningRequests| > 0 {
        avgTokens := runningTokens / |s.runningRequests|;
      }
      queuedTokens := s.numWaitingReqs * avgTokens;
    }
    cost := cost + queuedTokens as real * cfg.msPerToken;
    cost := cost + requestTokens as real * cfg.msPerToken;
    cost := cost + LatencyMs(s) as real;
  }

  method BestMatch(s: Ref, matches: seq<Match>) returns (matchedLen: nat)
    ensures matchedLen == Longest(s, matches)
  {
    matchedLen := 0;
    for j := 0 to |matches|
      invariant LongestFor(s, matches[..j], matchedLen)
    {
      if matches[j].server == s && matches[j].matchedLen > matchedLen {
        matchedLen := matches[j].matchedLen;
      }
    }
    assert matches[..|matches|] == matches;
    LongestUnique(s, matches, matchedLen);
  }

  datatype Candidate = Candidate(server: SGLangServer, cost: real, matchedLen: nat,
                                 queuedTokens: nat, runningTokens: nat)

  datatype Routing = Routing(predictedPrefillMs: real, queuedTokens: nat, runningTokens: nat,
                             serverCosts: map<string, real>)

  /** The cost the proxy assigns a server: its work, the prompt, less the longest prefix it has cached. */
  ghost function RouteCost(cfg: Config, m: Contents, s: SGLangServer, prompt: Key, requestTokens: nat): real
    reads s
  {
    Cost(cfg, s, requestTokens, Longest(s.pointer, Lookup(m, prompt)))
  }

  ghost predicate Describes(cfg: Config, m: Contents, prompt: Key, requestTokens: nat, c: Candidate)
    reads c.server
  {
    && HasCapacity(cfg, c.server)
    && c.cost == RouteCost(cfg, m, c.server, prompt, requestTokens)
    && c.matchedLen == Longest(c.server.pointer, Lookup(m, prompt))
    && c.queuedTokens == QueuedTokens(cfg, c.server)
    && c.runningTokens == Tokens.Total(c.server.runningRequests)
  }

  /** The entry of the cost table for a server: -1 marks one without capacity. */
  ghost predicate Listed(cfg: Config, m: Contents, prompt: Key, requestTokens: nat, s: SGLangServer,
                         costs: map<string, real>)
    reads s
  {
    s.id in costs && costs[s.id] == if HasCapacity(cfg, s) then RouteCost(cfg, m, s, prompt, requestTokens) else -1.0
  }

  lemma LeastExists(cs: seq<Candidate>) returns (k: nat)
    requires cs != []
    ensures k < |cs| && forall j | 0 <= j < |cs| :: cs[k].cost <= cs[j].cost
  {
    k := 0;
    if |cs| > 1 {
      var n := |cs| - 1;
      var i := LeastExists(cs[..n]);
      k := if cs[..n][i].cost <= cs[n].cost then i else n;
      assert forall j | 0 <= j < n :: cs[..n][i].cost <= cs[..n][j].cost;
    }
  }

  /** The cost after taking the matched prefix off. */
  lemma DiscountedCost(cfg: Config, s: SGLangServer, requestTokens: nat, n: nat)
    ensures Cost(cfg, s, requestTokens, n)
            == Cost(cfg, s, requestTokens, 0) - Tokens.Estimate(n) as real * cfg.msPerToken
  {
    Tokens.Discount(QueuedTokens(cfg, s), Tokens.Total(s.runningRequests), requestTokens, Tokens.Estimate(n),
                    cfg.msPerToken, cfg.runningCostFactor);
  }

  method CostServer(cfg: Config, server: SGLangServer, matches: seq<Match>, prompt: Key, requestTokens: nat,
                    ghost m: Contents)
    returns (c: Candidate)
    requires matches == Lookup(m, prompt) && HasCapacity(cfg, server)
    ensures c.server == server && Describes(cfg, m, prompt, requestTokens, c)
  {
    var cost, queuedTokens, runningTokens := CalculateServerCost(cfg, server, requestTokens);
    var matchedLen := BestMatch(server.pointer, matches);
    if matchedLen > 0 {
      DiscountedCost(cfg, server, requestTokens, matchedLen);
      cost := cost - Tokens.Estimate(matchedLen) as real * cfg.msPerToken;
    }
    c := Candidate(server, cost, matchedLen, queuedTokens, runningTokens);
  }

  /** Among the first n servers, none after i has i's id. */
  ghost predicate LastWithId(servers: seq<SGLangServer>, n: nat, i: nat)
    requires i < n <= |servers|
  {
    forall j | i < j < n :: servers[j].id != servers[i].id
  }

  ghost predicate AllListed(cfg: Config, m: Contents, prompt: Key, requestTokens: nat, servers: seq<SGLangServer>,
                            n: nat, costs: map<string, real>)
    requires n <= |servers|
    reads servers
  {
    forall i | 0 <= i < n && LastWithId(servers, n, i) :: Listed(cfg, m, prompt, requestTokens, servers[i], costs)
  }

  lemma ListOne(cfg: Config, m: Contents, prompt: Key, requestTokens: nat, servers: seq<SGLangServer>, n: nat,
                costs: map<string, real>, cost: real)
    requires n < |servers| && AllListed(cfg, m, prompt, requestTokens, servers, n, costs)
    requires Listed(cfg, m, prompt, requestTokens, servers[n], costs[servers[n].id := cost])
    ensures AllListed(cfg, m, prompt, requestTokens, servers, n + 1, costs[servers[n].id := cost])
  {
    forall i | 0 <= i < n + 1 && LastWithId(servers, n + 1, i)
      ensures Listed(cfg, m, prompt, requestTokens, servers[i], costs[servers[n].id := cost])
    {
      if i < n {
        assert LastWithId(servers, n, i) && servers[n].id != servers[i].id;
        assert Listed(cfg, m, prompt, requestTokens, servers[i], costs);
      }
    }
  }

  ghost predicate Covered(cfg: Config, s: SGLangServer, candidates: seq<Candidate>)
    reads s
  {
    HasCapacity(cfg, s) ==> exists k :: 0 <= k < |candidates| && candidates[k].server == s
  }

  /** Cost out each server in turn: the candidates with capacity, and the table of all costs. */
  method CostServers(cfg: Config, servers: seq<SGLangServer>, matches: seq<Match>, prompt: Key, requestTokens: nat,
                     ghost m: Contents)
    returns (candidates: seq<Candidate>, costs: map<string, real>)
    requires matches == Lookup(m, prompt)
    ensures forall k | 0 <= k < |candidates| ::
              candidates[k].server in servers && Describes(cfg, m, prompt, requestTokens, candidates[k])
    ensures forall i | 0 <= i < |servers| :: Covered(cfg, servers[i], candidates)
    ensures AllListed(cfg, m, prompt, requestTokens, servers, |servers|, costs)
  {
    candidates, costs := [], map[];
    for n := 0 to |servers|
      invariant forall k | 0 <= k < |candidates| ::
                  candidates[k].server in servers && Describes(cfg, m, prompt, requestTokens, candidates[k])
      invariant forall i | 0 <= i < n :: Covered(cfg, servers[i], candidates)
      invariant AllListed(cfg, m, prompt, requestTokens, servers, n, costs)
    {
      var server := servers[n];
      var ok := ServerHasCapacity(cfg, server);
      if !ok {
        ListOne(cfg, m, prompt, requestTokens, servers, n, costs, -1.0);
        costs := costs[server.id := -1.0];
      } else {
        var c := CostServer(cfg, server, matches, prompt, requestTokens, m);
        ListOne(cfg, m, prompt, requestTokens, servers, n, costs, c.cost);
        costs := costs[server.id := c.cost];
        ghost var before := candidates;
        candidates := candidates + [c];
        CoveredGrows(cfg, servers, n, before, c);
      }
    }
  }

  lemma CoveredGrows(cfg: Config, servers: seq<SGLangServer>, n: nat, before: seq<Candidate>, c: Candidate)
    requires n < |servers| && c.server == servers[n] && forall i | 0 <= i < n :: Covered(cfg, servers[i], before)
    ensures forall i | 0 <= i < n + 1 :: Covered(cfg, servers[i], before + [c])
  {
    var now := before + [c];
    forall i | 0 <= i < n + 1 && HasCapacity(cfg, servers[i]) ensures Covered(cfg, servers[i], now) {
      if i == n {
        assert now[|before|].server == servers[n];
      } else {
        assert Covered(cfg, servers[i], before);
        var k :| 0 <= k < |before| && before[k].server == servers[i];
        assert now[k].server == servers[i];
      }
    }
  }

  /** Sorting by cost leaves some least-cost candidate first. */
  method Cheapest(candidates: seq<Candidate>) returns (best: Candidate)
    requires candidates != []
    ensures best in candidates && forall j | 0 <= j < |candidates| :: best.cost <= candidates[j].cost
  {
    ghost var least := LeastExists(candidates);
    var k :| 0 <= k < |candidates| && forall j | 0 <= j < |candidates| :: candidates[k].cost <= candidates[j].cost;
    best := candidates[k];
  }

  /** The decision for a prompt: nil exactly when no server has capacity; otherwise a server of least
      cost among those with capacity, whose cost is the predicted prefill time plus its latency, and
      whose token counts are those reported. */
  ghost predicate Decision(cfg: Config, m: Contents, servers: seq<SGLangServer>, prompt: Key, requestTokens: nat,
                           best: Option<(SGLangServer, Routing)>)
    reads servers, if best.Some? then {best.value.0} else {}
  {
    match best
    case None => forall s | s in servers :: !HasCapacity(cfg, s)
    case Some((b, routing)) =>
      && b in servers && HasCapacity(cfg, b)
      && (forall s | s in servers && HasCapacity(cfg, s) ::
            RouteCost(cfg, m, b, prompt, requestTokens) <= RouteCost(cfg, m, s, prompt, requestTokens))
      && routing.queuedTokens == QueuedTokens(cfg, b) && routing.runningTokens == Tokens.Total(b.runningRequests)
      && routing.predictedPrefillMs + LatencyMs(b) as real == RouteCost(cfg, m, b, prompt, requestTokens)
      && AllListed(cfg, m, prompt, requestTokens, servers, |servers|, routing.serverCosts)
  }

  // ----- eligibility, told from the polls

  ghost predicate AllHealthOk(servers: seq<SGLangServer>, threshold: int)
    reads servers
  {
    forall s | s in servers :: s.HealthOk(threshold)
  }

  /** Not every one of the last polls failed, the cache is used below the threshold, and with gating and a
      positive limit fewer requests run than the limit. */
  ghost predicate Eligible(cfg: Config, threshold: nat, s: SGLangServer)
    reads s
  {
    && !FailedLately(s.polls, threshold)
    && s.gpuCacheUsage < cfg.gpuCacheThreshold
    && (cfg.capacityGating && cfg.maxRunningPerServer > 0 ==> |s.runningRequests| < cfg.maxRunningPerServer)
  }

  lemma EligibleMeans(cfg: Config, threshold: nat, s: SGLangServer)
    requires threshold >= 1 && s.HealthOk(threshold)
    ensures HasCapacity(cfg, s) <==> Eligible(cfg, threshold, s)
  {
    HealthyMeans(s.polls, threshold);
  }

  ghost predicate OnlyWithId(servers: seq<SGLangServer>, i: nat)
    requires i < |servers|
  {
    forall j | 0 <= j < |servers| && j != i :: servers[j].id != servers[i].id
  }

  /** The tuning is not negative and the token count is the estimate, so costs are not negative. */
  predicate Sane(cfg: Config, prompt: Key, requestTokens: nat) {
    cfg.msPerToken >= 0.0 && cfg.runningCostFactor >= 0.0 && requestTokens == Tokens.Estimate(|prompt|)
  }

  /** -1 marks exactly the ineligible servers, among those whose id is their own. */
  ghost predicate MarksIneligible(cfg: Config, threshold: nat, servers: seq<SGLangServer>, costs: map<string, real>)
    reads servers
  {
    forall i | 0 <= i < |servers| && OnlyWithId(servers, i) ::
      servers[i].id in costs && (costs[servers[i].id] == -1.0 <==> !Eligible(cfg, threshold, servers[i]))
  }

  /** The decision in terms of the servers' polls, tables and limits: a server is chosen if and only if one is
      eligible, the chosen one is, and the table marks those that are not. */
  ghost predicate Justified(cfg: Config, threshold: nat, servers: seq<SGLangServer>, prompt: Key, requestTokens: nat,
                            best: Option<(SGLangServer, Routing)>)
    reads servers, if best.Some? then {best.value.0} else {}
  {
    match best
    case None => forall s | s in servers :: !Eligible(cfg, threshold, s)
    case Some((b, routing)) =>
      && b in servers && Eligible(cfg, threshold, b)
      && (Sane(cfg, prompt, requestTokens) ==> MarksIneligible(cfg, threshold, servers, routing.serverCosts))
  }

  lemma MarkedRight(cfg: Config, m: Contents, threshold: nat, servers: seq<SGLangServer>, prompt: Key,
                    requestTokens: nat, costs: map<string, real>, i: nat)
    requires threshold >= 1 && AllHealthOk(servers, threshold) && Sane(cfg, prompt, requestTokens)
    requires AllListed(cfg, m, prompt, requestTokens, servers, |servers|, costs)
    requires i < |servers| && OnlyWithId(servers, i)
    ensures servers[i].id in costs && (costs[servers[i].id] == -1.0 <==> !Eligible(cfg, threshold, servers[i]))
  {
    assert LastWithId(servers, |servers|, i);
    assert Listed(cfg, m, prompt, requestTokens, servers[i], costs);
    CostAtLeastLatency(cfg, m, servers[i], prompt);
    EligibleMeans(cfg, threshold, servers[i]);
  }

  lemma DecisionJustified(cfg: Config, m: Contents, threshold: nat, servers: seq<SGLangServer>, prompt: Key,
                          requestTokens: nat, best: Option<(SGLangServer, Routing)>)
    requires threshold >= 1 && AllHealthOk(servers, threshold)
    requires Decision(cfg, m, servers, prompt, requestTokens, best)
    ensures Justified(cfg, threshold, servers, prompt, requestTokens, best)
  {
    forall s | s in servers ensures HasCapacity(cfg, s) <==> Eligible(cfg, threshold, s) {
      EligibleMeans(cfg, threshold, s);
    }
    if best.Some? && Sane(cfg, prompt, requestTokens) {
      forall i | 0 <= i < |servers| && OnlyWithId(servers, i)
        ensures servers[i].id in best.value.1.serverCosts
        ensures best.value.1.serverCosts[servers[i].id] == -1.0 <==> !Eligible(cfg, threshold, servers[i])
      {
        MarkedRight(cfg, m, threshold, servers, prompt, requestTokens, best.value.1.serverCosts, i);
      }
    }
  }

  method SelectServer(cfg: Config, servers: seq<SGLangServer>, tree: Tree, prompt: Key, requestTokens: nat)
    returns (best: Option<(SGLangServer, Routing)>)
    requires tree.Valid()
    ensures Decision(cfg, tree.Contents(), servers, prompt, requestTokens, best)
    ensures forall threshold: nat | threshold >= 1 && AllHealthOk(servers, threshold) ::
              Justified(cfg, threshold, servers, prompt, requestTokens, best)
  {
    best := Decide(cfg, servers, tree, prompt, requestTokens);
    forall threshold: nat | threshold >= 1 && AllHealthOk(servers, threshold)
      ensures Justified(cfg, threshold, servers, prompt, requestTokens, best)
    {
      DecisionJustified(cfg, tree.Contents(), threshold, servers, prompt, requestTokens, best);
    }
  }

  method Decide(cfg: Config, servers: seq<SGLangServer>, tree: Tree, prompt: Key, requestTokens: nat)
    returns (best: Option<(SGLangServer, Routing)>)
    requires tree.Valid()
    ensures Decision(cfg, tree.Contents(), servers, prompt, requestTokens, best)
  {
    if |servers| == 0 {
      return None;
    }
    var matches := tree.FindPrefixMatches(prompt);
    var candidates, costs := CostServers(cfg, servers, matches, prompt, requestTokens, tree.Contents());
    assert forall i | 0 <= i < |servers| :: Covered(cfg, servers[i], candidates);
    if |candidates| == 0 {
      return None;
    }
    var c := Cheapest(candidates);
    var ms := Tokens.Predict(c.queuedTokens, c.runningTokens, requestTokens, Tokens.Estimate(c.matchedLen),
                             cfg.msPerToken, cfg.runningCostFactor);
    best := Some((c.server, Routing(ms, c.queuedTokens, c.runningTokens, costs)));
  }

  // ----- what the cost means

  /** With non-negative tuning and the estimated token count, no server costs less than its latency,
      so a real cost is never mistaken for the -1 of a server without capacity. */
  lemma CostAtLeastLatency(cfg: Config, m: Contents, s: SGLangServer, prompt: Key)
    requires cfg.msPerToken >= 0.0 && cfg.runningCostFactor >= 0.0
    ensures RouteCost(cfg, m, s, prompt, Tokens.Estimate(|prompt|)) >= LatencyMs(s) as real >= 0.0
  {
    var n := Longest(s.pointer, Lookup(m, prompt));
    LongestWithin(m, prompt, s.pointer);
    Tokens.SplitEstimate(|prompt|, n);
    Tokens.PrefillNonNegative(QueuedTokens(cfg, s), Tokens.Total(s.runningRequests), Tokens.Estimate(|prompt|),
                              Tokens.Estimate(n), cfg.msPerToken, cfg.runningCostFactor);
  }

  /** The proxy's charge for a prompt, total less matched, is within one token's time of charging the
      unmatched suffix as the load balancer does, and never above it. */
  lemma ChargesAgree(cfg: Config, m: Contents, s: SGLangServer, prompt: Key)
    requires cfg.msPerToken >= 0.0
    ensures var n := Longest(s.pointer, Lookup(m, prompt));
            n <= |prompt| &&
            var proxy := RouteCost(cfg, m, s, prompt, Tokens.Estimate(|prompt|));
            var suffix := Cost(cfg, s, Tokens.Estimate(|prompt| - n), 0);
            suffix - cfg.msPerToken <= proxy <= suffix
  {
    var n := Longest(s.pointer, Lookup(m, prompt));
    LongestWithin(m, prompt, s.pointer);
    Tokens.PrefillSuffix(QueuedTokens(cfg, s), Tokens.Total(s.runningRequests), |prompt|, n,
                         cfg.msPerToken, cfg.runningCostFactor);
  }
}
