/** What raises and lowers the cost at which the proxy compares its servers. */
module ProxyCostLaws {
  import opened Keys
  import opened Options
  import opened RadixShape
  import opened RadixLookup
  import opened Servers
  import opened ProxySelect
  import Tokens

  /** Latency in whole milliseconds, from the average once there is one. */
  function Millis(ns: nat): int {
    ns / 1_000_000
  }

  lemma LatencyMeans(s: SGLangServer)
    ensures s.latencyAvg > 0 ==> LatencyMs(s) == Millis(s.latencyAvg)
    ensures s.latencyAvg == 0 ==> LatencyMs(s) == Millis(s.latency)
  {
  }

  /** The same requests run on both servers, and the same part of the prompt is cached. */
  ghost predicate SameWork(m: Contents, prompt: Key, s: SGLangServer, u: SGLangServer)
    reads s, u
  {
    && s.runningRequests == u.runningRequests
    && Longest(s.pointer, Lookup(m, prompt)) == Longest(u.pointer, Lookup(m, prompt))
  }

  /** Servers with the same work differ by their latency alone; with gating the requests waiting inside a
      server do not count as work. */
  lemma LatencyDecides(cfg: Config, m: Contents, prompt: Key, n: nat, s: SGLangServer, u: SGLangServer)
    requires SameWork(m, prompt, s, u) && (cfg.capacityGating || s.numWaitingReqs == u.numWaitingReqs)
    ensures RouteCost(cfg, m, s, prompt, n) - RouteCost(cfg, m, u, prompt, n)
            == (LatencyMs(s) - LatencyMs(u)) as real
  {
  }

  lemma QueuedCosts(cfg: Config, m: Contents, prompt: Key, n: nat, s: SGLangServer, u: SGLangServer, more: nat)
    requires SameWork(m, prompt, s, u) && LatencyMs(s) == LatencyMs(u)
    requires QueuedTokens(cfg, s) == QueuedTokens(cfg, u) + more
    ensures RouteCost(cfg, m, s, prompt, n) == RouteCost(cfg, m, u, prompt, n) + more as real * cfg.msPerToken
  {
    Tokens.QueuedLaw(QueuedTokens(cfg, u), Tokens.Total(u.runningRequests), n,
                       Tokens.Estimate(Longest(u.pointer, Lookup(m, prompt))),
                       cfg.msPerToken, cfg.runningCostFactor, more);
  }

  /** What a request that waits inside a server is taken for: the average of the running ones, or 500
      tokens when none runs. */
  ghost function Each(s: SGLangServer): nat
    reads s
  {
    if s.runningRequests == map[] then 500 else Tokens.Total(s.runningRequests) / |s.runningRequests|
  }

  lemma QueuedMeans(cfg: Config, s: SGLangServer, u: SGLangServer)
    requires !cfg.capacityGating && s.runningRequests == u.runningRequests && s.numWaitingReqs >= u.numWaitingReqs
    ensures QueuedTokens(cfg, s) == QueuedTokens(cfg, u) + (s.numWaitingReqs - u.numWaitingReqs) * Each(s)
  {
    var a, b, each := s.numWaitingReqs, u.numWaitingReqs, Each(s);
    assert a * each == b * each + (a - b) * each;
  }

  /** Without gating each waiting request costs that many tokens. */
  lemma WaitingCosts(cfg: Config, m: Contents, prompt: Key, n: nat, s: SGLangServer, u: SGLangServer)
    requires !cfg.capacityGating && SameWork(m, prompt, s, u) && LatencyMs(s) == LatencyMs(u)
    requires s.numWaitingReqs >= u.numWaitingReqs
    ensures var more := (s.numWaitingReqs - u.numWaitingReqs) * Each(s);
            RouteCost(cfg, m, s, prompt, n) == RouteCost(cfg, m, u, prompt, n) + more as real * cfg.msPerToken
  {
    QueuedMeans(cfg, s, u);
    QueuedCosts(cfg, m, prompt, n, s, u, (s.numWaitingReqs - u.numWaitingReqs) * Each(s));
  }

  /** With gating each running token costs its weighted time. */
  lemma RunningCosts(cfg: Config, m: Contents, prompt: Key, n: nat, s: SGLangServer, u: SGLangServer)
    requires cfg.capacityGating && LatencyMs(s) == LatencyMs(u)
    requires Longest(s.pointer, Lookup(m, prompt)) == Longest(u.pointer, Lookup(m, prompt))
    requires Tokens.Total(s.runningRequests) >= Tokens.Total(u.runningRequests)
    ensures var more := Tokens.Total(s.runningRequests) - Tokens.Total(u.runningRequests);
            RouteCost(cfg, m, s, prompt, n)
            == RouteCost(cfg, m, u, prompt, n) + more as real * cfg.msPerToken * cfg.runningCostFactor
  {
    var k := Longest(s.pointer, Lookup(m, prompt));
    Tokens.RunningLaw(0, Tokens.Total(u.runningRequests), n, Tokens.Estimate(k), cfg.msPerToken,
                       cfg.runningCostFactor, Tokens.Total(s.runningRequests) - Tokens.Total(u.runningRequests));
  }

  /** Each token of the request costs its time. */
  lemma PromptCosts(cfg: Config, m: Contents, prompt: Key, n: nat, more: nat, s: SGLangServer)
    ensures RouteCost(cfg, m, s, prompt, n + more) == RouteCost(cfg, m, s, prompt, n) + more as real * cfg.msPerToken
  {
    Tokens.IncomingLaw(QueuedTokens(cfg, s), Tokens.Total(s.runningRequests), n,
                       Tokens.Estimate(Longest(s.pointer, Lookup(m, prompt))),
                       cfg.msPerToken, cfg.runningCostFactor, more);
  }

  /** Each token of a server's longest match saves its time. */
  lemma MatchSaves(cfg: Config, m: Contents, prompt: Key, n: nat, s: SGLangServer, k: nat)
    requires LongestFor(s.pointer, Lookup(m, prompt), k)
    ensures RouteCost(cfg, m, s, prompt, n) == Cost(cfg, s, n, 0) - Tokens.Estimate(k) as real * cfg.msPerToken
  {
    LongestUnique(s.pointer, Lookup(m, prompt), k);
    DiscountedCost(cfg, s, n, k);
  }

  /** An idle server that has nothing cached costs the prefill of the request and its latency. */
  lemma IdleCosts(cfg: Config, m: Contents, prompt: Key, n: nat, s: SGLangServer)
    requires s.runningRequests == map[] && (cfg.capacityGating || s.numWaitingReqs == 0)
    requires Longest(s.pointer, Lookup(m, prompt)) == 0
    ensures RouteCost(cfg, m, s, prompt, n) == n as real * cfg.msPerToken + LatencyMs(s) as real
  {
    Tokens.NothingCostsNothing(cfg.msPerToken, cfg.runningCostFactor);
    Tokens.IncomingLaw(0, 0, 0, 0, cfg.msPerToken, cfg.runningCostFactor, n);
    assert Tokens.Total(s.runningRequests) == 0;
  }

  /** So of two eligible servers with the same work the one with the lower latency is never passed over for
      the other; with gating, whatever waits inside them. */
  lemma FasterIsChosen(cfg: Config, m: Contents, servers: seq<SGLangServer>, prompt: Key, n: nat,
                       best: Option<(SGLangServer, Routing)>, u: SGLangServer, threshold: nat)
    requires Decision(cfg, m, servers, prompt, n, best) && best.Some?
    requires cfg.capacityGating || best.value.0.numWaitingReqs == u.numWaitingReqs
    requires threshold >= 1 && u in servers && u.HealthOk(threshold) && Eligible(cfg, threshold, u)
    requires SameWork(m, prompt, best.value.0, u) && best.value.0.latencyAvg > 0 && u.latencyAvg > 0
    ensures Millis(best.value.0.latencyAvg) <= Millis(u.latencyAvg)
  {
    EligibleMeans(cfg, threshold, u);
    LatencyDecides(cfg, m, prompt, n, best.value.0, u);
  }
}
