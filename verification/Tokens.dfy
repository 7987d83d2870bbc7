/** Character-based token estimates and sums of tracked tokens. */
module Tokens {
  import opened Sets

  type Id = nat

  /** About four bytes per token, rounded up. */
  function Estimate(bytes: nat): nat {
    (bytes + 3) / 4
  }

  /** The estimate is the least number of tokens of four bytes that hold them all. */
  lemma EstimateIsCeiling(bytes: nat)
    ensures bytes <= 4 * Estimate(bytes) < bytes + 4
  {
  }

  lemma EstimateMonotone(a: nat, b: nat)
    requires a <= b
    ensures Estimate(a) <= Estimate(b)
  {
  }

  /** Charging "total minus matched" is at most one token below charging the unmatched suffix. */
  lemma SplitEstimate(total: nat, matched: nat)
    requires matched <= total
    ensures Estimate(matched) <= Estimate(total)
    ensures Estimate(total - matched) - 1 <= Estimate(total) - Estimate(matched) <= Estimate(total - matched)
  {
  }

  /** The tokens of every tracked request. */
  ghost function Total(m: map<Id, nat>): nat {
    Sum(m, m.Keys)
  }

  /** Tracking a request, or no longer tracking it, changes the total by its own tokens only. */
  lemma TotalWith(m: map<Id, nat>, r: Id, n: nat)
    ensures Total(m[r := n]) == Total(m - {r}) + n
    ensures Total(m) == Total(m - {r}) + if r in m then m[r] else 0
  {
    var now := m[r := n];
    SumPick(now, now.Keys, r);
    assert now.Keys - {r} == (m - {r}).Keys;
    SumAgree(now, m - {r}, now.Keys - {r});
    if r in m {
      SumPick(m, m.Keys, r);
      assert m.Keys - {r} == (m - {r}).Keys;
      SumAgree(m, m - {r}, m.Keys - {r});
    } else {
      assert m - {r} == m;
    }
  }

  /** Running requests are partly processed, so their tokens are weighted. */
  function RunningCost(tokens: nat, msPerToken: real, factor: real): real {
    tokens as real * msPerToken * factor
  }

  /** The time to prefill `total` tokens of which `matched` are cached, behind queued and running work. */
  function PrefillMs(queued: nat, running: nat, total: nat, matched: nat, msPerToken: real, factor: real): real {
    queued as real * msPerToken + RunningCost(running, msPerToken, factor) + total as real * msPerToken
    - matched as real * msPerToken
  }

  /** Each queued token costs its time. */
  lemma QueuedLaw(queued: nat, running: nat, total: nat, matched: nat, ms: real, factor: real, k: nat)
    ensures PrefillMs(queued + k, running, total, matched, ms, factor)
            == PrefillMs(queued, running, total, matched, ms, factor) + k as real * ms
  {
    Distribute(queued, k, ms, factor);
  }

  /** Each running token costs its weighted time. */
  lemma RunningLaw(queued: nat, running: nat, total: nat, matched: nat, ms: real, factor: real, k: nat)
    ensures PrefillMs(queued, running + k, total, matched, ms, factor)
            == PrefillMs(queued, running, total, matched, ms, factor) + k as real * ms * factor
  {
    Distribute(running, k, ms, factor);
  }

  /** Each token of the request costs its time. */
  lemma IncomingLaw(queued: nat, running: nat, total: nat, matched: nat, ms: real, factor: real, k: nat)
    ensures PrefillMs(queued, running, total + k, matched, ms, factor)
            == PrefillMs(queued, running, total, matched, ms, factor) + k as real * ms
  {
    Distribute(total, k, ms, factor);
  }

  /** Each matched token saves its time. */
  lemma MatchedLaw(queued: nat, running: nat, total: nat, matched: nat, ms: real, factor: real, k: nat)
    ensures PrefillMs(queued, running, total, matched + k, ms, factor)
            == PrefillMs(queued, running, total, matched, ms, factor) - k as real * ms
  {
    Distribute(matched, k, ms, factor);
  }

  /** No work costs nothing. */
  lemma NothingCostsNothing(ms: real, factor: real)
    ensures PrefillMs(0, 0, 0, 0, ms, factor) == 0.0
  {
  }

  lemma Product(a: real, b: real)
    requires a >= 0.0 && b >= 0.0
    ensures a * b >= 0.0
  {
  }

  lemma PrefillNonNegative(queued: nat, running: nat, total: nat, matched: nat, ms: real, factor: real)
    requires ms >= 0.0 && factor >= 0.0 && matched <= total
    ensures PrefillMs(queued, running, total, matched, ms, factor) >= 0.0
  {
    Product(queued as real, ms);
    Product(running as real, ms);
    Product(running as real * ms, factor);
    Product((total - matched) as real, ms);
    assert (total - matched) as real * ms == total as real * ms - matched as real * ms;
  }

  /** Charging the whole prompt less the matched part, or only the unmatched suffix. */
  lemma PrefillSuffix(queued: nat, running: nat, total: nat, matched: nat, ms: real, factor: real)
    requires ms >= 0.0 && matched <= total
    ensures var suffix := PrefillMs(queued, running, Estimate(total - matched), 0, ms, factor);
            suffix - ms <= PrefillMs(queued, running, Estimate(total), Estimate(matched), ms, factor) <= suffix
  {
    SplitEstimate(total, matched);
    var e: int, f: int := Estimate(total) - Estimate(matched), Estimate(total - matched);
    assert e as real * ms == Estimate(total) as real * ms - Estimate(matched) as real * ms;
    assert (f - 1) as real * ms == f as real * ms - ms;
    assert e == f || e == f - 1;
  }

  /** The prediction as it is added up, part by part. */
  method Predict(queued: nat, running: nat, total: nat, matched: nat, msPerToken: real, factor: real) returns (ms: real)
    ensures ms == PrefillMs(queued, running, total, matched, msPerToken, factor)
  {
    var queuedCost := queued as real * msPerToken;
    var runningCost := running as real * msPerToken * factor;
    var incomingCost := total as real * msPerToken;
    var prefixDiscount := 0.0;
    if matched > 0 {
      prefixDiscount := matched as real * msPerToken;
    }
    ms := queuedCost + runningCost + incomingCost - prefixDiscount;
  }

  lemma Discount(queued: nat, running: nat, total: nat, matched: nat, ms: real, factor: real)
    ensures PrefillMs(queued, running, total, matched, ms, factor)
            == PrefillMs(queued, running, total, 0, ms, factor) - matched as real * ms
  {
  }

  lemma Distribute(a: nat, b: nat, x: real, y: real)
    ensures (a + b) as real * x == a as real * x + b as real * x
    ensures (a + b) as real * x * y == a as real * x * y + b as real * x * y
  {
  }

  /** Add up tracked requests, in any order, as whole tokens and as weighted cost. */
  method AddUp(running: map<Id, nat>, msPerToken: real, factor: real) returns (tokens: nat, cost: real)
    ensures tokens == Total(running)
    ensures cost == RunningCost(Total(running), msPerToken, factor)
  {
    tokens, cost := 0, 0.0;
    var left := running.Keys;
    ghost var seen := {};
    while left != {}
      invariant left <= running.Keys && seen == running.Keys - left
      invariant tokens == Sum(running, seen) && cost == tokens as real * msPerToken * factor
    {
      var r :| r in left;
      SumPick(running, seen + {r}, r);
      assert seen + {r} - {r} == seen;
      Distribute(tokens, running[r], msPerToken, factor);
      tokens := tokens + running[r];
      cost := cost + running[r] as real * msPerToken * factor;
      left := left - {r};
      seen := seen + {r};
    }
    assert seen == running.Keys;
  }
}
