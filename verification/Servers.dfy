/** A backend server as the proxy tracks it: running requests, health and latency. */
module Servers {
  import opened Keys
  import Tokens

  /** The length of the trailing run of failed polls. */
  function TrailingFails(polls: seq<bool>): nat {
    if polls == [] || polls[|polls| - 1] then 0 else 1 + TrailingFails(polls[..|polls| - 1])
  }

  /** Healthy means the trailing run is shorter than the threshold; one success always suffices. */
  predicate HealthyAfter(polls: seq<bool>, threshold: int) {
    TrailingFails(polls) == 0 || TrailingFails(polls) < threshold
  }

  /** The last `threshold` polls exist and failed. */
  predicate FailedLately(polls: seq<bool>, threshold: int)
    requires threshold >= 0
  {
    |polls| >= threshold && forall i | |polls| - threshold <= i < |polls| :: !polls[i]
  }

  /** The count is the length of the longest run of failures that the history ends with. */
  lemma {:induction false} TrailingFailsMeans(polls: seq<bool>)
    ensures var n := TrailingFails(polls);
            && n <= |polls| && (forall i | |polls| - n <= i < |polls| :: !polls[i])
            && (n < |polls| ==> polls[|polls| - 1 - n])
  {
    if polls != [] && !polls[|polls| - 1] {
      var rest := polls[..|polls| - 1];
      TrailingFailsMeans(rest);
      assert forall i | 0 <= i < |rest| :: polls[i] == rest[i];
    }
  }

  /** Unhealthy means that the last `threshold` polls all failed. */
  lemma HealthyMeans(polls: seq<bool>, threshold: int)
    requires threshold >= 1
    ensures HealthyAfter(polls, threshold) <==> !FailedLately(polls, threshold)
  {
    TrailingFailsMeans(polls);
    var n := TrailingFails(polls);
    if n < threshold && |polls| >= threshold {
      assert polls[|polls| - 1 - n];
    }
  }

  /** The last n elements, or all of them. */
  function LastOf(s: seq<nat>, n: nat): seq<nat> {
    if |s| <= n then s else s[|s| - n..]
  }

  predicate AllPositive(s: seq<nat>) {
    forall x | x in s :: x > 0
  }

  /** The moving average in whole nanoseconds; converting to a Duration drops the fraction. */
  function Ewma(alpha: real, sample: nat, avg: nat): int {
    (alpha * sample as real + (1.0 - alpha) * avg as real).Floor
  }

  lemma Convex(alpha: real, x: nat, y: nat, lo: nat, hi: nat)
    requires 0.0 <= alpha <= 1.0 && lo <= x <= hi && lo <= y <= hi
    ensures lo <= Ewma(alpha, x, y) <= hi
  {
    Tokens.Product(alpha, (x - lo) as real);
    Tokens.Product(alpha, (hi - x) as real);
    Tokens.Product(1.0 - alpha, (y - lo) as real);
    Tokens.Product(1.0 - alpha, (hi - y) as real);
    var v := alpha * x as real + (1.0 - alpha) * y as real;
    assert v == lo as real + alpha * (x - lo) as real + (1.0 - alpha) * (y - lo) as real;
    assert v == hi as real - alpha * (hi - x) as real - (1.0 - alpha) * (hi - y) as real;
  }

  /** Alpha weighs the new sample: the average moves towards it, by alpha times the distance, less than
      one nanosecond being lost to truncation. */
  lemma EwmaMoves(alpha: real, sample: nat, avg: nat)
    requires 0.0 <= alpha <= 1.0
    ensures alpha == 1.0 ==> Ewma(alpha, sample, avg) == sample
    ensures alpha == 0.0 ==> Ewma(alpha, sample, avg) == avg
    ensures var moved := (Ewma(alpha, sample, avg) - avg) as real;
            alpha * (sample - avg) as real - 1.0 < moved <= alpha * (sample - avg) as real
  {
    assert alpha * sample as real + (1.0 - alpha) * avg as real == avg as real + alpha * (sample - avg) as real;
  }

  /** On positive samples, min and max are the true extremes and the average lies between them. */
  ghost predicate Extremes(samples: seq<nat>, min: nat, max: nat, avg: nat) {
    && (samples == [] ==> avg == min == max == 0)
    && (samples != [] && AllPositive(samples) ==>
          && min in samples && max in samples
          && (forall i | 0 <= i < |samples| :: min <= samples[i] <= max)
          && min <= avg <= max)
  }

  lemma NextExtremes(samples: seq<nat>, s: nat, min: nat, max: nat, avg: nat, alpha: real)
    requires 0.0 <= alpha <= 1.0 && Extremes(samples, min, max, avg) && (avg != 0 ==> Ewma(alpha, s, avg) >= 0)
    ensures Extremes(samples + [s], if min == 0 || s < min then s else min, if s > max then s else max,
                     if avg == 0 then s else Ewma(alpha, s, avg))
  {
    var next := samples + [s];
    if AllPositive(next) {
      assert s in next && forall x | x in samples :: x in next;
      if samples != [] {
        assert AllPositive(samples);
        Convex(alpha, s, avg, if s < min then s else min, if s > max then s else max);
      }
    }
  }

  /** As many as there are, up to n, and the newest ones. */
  lemma LastOfMeans(s: seq<nat>, n: nat)
    ensures |LastOf(s, n)| == (if |s| < n then |s| else n) && LastOf(s, n) == s[|s| - |LastOf(s, n)|..]
  {
  }

  lemma NextHistory(samples: seq<nat>, s: nat, n: nat)
    ensures var h := LastOf(samples, n) + [s];
            LastOf(samples + [s], n) == if |h| > n then h[1..] else h
  {
  }

  class SGLangServer {
    const id: string
    const pointer: Ref                // this server's own address, as the prefix tree stores it
    var runningRequests: map<Tokens.Id, nat>

    var healthy: bool
    var consecutiveFails: nat
    var gpuCacheUsage: real
    var numWaitingReqs: nat

    var latency: nat                  // latencies in nanoseconds
    var latencyAvg: nat
    var latencyMin: nat
    var latencyMax: nat
    var latencyHistory: seq<nat>

    ghost var polls: seq<bool>        // outcome of every metrics poll so far
    ghost var samples: seq<nat>       // every probe sample so far

    constructor (id: string, pointer: Ref)
      ensures this.id == id && this.pointer == pointer && runningRequests == map[]
      ensures polls == [] && samples == [] && fresh(this)
      ensures forall threshold: int :: HealthOk(threshold)
      ensures forall size: nat :: LatencyOk(size)
    {
      this.id, this.pointer, runningRequests := id, pointer, map[];
      healthy, consecutiveFails, gpuCacheUsage, numWaitingReqs := true, 0, 0.0, 0;
      latency, latencyAvg, latencyMin, latencyMax, latencyHistory := 0, 0, 0, 0, [];
      polls, samples := [], [];
    }

    // ----- running requests

    method Track(requestID: Tokens.Id, tokenCount: nat)
      modifies `runningRequests
      ensures runningRequests == old(runningRequests)[requestID := tokenCount]
      ensures requestID !in old(runningRequests) ==>
                Tokens.Total(runningRequests) == old(Tokens.Total(runningRequests)) + tokenCount
    {
      Tokens.TotalWith(runningRequests, requestID, tokenCount);
      runningRequests := runningRequests[requestID := tokenCount];
    }

    method Untrack(requestID: Tokens.Id)
      modifies `runningRequests
      ensures runningRequests == old(runningRequests) - {requestID}
      ensures requestID in old(runningRequests) ==>
                Tokens.Total(runningRequests) == old(Tokens.Total(runningRequests)) - old(runningRequests)[requestID]
    {
      Tokens.TotalWith(runningRequests, requestID, 0);
      runningRequests := runningRequests - {requestID};
    }

    // ----- health

    /** Health agrees with the poll history. */
    ghost predicate HealthOk(threshold: int)
      reads this
    {
      consecutiveFails == TrailingFails(polls) && (healthy <==> HealthyAfter(polls, threshold))
    }

    method MarkUnhealthy(threshold: int)
      requires HealthOk(threshold)
      modifies `consecutiveFails, `healthy, `polls
      ensures HealthOk(threshold) && polls == old(polls) + [false]
      ensures threshold >= 1 ==> (healthy <==> !FailedLately(polls, threshold))
    {
      if threshold >= 1 {
        HealthyMeans(polls + [false], threshold);
      }
      polls := polls + [false];
      assert polls[..|polls| - 1] == old(polls);
      consecutiveFails := consecutiveFails + 1;
      if consecutiveFails >= threshold {
        healthy := false;
      }
    }

    method PollSucceeded(threshold: int, waiting: nat, cacheUsage: real, took: nat)
      modifies `consecutiveFails, `healthy, `polls, `numWaitingReqs, `gpuCacheUsage, `latency
      ensures HealthOk(threshold) && polls == old(polls) + [true] && healthy && consecutiveFails == 0
      ensures numWaitingReqs == waiting && gpuCacheUsage == cacheUsage && latency == took
    {
      polls := polls + [true];
      numWaitingReqs, gpuCacheUsage := waiting, cacheUsage;
      healthy, consecutiveFails, latency := true, 0, took;
    }

    // ----- latency

    ghost predicate LatencyOk(historySize: nat)
      reads this
    {
      latencyHistory == LastOf(samples, historySize) && Extremes(samples, latencyMin, latencyMax, latencyAvg)
    }

    method UpdateLatency(sample: nat, alpha: real, historySize: nat)
      requires 0.0 <= alpha <= 1.0 && LatencyOk(historySize)
      modifies `latency, `latencyAvg, `latencyMin, `latencyMax, `latencyHistory, `samples
      ensures LatencyOk(historySize) && samples == old(samples) + [sample] && latency == sample
      ensures latencyAvg == if old(latencyAvg) == 0 then sample else Ewma(alpha, sample, old(latencyAvg))
    {
      Convex(alpha, sample, latencyAvg, 0, sample + latencyAvg);
      NextExtremes(samples, sample, latencyMin, latencyMax, latencyAvg, alpha);
      NextHistory(samples, sample, historySize);
      samples := samples + [sample];
      latency := sample;
      if latencyMin == 0 || sample < latencyMin {
        latencyMin := sample;
      }
      if sample > latencyMax {
        latencyMax := sample;
      }
      latencyHistory := latencyHistory + [sample];
      if |latencyHistory| > historySize {
        latencyHistory := latencyHistory[1..];
      }
      if latencyAvg == 0 {
        latencyAvg := sample;
      } else {
        latencyAvg := Ewma(alpha, sample, latencyAvg);
      }
    }
  }
}
