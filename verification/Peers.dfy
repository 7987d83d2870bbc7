/** The load balancer's view of its peers: failure counts and the availability map. */
module Peers {
  import opened Options
  import opened Servers

  datatype Metrics = Metrics(numRunning: int, numWaiting: int, maxRunning: int, gpuCacheUsage: real)

  datatype Status = Status(available: bool, healthy: bool, running: int, waiting: int, total: int, gpuCacheUsage: real)

  /** The entry repeats what the peer reported. */
  predicate Figures(e: Status, m: Metrics) {
    && e.running == m.numRunning && e.waiting == m.numWaiting && e.total == m.numRunning + m.numWaiting
    && e.gpuCacheUsage == m.gpuCacheUsage
  }

  /** The entry of a peer that has not been polled yet. */
  const NEW := Status(true, true, 0, 0, 0, 0.0)

  class PeerNode {
    const id: string                  // instance ID; empty for a peer added by address
    const ip: string
    const port: int
    var metrics: Metrics
    var healthy: bool
    var consecutiveFails: nat

    ghost var polls: seq<bool>

    /** AddPeer assumes a new peer healthy; AddPeerByIP leaves its metrics empty. */
    constructor (id: string, ip: string, port: int, assumedHealthy: bool)
      ensures this.id == id && this.ip == ip && this.port == port
      ensures polls == [] && Counts() && healthy == assumedHealthy
    {
      this.id, this.ip, this.port := id, ip, port;
      metrics, healthy, consecutiveFails, polls := Metrics(0, 0, 0, 0.0), assumedHealthy, 0, [];
    }

    /** The failure count is the trailing run of failed polls. */
    ghost predicate Counts()
      reads this
    {
      consecutiveFails == TrailingFails(polls)
    }
  }

  class PeerTable {
    var peers: map<PeerNode, Status>
    const unhealthyThreshold: int
    const gpuCacheThreshold: real
    const maxConcurrentRequests: int

    constructor (unhealthyThreshold: int, gpuCacheThreshold: real, maxConcurrentRequests: int)
      ensures Valid() && peers == map[] && this.unhealthyThreshold == unhealthyThreshold
    {
      peers := map[];
      this.unhealthyThreshold := unhealthyThreshold;
      this.gpuCacheThreshold := gpuCacheThreshold;
      this.maxConcurrentRequests := maxConcurrentRequests;
    }

    /** A peer's entry says healthy exactly when its trailing run of failed polls is below the
        threshold, and an available peer is healthy. */
    ghost predicate EntryOk(p: PeerNode)
      requires p in peers
      reads this, p
    {
      && p.Counts()
      && (peers[p].healthy <==> HealthyAfter(p.polls, unhealthyThreshold))
      && (peers[p].available ==> peers[p].healthy)
    }

    ghost predicate Valid()
      reads this, peers.Keys
    {
      forall p | p in peers :: EntryOk(p)
    }

    method AddPeer(id: string, ip: string, port: int) returns (p: PeerNode)
      requires Valid()
      modifies this
      ensures Valid() && fresh(p) && peers == old(peers)[p := NEW] && p.id == id && p.ip == ip && p.port == port
      ensures peers[p].available && peers[p].healthy && peers[p].total == 0
    {
      p := new PeerNode(id, ip, port, true);
      peers := peers[p := NEW];
      assert forall x | x in peers && x != p :: old(EntryOk(x));
    }

    /** A peer that satisfies the test, if there is one; the map is searched in any order. */
    method Find(matches: PeerNode -> bool) returns (found: Option<PeerNode>)
      ensures found.Some? ==> found.value in peers && matches(found.value)
      ensures found.None? ==> forall p | p in peers :: !matches(p)
    {
      var left := peers.Keys;
      while left != {}
        invariant left <= peers.Keys && forall p | p in peers.Keys - left :: !matches(p)
      {
        var p :| p in left;
        if matches(p) {
          return Some(p);
        }
        left := left - {p};
      }
      return None;
    }

    /** No second entry is made for an address that is registered already. */
    method AddPeerByIP(ip: string, port: int) returns (added: Option<PeerNode>)
      requires Valid()
      modifies this
      ensures Valid() && (added.None? <==> exists p :: p in old(peers) && p.ip == ip && p.port == port)
      ensures added.None? ==> peers == old(peers)
      ensures added.Some? ==> fresh(added.value) && peers == old(peers)[added.value := NEW]
                              && added.value.ip == ip && added.value.port == port
      ensures added.Some? ==> peers[added.value].available && peers[added.value].healthy
    {
      var known := Find((p: PeerNode) => p.ip == ip && p.port == port);
      if known.Some? {
        return None;
      }
      var p := new PeerNode("", ip, port, false);
      peers := peers[p := NEW];
      added := Some(p);
      assert forall x | x in peers && x != p :: old(EntryOk(x));
    }

    /** One peer with the given instance ID goes, if there is any; every other entry stays. */
    method RemovePeer(id: string) returns (removed: Option<PeerNode>)
      requires Valid()
      modifies this
      ensures Valid() && (removed.None? <==> forall p | p in old(peers) :: p.id != id)
      ensures removed.None? ==> peers == old(peers)
      ensures removed.Some? ==> removed.value in old(peers) && removed.value.id == id
                                && peers == old(peers) - {removed.value}
    {
      removed := Find((p: PeerNode) => p.id == id);
      if removed.Some? {
        peers := peers - {removed.value};
      }
      assert forall x | x in peers :: old(EntryOk(x));
    }

    method MarkPeerUnhealthy(p: PeerNode)
      requires Valid() && p.Counts()
      modifies this, p
      ensures Valid() && p.Counts() && p.polls == old(p.polls) + [false]
      ensures TrailingFails(p.polls) < unhealthyThreshold ==> peers == old(peers)
      ensures TrailingFails(p.polls) >= unhealthyThreshold ==>
                p in peers && !peers[p].healthy && !peers[p].available && peers == old(peers)[p := peers[p]]
      ensures p.metrics == old(p.metrics)
      ensures TrailingFails(p.polls) >= unhealthyThreshold ==> Figures(peers[p], p.metrics)
    {
      p.polls := p.polls + [false];
      assert p.polls[..|p.polls| - 1] == old(p.polls);
      p.consecutiveFails := p.consecutiveFails + 1;
      if p.consecutiveFails >= unhealthyThreshold {
        p.healthy := false;
        peers := peers[p := Status(false, false, p.metrics.numRunning, p.metrics.numWaiting,
                                   p.metrics.numRunning + p.metrics.numWaiting, p.metrics.gpuCacheUsage)];
      }
      assert forall x | x in peers && x != p :: old(EntryOk(x));
    }

    /** A successful poll, which also writes back the entry of a peer that was removed meanwhile. */
    method PollSucceeded(p: PeerNode, m: Metrics)
      requires Valid()
      modifies this, p
      ensures Valid() && p.Counts() && p.polls == old(p.polls) + [true]
      ensures p in peers && peers == old(peers)[p := peers[p]] && peers[p].healthy
      ensures p.metrics == m && Figures(peers[p], m) && p.consecutiveFails == 0
      ensures peers[p].available <==>
                m.gpuCacheUsage < gpuCacheThreshold
                && m.numRunning + m.numWaiting < (if m.maxRunning == 0 then maxConcurrentRequests else m.maxRunning)
    {
      p.polls := p.polls + [true];
      p.metrics, p.healthy, p.consecutiveFails := m, true, 0;
      var maxCapacity := m.maxRunning;
      if maxCapacity == 0 {
        maxCapacity := maxConcurrentRequests;
      }
      var total := m.numRunning + m.numWaiting;
      var available := m.gpuCacheUsage < gpuCacheThreshold && total < maxCapacity;
      peers := peers[p := Status(available, true, m.numRunning, m.numWaiting, total, m.gpuCacheUsage)];
      assert forall x | x in peers && x != p :: old(EntryOk(x));
    }
  }
}
