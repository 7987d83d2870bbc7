/** GORGOPolicy.Select: keep a request, or forward it to the peer that would answer soonest. */
module GorgoSelect {
  import opened Keys
  import opened Options
  import opened RadixShape
  import opened RadixLookup
  import opened RadixHistory
  import opened PrefixTree
  import Peers
  import Tokens

  /** The availability map: peers not in it have left or were never added. */
  type Availability = map<Ref, Peers.Status>

  datatype Queued = Queued(tokenCount: int, bodyLen: nat)

  /** The load balancer's state that the policy reads. */
  datatype Local = Local(msPerToken: real, runningCostFactor: real, running: map<Tokens.Id, nat>, queue: seq<Queued>)

  /** One matched prefix with its usable peers. */
  datatype Group = Group(matchedPrefix: Key, peers: seq<Ref>)

  const DEFAULT_MS_PER_TOKEN := 0.094
  const HUGE := 4611686018427387904.0 // 2^62

  predicate Usable(avail: Availability, p: Ref) {
    p in avail && avail[p].available && avail[p].healthy
  }

  function KeepUsable(avail: Availability, peers: seq<Ref>): seq<Ref> {
    if peers == [] then []
    else
      var rest := KeepUsable(avail, peers[..|peers| - 1]);
      var p := peers[|peers| - 1];
      if Usable(avail, p) then rest + [p] else rest
  }

  lemma {:induction false} InKept(avail: Availability, peers: seq<Ref>, p: Ref)
    ensures p in KeepUsable(avail, peers) <==> p in peers && Usable(avail, p)
  {
    if peers != [] {
      InKept(avail, peers[..|peers| - 1], p);
    }
  }

  /** The groups list exactly the usable servers of a lookup's entries, each at its length. */
  ghost predicate Lists(groups: seq<Group>, avail: Availability, path: Key, es: seq<Match>) {
    && (forall g | g in groups :: |g.matchedPrefix| <= |path| && g.matchedPrefix == path[..|g.matchedPrefix|])
    && (forall e :: e in es && Usable(avail, e.server) <==> InGroups(groups, e))
  }

  ghost predicate InGroups(groups: seq<Group>, e: Match) {
    exists g :: g in groups && e.server in g.peers && |g.matchedPrefix| == e.matchedLen
  }

  /** The matched prefixes get longer and longer, up to n bytes, and each has usable peers. */
  ghost predicate Longer(groups: seq<Group>, n: nat) {
    && (forall i, j | 0 <= i < j < |groups| :: |groups[i].matchedPrefix| < |groups[j].matchedPrefix|)
    && (forall g | g in groups :: 0 < |g.matchedPrefix| <= n && g.peers != [])
  }

  /** The groups after one more node, whose matched prefix is the first n bytes of the path. */
  function WithNode(groups: seq<Group>, avail: Availability, path: Key, servers: seq<Ref>, n: nat): seq<Group>
    requires n <= |path|
  {
    var kept := KeepUsable(avail, servers);
    if |kept| > 0 then groups + [Group(path[..n], kept)] else groups
  }

  lemma LongerMore(groups: seq<Group>, avail: Availability, path: Key, servers: seq<Ref>, i: nat, n: nat)
    requires Longer(groups, i) && i < n <= |path|
    ensures Longer(WithNode(groups, avail, path, servers, n), n)
  {
  }

  lemma ListsMore(groups: seq<Group>, avail: Availability, path: Key, es: seq<Match>, servers: seq<Ref>, n: nat)
    requires Lists(groups, avail, path, es) && n <= |path|
    ensures Lists(WithNode(groups, avail, path, servers, n), avail, path, es + Tag(servers, n))
  {
    var kept := KeepUsable(avail, servers);
    var g := Group(path[..n], kept);
    var groups' := WithNode(groups, avail, path, servers, n);
    forall e ensures e in es + Tag(servers, n) && Usable(avail, e.server) <==> InGroups(groups', e) {
      InTag(servers, n, e);
      InKept(avail, servers, e.server);
      assert e in es && Usable(avail, e.server) <==> InGroups(groups, e);
      if InGroups(groups, e) {
        var h :| h in groups && e.server in h.peers && |h.matchedPrefix| == e.matchedLen;
        assert h in groups';
      }
      if e.server in kept && e.matchedLen == n {
        assert g in groups';
      }
    }
  }

  method UsablePeers(avail: Availability, peers: seq<Ref>) returns (usable: seq<Ref>)
    ensures usable == KeepUsable(avail, peers)
  {
    usable := [];
    for j := 0 to |peers|
      invariant usable == KeepUsable(avail, peers[..j])
    {
      assert peers[..j + 1][..j] == peers[..j];
      if peers[j] in avail && avail[peers[j]].available && avail[peers[j]].healthy {
        usable := usable + [peers[j]];
      }
    }
    assert peers[..|peers|] == peers;
  }

  /** Record the usable peers of one node. */
  method AddNode(groups: seq<Group>, avail: Availability, matchedSoFar: Key, servers: seq<Ref>, ghost path: Key)
    returns (matches: seq<Group>)
    requires |matchedSoFar| <= |path| && matchedSoFar == path[..|matchedSoFar|]
    ensures matches == WithNode(groups, avail, path, servers, |matchedSoFar|)
  {
    matches := groups;
    var availablePeers := UsablePeers(avail, servers);
    if |availablePeers| > 0 {
      matches := matches + [Group(matchedSoFar, availablePeers)];
    }
  }

  /** The groups are right for the entries es, whose lengths are at most n. */
  ghost predicate Grouped(groups: seq<Group>, avail: Availability, path: Key, es: seq<Match>, n: nat) {
    Lists(groups, avail, path, es) && Longer(groups, n)
  }

  lemma GroupedMore(groups: seq<Group>, avail: Availability, path: Key, es: seq<Match>, servers: seq<Ref>, i: nat,
                    n: nat)
    requires Grouped(groups, avail, path, es, i) && i < n <= |path|
    ensures var groups' := WithNode(groups, avail, path, servers, n);
            && Grouped(groups', avail, path, es + Tag(servers, n), n)
            && Grouped(groups', avail, path, es + Tag(servers, n), |path|)
  {
    ListsMore(groups, avail, path, es, servers, n);
    LongerMore(groups, avail, path, servers, i, n);
  }

  /** One step of the search: the child under the next byte, and the groups with that child's peers. */
  method MatchNode(tree: Tree, node: GORGONode, path: Key, i: nat, groups: seq<Group>, avail: Availability,
                   matchedSoFar: Key)
    returns (lookup: GORGONode, sharedLen: nat, matches: seq<Group>, matched: Key)
    requires tree.Valid() && node in tree.nodes
    requires i < |path| && node.name == matchedSoFar == path[..i] && path[i] in node.children
    requires Grouped(groups, avail, path, UpTo(tree.Contents(), path, i), i)
    ensures lookup in tree.nodes && 0 < sharedLen <= |lookup.prefix| && i + sharedLen <= |path|
    ensures matched == path[..i + sharedLen]
    ensures sharedLen < |lookup.prefix| ==> Grouped(matches, avail, path, Lookup(tree.Contents(), path), |path|)
    ensures sharedLen == |lookup.prefix| ==>
              && lookup.name == path[..i + sharedLen]
              && Grouped(matches, avail, path, UpTo(tree.Contents(), path, i + sharedLen), i + sharedLen)
  {
    ghost var es := UpTo(tree.Contents(), path, i);
    lookup, sharedLen := tree.LookAhead(node, path, i);
    matched := matchedSoFar + lookup.prefix[..sharedLen];
    matches := AddNode(groups, avail, matched, lookup.servers, path);
    GroupedMore(groups, avail, path, es, lookup.servers, i, i + sharedLen);
  }

  method FindPrefixMatches(tree: Tree, path: Key, avail: Availability) returns (matches: seq<Group>)
    requires tree.Valid()
    ensures Grouped(matches, avail, path, Lookup(tree.Contents(), path), |path|)
  {
    matches := [];
    var node := tree.root;
    var i := 0;
    var matchedSoFar: Key := [];
    while i < |path|
      invariant 0 <= i <= |path| && node in tree.nodes && node.name == matchedSoFar == path[..i]
      invariant Grouped(matches, avail, path, UpTo(tree.Contents(), path, i), i)
    {
      if path[i] !in node.children {
        break;
      }
      var lookup, sharedLen;
      lookup, sharedLen, matches, matchedSoFar := MatchNode(tree, node, path, i, matches, avail, matchedSoFar);
      i := i + sharedLen;
      if sharedLen < |lookup.prefix| {
        return;
      }
      node := lookup;
    }
    tree.LookupStops(node, path, i);
  }

  // ----- local cost

  function QueueTokens(queue: seq<Queued>): nat {
    if queue == [] then 0
    else
      var q := queue[|queue| - 1];
      QueueTokens(queue[..|queue| - 1]) + if q.tokenCount > 0 then q.tokenCount else Tokens.Estimate(q.bodyLen)
  }

  /** What prefilling the prompt here costs: the unmatched rest, unless nothing or everything matched. */
  function IncomingTokens(path: Key, matchedLen: nat, requestTokens: nat, tokens: Key -> nat): nat {
    if 0 < matchedLen < |path| then tokens(path[matchedLen..]) else requestTokens
  }

  function Charge(msPerToken: real, tokens: nat): real {
    msPerToken * tokens as real
  }

  /** Running, queued and incoming work, in milliseconds. */
  ghost function LocalCost(lb: Local, m: Contents, path: Key, requestTokens: nat, tokens: Key -> nat): real {
    Tokens.RunningCost(Tokens.Total(lb.running), lb.msPerToken, lb.runningCostFactor)
    + Charge(lb.msPerToken, QueueTokens(lb.queue))
    + Charge(lb.msPerToken, IncomingTokens(path, Longest(Nil, Lookup(m, path)), requestTokens, tokens))
  }

  method AddUpQueue(queue: seq<Queued>) returns (queuedTokens: nat)
    ensures queuedTokens == QueueTokens(queue)
  {
    queuedTokens := 0;
    for i := 0 to |queue|
      invariant queuedTokens == QueueTokens(queue[..i])
    {
      assert queue[..i + 1][..i] == queue[..i];
      if queue[i].tokenCount > 0 {
        queuedTokens := queuedTokens + queue[i].tokenCount;
      } else {
        queuedTokens := queuedTokens + (queue[i].bodyLen + 3) / 4;
      }
    }
    assert queue[..|queue|] == queue;
  }

  /** The tokens this node would have to prefill for the request. */
  method LocalIncoming(localTree: Tree, path: Key, requestTokens: nat, tokens: Key -> nat) returns (incoming: nat)
    requires localTree.Valid()
    ensures incoming == IncomingTokens(path, Longest(Nil, Lookup(localTree.Contents(), path)), requestTokens, tokens)
  {
    var localMatchLen := localTree.FindLocalPrefixMatch(path);
    if localMatchLen > 0 && localMatchLen < |path| {
      incoming := tokens(path[localMatchLen..]);
    } else {
      incoming := requestTokens;
    }
  }

  method CalculateLocalCost(lb: Option<Local>, localTree: Tree, path: Key, requestTokens: nat, tokens: Key -> nat)
    returns (cost: real)
    requires localTree.Valid()
    ensures lb.None? ==> cost == 0.0
    ensures lb.Some? ==> cost == LocalCost(lb.value, localTree.Contents(), path, requestTokens, tokens)
  {
    if lb.None? {
      return 0.0;
    }
    var ms, factor := lb.value.msPerToken, lb.value.runningCostFactor;
    var runningTokens, runningCost := Tokens.AddUp(lb.value.running, ms, factor);
    var queuedTokens := AddUpQueue(lb.value.queue);
    var incoming := LocalIncoming(localTree, path, requestTokens, tokens);
    cost := runningCost + Charge(ms, queuedTokens) + Charge(ms, incoming);
  }

  // ----- peer offers

  /** What Select knows when it compares peers. */
  datatype Question = Question(m: Contents, avail: Availability, latency: map<Ref, int>, peers: seq<Ref>, path: Key,
                               msPerToken: real, tokens: Key -> nat)

  datatype Offer = Offer(peer: Ref, cost: real)

  function LatencyOf(q: Question, p: Ref): int {
    if p in q.latency then q.latency[p] else 0
  }

  /** Latency, plus prefill of what is left of the prompt after `matched` bytes. */
  function PeerCost(q: Question, p: Ref, matched: nat): real
    requires matched <= |q.path|
  {
    LatencyOf(q, p) as real + q.tokens(q.path[matched..]) as real * q.msPerToken
  }

  /** An offer from a usable peer with a match in the tree. */
  ghost predicate WarmOffer(q: Question, o: Offer) {
    exists e :: IsWarm(q, e, o)
  }

  ghost predicate IsWarm(q: Question, e: Match, o: Offer) {
    && e in Lookup(q.m, q.path) && Usable(q.avail, e.server) && e.matchedLen <= |q.path|
    && o == Offer(e.server, PeerCost(q, e.server, e.matchedLen))
  }

  /** An offer from a usable peer that starts cold. */
  ghost predicate ColdOffer(q: Question, o: Offer) {
    o.peer in q.peers && Usable(q.avail, o.peer) && o == Offer(o.peer, PeerCost(q, o.peer, 0))
  }

  /** Offers below the starting value; cold ones count only when no warm one does. */
  ghost predicate Considered(q: Question, o: Offer) {
    && o.cost < HUGE
    && if exists w :: WarmOffer(q, w) && w.cost < HUGE then WarmOffer(q, o) else ColdOffer(q, o)
  }

  /** best is the cheapest offer below HUGE so far, or Nil. */
  ghost predicate Least(offers: seq<Offer>, best: Ref, lowest: real) {
    if best == Nil then
      lowest == HUGE && forall o | o in offers :: o.cost >= HUGE
    else
      Offer(best, lowest) in offers && lowest < HUGE && forall o | o in offers :: lowest <= o.cost
  }

  lemma CompareOffer(o: Offer, best: Ref, lowest: real, offers: seq<Offer>)
    requires Least(offers, best, lowest) && o.peer != Nil
    ensures if o.cost < lowest then Least(offers + [o], o.peer, o.cost) else Least(offers + [o], best, lowest)
  {
  }

  function GroupOffers(q: Question, matched: nat, peers: seq<Ref>): seq<Offer>
    requires matched <= |q.path|
  {
    if peers == [] then []
    else
      var p := peers[|peers| - 1];
      GroupOffers(q, matched, peers[..|peers| - 1]) + [Offer(p, PeerCost(q, p, matched))]
  }

  ghost predicate Fits(q: Question, groups: seq<Group>) {
    forall g | g in groups :: |g.matchedPrefix| <= |q.path| && Nil !in g.peers
  }

  function OffersOf(q: Question, groups: seq<Group>): seq<Offer>
    requires Fits(q, groups)
  {
    if groups == [] then []
    else
      var g := groups[|groups| - 1];
      OffersOf(q, groups[..|groups| - 1]) + GroupOffers(q, |g.matchedPrefix|, g.peers)
  }

  /** Compare one peer's offer with the best so far. */
  method CompareOne(q: Question, peer: Ref, matched: nat, tokensLeft: nat, best: Ref, lowest: real,
                    ghost offers: seq<Offer>)
    returns (best': Ref, lowest': real)
    requires matched <= |q.path| && tokensLeft == q.tokens(q.path[matched..])
    requires peer != Nil && Least(offers, best, lowest)
    ensures Least(offers + [Offer(peer, PeerCost(q, peer, matched))], best', lowest')
  {
    best', lowest' := best, lowest;
    var prefillCost := tokensLeft as real * q.msPerToken;
    var totalPeerCost := LatencyOf(q, peer) as real + prefillCost;
    assert totalPeerCost == PeerCost(q, peer, matched);
    CompareOffer(Offer(peer, PeerCost(q, peer, matched)), best, lowest, offers);
    if totalPeerCost < lowest {
      lowest' := totalPeerCost;
      best' := peer;
    }
  }

  lemma GroupOffersSnoc(q: Question, matched: nat, peers: seq<Ref>, p: Ref)
    requires matched <= |q.path|
    ensures GroupOffers(q, matched, peers + [p])
            == GroupOffers(q, matched, peers) + [Offer(p, PeerCost(q, p, matched))]
  {
    var all := peers + [p];
    assert all[..|all| - 1] == peers && all[|all| - 1] == p;
  }

  /** Compare every offer of one group with the best so far. */
  method CompareGroup(q: Question, g: Group, best: Ref, lowest: real, ghost offers: seq<Offer>)
    returns (best': Ref, lowest': real)
    requires |g.matchedPrefix| <= |q.path| && Nil !in g.peers && Least(offers, best, lowest)
    ensures Least(offers + GroupOffers(q, |g.matchedPrefix|, g.peers), best', lowest')
  {
    best', lowest' := best, lowest;
    var n := |g.matchedPrefix|;
    assert offers + GroupOffers(q, n, g.peers[..0]) == offers;
    var unmatchedTokens := q.tokens(q.path[n..]);
    for j := 0 to |g.peers|
      invariant Least(offers + GroupOffers(q, n, g.peers[..j]), best', lowest')
    {
      ghost var seen := offers + GroupOffers(q, n, g.peers[..j]);
      best', lowest' := CompareOne(q, g.peers[j], n, unmatchedTokens, best', lowest', seen);
      GroupOffersSnoc(q, n, g.peers[..j], g.peers[j]);
      assert g.peers[..j + 1] == g.peers[..j] + [g.peers[j]];
      assert offers + GroupOffers(q, n, g.peers[..j + 1]) == seen + [Offer(g.peers[j], PeerCost(q, g.peers[j], n))];
    }
    assert g.peers[..|g.peers|] == g.peers;
  }

  method CompareGroups(q: Question, groups: seq<Group>) returns (best: Ref, lowest: real)
    requires Fits(q, groups)
    ensures Least(OffersOf(q, groups), best, lowest)
  {
    best, lowest := Nil, HUGE;
    for i := 0 to |groups|
      invariant Least(OffersOf(q, groups[..i]), best, lowest)
    {
      assert groups[..i + 1][..i] == groups[..i];
      best, lowest := CompareGroup(q, groups[i], best, lowest, OffersOf(q, groups[..i]));
    }
    assert groups[..|groups|] == groups;
  }

  lemma KeepUsableSnoc(avail: Availability, peers: seq<Ref>, p: Ref)
    ensures KeepUsable(avail, peers + [p]) == KeepUsable(avail, peers) + if Usable(avail, p) then [p] else []
  {
    assert (peers + [p])[..|peers|] == peers;
  }

  method CompareCold(q: Question, totalTokens: nat) returns (best: Ref, lowest: real)
    requires totalTokens == q.tokens(q.path) && Nil !in q.avail
    ensures Least(GroupOffers(q, 0, KeepUsable(q.avail, q.peers)), best, lowest)
  {
    best, lowest := Nil, HUGE;
    assert q.path[0..] == q.path;
    for j := 0 to |q.peers|
      invariant Least(GroupOffers(q, 0, KeepUsable(q.avail, q.peers[..j])), best, lowest)
    {
      var peer := q.peers[j];
      ghost var kept := KeepUsable(q.avail, q.peers[..j]);
      KeepUsableSnoc(q.avail, q.peers[..j], peer);
      assert q.peers[..j + 1] == q.peers[..j] + [peer];
      if peer !in q.avail || !q.avail[peer].available || !q.avail[peer].healthy {
        continue;
      }
      best, lowest := CompareOne(q, peer, 0, totalTokens, best, lowest, GroupOffers(q, 0, kept));
      GroupOffersSnoc(q, 0, kept, peer);
    }
    assert q.peers[..|q.peers|] == q.peers;
  }

  // ----- the decision

  lemma InGroupOffers(q: Question, matched: nat, peers: seq<Ref>, o: Offer)
    requires matched <= |q.path|
    ensures o in GroupOffers(q, matched, peers) <==> o.peer in peers && o == Offer(o.peer, PeerCost(q, o.peer, matched))
  {
    if peers != [] {
      InGroupOffers(q, matched, peers[..|peers| - 1], o);
    }
  }

  lemma {:induction false} InOffersOf(q: Question, groups: seq<Group>, o: Offer)
    requires Fits(q, groups)
    ensures o in OffersOf(q, groups) <==>
            exists g :: g in groups && o.peer in g.peers && o == Offer(o.peer, PeerCost(q, o.peer, |g.matchedPrefix|))
  {
    if groups != [] {
      var n := |groups| - 1;
      InOffersOf(q, groups[..n], o);
      InGroupOffers(q, |groups[n].matchedPrefix|, groups[n].peers, o);
    }
  }

  /** The groups' offers are exactly the warm offers. */
  lemma OffersAreWarm(q: Question, groups: seq<Group>, o: Offer)
    requires Lists(groups, q.avail, q.path, Lookup(q.m, q.path)) && Fits(q, groups)
    ensures o in OffersOf(q, groups) <==> WarmOffer(q, o)
  {
    InOffersOf(q, groups, o);
    if g :| g in groups && o.peer in g.peers && o == Offer(o.peer, PeerCost(q, o.peer, |g.matchedPrefix|)) {
      var e := Match(o.peer, |g.matchedPrefix|);
      assert InGroups(groups, e);
      assert IsWarm(q, e, o);
    }
    if e :| IsWarm(q, e, o) {
      assert InGroups(groups, e);
    }
  }

  lemma GroupsFit(q: Question, groups: seq<Group>)
    requires Lists(groups, q.avail, q.path, Lookup(q.m, q.path)) && Nil !in q.avail
    ensures Fits(q, groups)
  {
    forall g, p | g in groups && p in g.peers ensures p in q.avail {
      assert InGroups(groups, Match(p, |g.matchedPrefix|));
    }
  }

  lemma UsableOffer(q: Question, o: Offer)
    requires Considered(q, o)
    ensures Usable(q.avail, o.peer)
  {
  }

  /** When some warm offer is below the starting value, the loop over groups finds the best one. */
  lemma WarmDecides(q: Question, groups: seq<Group>, best: Ref, lowest: real)
    requires Lists(groups, q.avail, q.path, Lookup(q.m, q.path)) && Fits(q, groups)
    requires Least(OffersOf(q, groups), best, lowest)
    ensures best == Nil ==> forall w | WarmOffer(q, w) :: w.cost >= HUGE
    ensures best != Nil ==> Considered(q, Offer(best, lowest)) && forall o | Considered(q, o) :: lowest <= o.cost
  {
    forall o ensures o in OffersOf(q, groups) <==> WarmOffer(q, o) {
      OffersAreWarm(q, groups, o);
    }
  }

  lemma ColdDecides(q: Question, best: Ref, lowest: real)
    requires Least(GroupOffers(q, 0, KeepUsable(q.avail, q.peers)), best, lowest)
    requires forall w | WarmOffer(q, w) :: w.cost >= HUGE
    ensures best == Nil ==> forall o :: !Considered(q, o)
    ensures best != Nil ==> Considered(q, Offer(best, lowest)) && forall o | Considered(q, o) :: lowest <= o.cost
  {
    var cold := GroupOffers(q, 0, KeepUsable(q.avail, q.peers));
    forall o ensures o in cold <==> ColdOffer(q, o) {
      InGroupOffers(q, 0, KeepUsable(q.avail, q.peers), o);
      InKept(q.avail, q.peers, o.peer);
    }
  }

  /** Some considered peer is strictly cheaper than this node. */
  ghost predicate Challenged(q: Question, localCost: real) {
    exists o :: Considered(q, o) && o.cost < localCost
  }

  ghost predicate IsLeast(q: Question, o: Offer) {
    Considered(q, o) && forall x | Considered(q, x) :: o.cost <= x.cost
  }

  /** What Select decides.  It keeps the request when the path is empty or no considered peer is strictly
      cheaper than this node; otherwise it returns a usable peer, strictly cheaper than this node,
      whose offer is the least of those considered. */
  ghost predicate Decision(q: Question, localCost: real, r: Ref) {
    if q.path == [] || !Challenged(q, localCost) then
      r == Nil
    else
      exists cost :: IsLeast(q, Offer(r, cost)) && Usable(q.avail, r) && cost < localCost
  }

  /** The cost of keeping the request on this node. */
  ghost function CostHere(q: Question, local: Contents, lb: Option<Local>): real {
    if lb.Some? then LocalCost(lb.value, local, q.path, q.tokens(q.path), q.tokens) else 0.0
  }

  method Select(q: Question, tree: Tree, localTree: Tree, lb: Option<Local>) returns (r: Ref)
    requires tree.Valid() && localTree.Valid() && q.m == tree.Contents() && Nil !in q.avail
    requires q.msPerToken == if lb.Some? then lb.value.msPerToken else DEFAULT_MS_PER_TOKEN
    ensures Decision(q, CostHere(q, localTree.Contents(), lb), r)
    ensures r != Nil ==> r in q.avail && q.avail[r].available && q.avail[r].healthy
  {
    if |q.path| == 0 {
      return Nil;
    }
    var totalTokens := q.tokens(q.path);
    var localCost := CalculateLocalCost(lb, localTree, q.path, totalTokens, q.tokens);
    var best, lowest := BestOffer(q, tree, totalTokens);
    if best == Nil || localCost <= lowest {
      return Nil;
    }
    UsableOffer(q, Offer(best, lowest));
    return best;
  }

  /** The cheapest peer considered, if any: matched peers first, all peers when none matched. */
  method BestOffer(q: Question, tree: Tree, totalTokens: nat) returns (best: Ref, lowest: real)
    requires tree.Valid() && q.m == tree.Contents() && Nil !in q.avail && totalTokens == q.tokens(q.path)
    ensures best == Nil ==> forall o :: !Considered(q, o)
    ensures best != Nil ==> Considered(q, Offer(best, lowest)) && forall o | Considered(q, o) :: lowest <= o.cost
  {
    var matches := FindPrefixMatches(tree, q.path, q.avail);
    GroupsFit(q, matches);
    best, lowest := CompareGroups(q, matches);
    WarmDecides(q, matches, best, lowest);
    if best == Nil && |q.peers| > 0 {
      best, lowest := CompareCold(q, totalTokens);
      ColdDecides(q, best, lowest);
    } else if best == Nil {
      ColdDecides(q, best, lowest);
    }
  }

  // ----- judging each peer by its longest match

  /** The load balancer's token count when the tokenizer is not running. */
  function Fallback(text: Key): nat {
    Tokens.Estimate(|text|)
  }

  lemma LongerIsCheaper(q: Question, p: Ref, n: nat, longer: nat)
    requires q.tokens == Fallback && q.msPerToken >= 0.0 && n <= longer <= |q.path|
    ensures PeerCost(q, p, longer) <= PeerCost(q, p, n)
  {
    Tokens.EstimateMonotone(|q.path| - longer, |q.path| - n);
    Times(q.tokens(q.path[longer..]), q.tokens(q.path[n..]), q.msPerToken);
  }

  lemma Times(a: nat, b: nat, x: real)
    requires a <= b && x >= 0.0
    ensures a as real * x <= b as real * x
  {
  }

  /** A peer's offer for its longest match. */
  ghost predicate LongestOffer(q: Question, o: Offer) {
    IsWarm(q, Match(o.peer, Longest(o.peer, Lookup(q.m, q.path))), o)
  }

  ghost predicate ConsideredLongest(q: Question, o: Offer) {
    && o.cost < HUGE
    && if exists w :: LongestOffer(q, w) && w.cost < HUGE then LongestOffer(q, o) else ColdOffer(q, o)
  }

  ghost predicate ChallengedLongest(q: Question, localCost: real) {
    exists o :: ConsideredLongest(q, o) && o.cost < localCost
  }

  ghost predicate IsLeastLongest(q: Question, o: Offer) {
    ConsideredLongest(q, o) && forall x | ConsideredLongest(q, x) :: o.cost <= x.cost
  }

  ghost predicate DecisionLongest(q: Question, localCost: real, r: Ref) {
    if q.path == [] || !ChallengedLongest(q, localCost) then
      r == Nil
    else
      exists cost :: IsLeastLongest(q, Offer(r, cost)) && cost < localCost
  }

  /** With the fallback count a peer's longest match is its cheapest offer. */
  lemma LongestIsBest(q: Question, o: Offer) returns (best: Offer)
    requires q.tokens == Fallback && q.msPerToken >= 0.0 && WarmOffer(q, o)
    ensures LongestOffer(q, best) && best.peer == o.peer && best.cost <= o.cost
  {
    var e :| IsWarm(q, e, o);
    var n := Longest(o.peer, Lookup(q.m, q.path));
    LongestWithin(q.m, q.path, o.peer);
    LongestIs(o.peer, Lookup(q.m, q.path));
    LookupExact(q.m, q.path, e);
    assert e.matchedLen > 0;
    LongerIsCheaper(q, o.peer, e.matchedLen, n);
    best := Offer(o.peer, PeerCost(q, o.peer, n));
  }

  lemma LongestIsConsidered(q: Question, o: Offer)
    requires q.tokens == Fallback && q.msPerToken >= 0.0 && ConsideredLongest(q, o)
    ensures Considered(q, o)
  {
    if LongestOffer(q, o) {
      assert WarmOffer(q, o);
    } else if w :| WarmOffer(q, w) && w.cost < HUGE {
      var b := LongestIsBest(q, w);
    }
  }

  lemma BetterLongest(q: Question, o: Offer) returns (b: Offer)
    requires q.tokens == Fallback && q.msPerToken >= 0.0 && Considered(q, o)
    ensures ConsideredLongest(q, b) && b.peer == o.peer && b.cost <= o.cost
  {
    if WarmOffer(q, o) {
      b := LongestIsBest(q, o);
    } else {
      b := o;
      forall w | LongestOffer(q, w) ensures WarmOffer(q, w) {
      }
    }
  }

  /** So the two views agree on whether this node is challenged. */
  lemma SameChallenge(q: Question, localCost: real)
    requires q.tokens == Fallback && q.msPerToken >= 0.0
    ensures Challenged(q, localCost) <==> ChallengedLongest(q, localCost)
  {
    if o :| Considered(q, o) && o.cost < localCost {
      var b := BetterLongest(q, o);
    }
    if o :| ConsideredLongest(q, o) && o.cost < localCost {
      LongestIsConsidered(q, o);
    }
  }

  /** And on whose offer is the least. */
  lemma SameLeast(q: Question, o: Offer)
    requires q.tokens == Fallback && q.msPerToken >= 0.0
    ensures IsLeast(q, o) <==> IsLeastLongest(q, o)
  {
    forall x | ConsideredLongest(q, x) ensures Considered(q, x) {
      LongestIsConsidered(q, x);
    }
    if IsLeast(q, o) {
      var b := BetterLongest(q, o);
      assert b == o;
    }
    if IsLeastLongest(q, o) {
      forall x | Considered(q, x) ensures o.cost <= x.cost {
        var b := BetterLongest(q, x);
      }
    }
  }

  /** What Select decides is exactly what judging each peer by its longest match alone would decide. */
  lemma LongestMatchSuffices(q: Question, localCost: real, r: Ref)
    requires q.tokens == Fallback && q.msPerToken >= 0.0
    ensures Decision(q, localCost, r) <==> DecisionLongest(q, localCost, r)
  {
    SameChallenge(q, localCost);
    forall cost ensures IsLeast(q, Offer(r, cost)) <==> IsLeastLongest(q, Offer(r, cost)) {
      SameLeast(q, Offer(r, cost));
    }
    forall cost ensures IsLeast(q, Offer(r, cost)) ==> Usable(q.avail, r) {
      if IsLeast(q, Offer(r, cost)) {
        UsableOffer(q, Offer(r, cost));
      }
    }
  }
}
