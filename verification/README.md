# Verified model of the request routers

This project models the parts of the repository that decide where a request goes and what happens to it on
the way, and proves what they promise:

- **The prefix tree** that records which backend has which prompt in its KV cache: a compressed tree of heap
  nodes, split and relabelled in place. It is modelled on the heap (`PrefixTree`), refined to a value that
  names each node by its path (`RadixShape`), and refined again to a map from prompts to server lists. The
  proxy's tree and the two trees of the load balancer's GORGO policy run the same algorithm and share one
  model; the load balancer's local marker is Go's nil pointer (`Ref.Nil`). On top of it: canonical form and
  size (`RadixCanon`), exact lookup (`RadixLookup`, `RadixHistory`), the effect of one insert on later lookups
  (`RadixInsertEffect`), whole histories on the heap (`TreeHistory`), node counting and statistics (`RadixStats`, `RadixStatsMeaning`).
- **The request life cycle.** `ProxyQueue`, `ProxyRuns`, `ProxyCapacity` and `ProxyOutcomes` are the proxy with any
  number of handlers, one queue processor that lets go of the lock between peek and pop, and a goroutine for every dequeued
  request. `LbNetwork`, `LbRuns`, `LbHops` and `LbOutcomes` are any network of load balancers that serve, queue,
  forward and re-queue.
  Every step is one lock-protected section or one atomic update, and the theorems hold in every state of every run.
  `RequestQueue` has the critical sections, and each processor's loop while nobody else steps in, as methods on
  the mutable queue.
- **The dependency scheduler** (`Scheduler`), for every iteration order of Go's maps.
- **Routing cost** (`ProxySelect`, `ProxyCostLaws`, `GorgoSelect`, `GorgoLaws`, `Tokens`) with reals for floats, and **the monitors**: server
  health and latency (`Servers`), the peer table (`Peers`) and the downtime log (`Downtime`).

`dafny verify dfyconfig.toml` checks everything.

Inputs from outside the model (backend answers, health and cache readings that may refuse a server, which server
or peer is selected, timeouts, message delivery) are arbitrary steps or parameters. The clock is a non-decreasing
parameter. A tokenizer is a function parameter.

## Where the code differs from what is said about it

- "Finds the longest matching prefix" (pkg/cluster/loadbalancer.go:416) is not what the lookups do. A split makes
  a node without servers (pkg/proxy/proxy.go:1566-1570), so a prompt whose longest shared prefix ends at or inside
  such a branch gets nothing for it. `RadixHistory.LongestSharedFound` is the exact condition on what is stored,
  `RadixInsertEffect.EntryKept` says exactly which inserts take which entry away, and
  `RadixInsertEffect.InsertCanHideAMatch` is a concrete loss: "ac" after "ab", for "a".
- `MaxQueueSize` of the load balancer can be exceeded, since a failed forward goes back without a size test
  (`LbRuns.QueueCanExceedItsLimit`), by one at most (`LbRuns.QueueSafety`). It holds throughout a run if and only if
  every failed forward finds room to go back to (`LbRuns.LimitHolds`). The proxy's limit always holds.
- `MaxRunningPerServer` can be exceeded, since choosing and registering are separate steps
  (`ProxyCapacity.LimitCanBeExceeded`), by at most p - 1 when p requests are between the two
  (`ProxyCapacity.CapacityOvershoot`). It holds throughout a run if and only if every registration finds the server
  below its limit (`ProxyCapacity.LimitHolds`).
- The hop limit does not bound a client that sends its own header. `LbHops.PathLengths` gives exactly the path
  lengths that each header allows. A request visits at most MaxHops + 1 nodes whatever happens if and only if its
  client sent no negative count (`LbHops.PathBoundHolds`); `LbHops.NegativeHopGoesFurther` is the input "-1".

## Model

| member | source | states |
|---|---|---|
| Keys.Shared | pkg/proxy/proxy.go:1606-1617 | the two strings agree up to the result and differ right after it, or one of them ends there |
| Keys.SharedPrefixLength | pkg/proxy/proxy.go:1606-1617 | the byte loop computes that length |
| RadixShape.GoDown | pkg/proxy/proxy.go:1505-1510 | any node below a node is below the child under its next byte |
| RadixShape.UniqueParent | pkg/proxy/proxy.go:1533-1604 | no node is the child of two nodes, or of one node under two bytes |
| RadixShape.LeafInsert | pkg/proxy/proxy.go:1549-1557 | a leaf under a free byte keeps the invariant, adds one node, and changes the stored map at the new prompt only |
| RadixShape.SplitInsert | pkg/proxy/proxy.go:1561-1576 | splitting an edge keeps the tree and the stored map; only the new node may lack servers and branching |
| RadixShape.ServerInsert | pkg/proxy/proxy.go:1585-1599 | appending a server restores or keeps the invariant and changes the stored map at that node only |
| RadixShape.Descend | pkg/proxy/proxy.go:1512-1513 | each descent step uses at least one byte, and says where prompt and edge part |
| RadixShape.AddExact | pkg/proxy/proxy.go:1533-1604 | an insert leaves every other prompt alone and puts a new server last in the list of its own |
| RadixCanon.StoredBelow | pkg/proxy/proxy.go:1533-1604 | some prompt is stored at or below every node except a bare root |
| RadixCanon.NodesAreForks | pkg/proxy/proxy.go:1533-1604 | a string names a node exactly when it is empty, stored, or the point where two stored prompts part |
| RadixCanon.Parent | pkg/proxy/proxy.go:1533-1604 | every node but the root is the child of another node |
| RadixCanon.SameSkeleton | pkg/proxy/proxy.go:1492-1604 | trees that store the same prompts have the same nodes, labels and child maps |
| RadixCanon.Canonical | pkg/proxy/proxy.go:1492-1604 | trees with the same stored map are equal |
| RadixCanon.OneMorePrompt | pkg/proxy/proxy.go:1561-1588 | one more prompt makes at most two more nodes: itself and the fork where it leaves the others |
| RadixCanon.TreeSize | pkg/proxy/proxy.go:1533-1604 | with n >= 1 stored prompts there are at most 2n - 1 nodes besides the root |
| RadixLookup.LookupThrough | pkg/proxy/proxy.go:1516-1527 | after a whole edge the entries so far are those of all stored prefixes up to its end |
| RadixLookup.LookupEndsAtNode | pkg/proxy/proxy.go:1505-1510 | a lookup that stops at a node has all its entries |
| RadixLookup.LookupEndsInEdge | pkg/proxy/proxy.go:1516-1526 | a lookup that stops inside an edge ends with the servers of the node the edge leads to |
| RadixLookup.EdgeReach | pkg/proxy/proxy.go:1524-1526 | the byte count at which it stops is the longest prefix shared with any stored prompt |
| RadixLookup.LongestUnique | pkg/proxy/proxy.go:520-525 | there is one longest match of a server |
| RadixHistory.RunExact | pkg/proxy/proxy.go:1533-1626 | after any inserts and clears a server is listed at a prompt, once, exactly when it was inserted there since the last clear |
| RadixHistory.LookupExact | pkg/proxy/proxy.go:1492-1531 | the entries are exactly: servers of stored prefixes of the prompt, at their length; and servers of the one stored prompt that goes on past the shared part and starts all others there, at the shared length |
| RadixHistory.LookupOrdered | pkg/proxy/proxy.go:1516-1522 | entries come in non-decreasing length and none twice |
| RadixHistory.LongestSharedFound | pkg/proxy/proxy.go:1492-1531 | no entry is longer than the longest shared prefix, and one has that length exactly when some stored prompt with that prefix starts all the others |
| RadixHistory.LongestWithin | pkg/proxy/proxy.go:529 | a match is never longer than the prompt, so slicing by it is safe |
| RadixHistory.SameLookup | pkg/proxy/proxy.go:1492-1531 | a lookup depends on the stored prompts and server sets only |
| RadixHistory.InsertionOrderIrrelevant | pkg/proxy/proxy.go:1492-1604 | trees reached by histories with the same live inserts, in any order, have the same nodes, labels and branching, and all lookups agree |
| TreeHistory.Carry | pkg/proxy/proxy.go:1533-1626 | one insert or clear on the heap tree changes what is stored as the history says |
| TreeHistory.Replay | pkg/proxy/proxy.go:1533-1626 | a fresh heap tree that went through any history satisfies the radix invariant and stores what the history says |
| TreeHistory.ReplayBoth | pkg/proxy/proxy.go:1492-1626 | heap trees with the same live inserts, in any order, answer every lookup with the same entries, each once, shorter ones first |
| RadixInsertEffect.InsertThenFound | pkg/proxy/proxy.go:1492-1604 | an inserted server is found for every prompt that extends the inserted one |
| RadixInsertEffect.PrefixMatchesKept | pkg/proxy/proxy.go:1492-1604 | a match against a stored prefix survives every insert |
| RadixInsertEffect.HangingMatchKept | pkg/proxy/proxy.go:1561-1588 | a match against a longer stored prompt survives the insert of a new prompt if and only if that prompt is elsewhere, extends the matched one, or lies on the matched edge and lists the same server |
| RadixInsertEffect.EntryKept | pkg/proxy/proxy.go:1533-1604 | for every insert, prompt and entry: the entry survives if and only if the insert is not a new prompt that forks off within the edge the entry was matched on without taking over its server |
| RadixInsertEffect.InsertCanHideAMatch | pkg/proxy/proxy.go:1566-1570 | after storing "ab" a lookup of "a" returns its server; storing "ac" as well leaves that lookup empty although "a" is still shared |
| PrefixTree.Tree.constructor | pkg/proxy/proxy.go:290-297 | the empty tree is valid |
| PrefixTree.Tree.NodeOf | pkg/proxy/proxy.go:1533-1604 | each path names exactly one heap node, so nodes are disjoint and there is no cycle |
| PrefixTree.Tree.Follow | pkg/proxy/proxy.go:1505-1514 | the child under the next byte, the non-empty part of its edge that the prompt shares, and where they part |
| PrefixTree.Tree.HangLeaf | pkg/proxy/proxy.go:1549-1557 | the heap edit refines adding a leaf |
| PrefixTree.Tree.Relink | pkg/proxy/proxy.go:1563-1574 | the pointer surgery of a split: labels cut at the shared length, the old child under its new first byte |
| PrefixTree.Tree.SplitNode | pkg/proxy/proxy.go:1561-1574 | the heap edit refines the split of the edge |
| PrefixTree.Tree.AddOnce | pkg/proxy/proxy.go:1592-1600 | exact hit: the server is appended unless present, in which case nothing changes |
| PrefixTree.Tree.InsertInto | pkg/cluster/loadbalancer.go:341-414 | on the heap: the invariant is kept, the stored map changes only at the prompt, by the server; at most two nodes are added; a repeated insert changes nothing |
| PrefixTree.Tree.InsertPrefix | pkg/proxy/proxy.go:1533-1604 | the same for the proxy, and nothing at all for an empty prompt or a nil server |
| PrefixTree.Tree.LookAhead | pkg/proxy/proxy.go:1512-1527 | one step of a lookup adds the entries of one more node, the last ones if the prompt leaves inside the edge |
| PrefixTree.Tree.FindPrefixMatches | pkg/proxy/proxy.go:1492-1531 | the heap descent returns exactly the specified entries, in order |
| PrefixTree.Tree.FindLocalPrefixMatch | pkg/cluster/loadbalancer.go:418-454 | the length of the local marker's longest entry, 0 if it has none |
| RadixStats.CountNodes | pkg/proxy/proxy.go:1628-1637 | the number of nodes at and below a node |
| RadixStats.ClearPrefixCache | pkg/proxy/proxy.go:1620-1626 | returns the size of the whole tree, root included, and leaves a fresh empty tree |
| RadixStats.StatsWalk.Walk | pkg/proxy/proxy.go:2016-2044 | the recursive walk adds each node of the subtree once, with its depth the length of its path |
| RadixStatsMeaning.LeavesMeaning | pkg/proxy/proxy.go:2030-2037 | leaves are the stored prompts that no other extends, and the summed depth is the sum of their lengths |
| RadixStatsMeaning.EdgesApart | pkg/proxy/proxy.go:1533-1604 | no string lies on two edges of the tree |
| RadixStatsMeaning.LabelMeaning | pkg/proxy/proxy.go:2021-2022 | the labels spell out every non-empty prefix of a stored prompt exactly once, so their total length is the number of such prefixes |
| RadixStatsMeaning.TotalsMeaning | pkg/proxy/proxy.go:2010-2046 | all totals of the walk in terms of the stored prompts |
| RadixStatsMeaning.AverageMeans | pkg/proxy/proxy.go:2048-2056 | an average times its count is the total; 0 when there is nothing to count |
| RadixStatsMeaning.PrefixTreeStats | pkg/proxy/proxy.go:2001-2071 | every reported figure, averages included, in terms of the stored prompts: tree size, prompts that no other extends, longest prompt, (prompt, server) pairs, distinct servers, prefix and branching averages |
| Scheduler.TaskMapNames | pkg/remote/client.go:983-994 | the table holds exactly the given names |
| Scheduler.TableHolds | pkg/remote/client.go:983-989 | under each name the table holds the last task given with it, dependencies and all |
| Scheduler.ExecuteTask | pkg/remote/client.go:934-940 | fails its guard exactly when a dependency is not completed; otherwise the command decides |
| Scheduler.Round | pkg/remote/client.go:996-1020 | in any order: progress shrinks the remaining set strictly; without progress nothing left can run |
| Scheduler.ExecuteTasks | pkg/remote/client.go:981-1023 | of the given tasks themselves: each name is executed at most once and after everything that its task depends on; success if and only if every dependency is given, none goes round and no command fails, and then every name is executed; no progress leaves a missing name or a cycle among what was not executed; the guard never fails |
| Scheduler.CycleNeverRuns | pkg/remote/client.go:996-1020 | no task of a dependency cycle is ever executed |
| Scheduler.FindCycle | pkg/remote/client.go:1017-1019 | tasks that each wait for another one of them contain an actual cycle |
| Scheduler.StuckShowsWhy | pkg/remote/client.go:1017-1019 | "no progress" means that what is left depends on a name that was not given, or contains a cycle |
| Scheduler.StuckIsMaximal | pkg/remote/client.go:996-1020 | a stuck run has executed whatever any order could have executed |
| Scheduler.OutcomeDecided | pkg/remote/client.go:981-1023 | success if and only if every dependency is given, there is no cycle and no command fails; which of the three outcomes occurs never depends on the iteration order |
| RequestQueue.Queue.Enqueue | pkg/proxy/proxy.go:1106-1127 | accepts if and only if there is no positive limit or the queue is below it; then appends, else changes nothing |
| RequestQueue.Queue.RemoveIfHead | pkg/proxy/proxy.go:1180-1184 | removes the request if it is still the head |
| RequestQueue.Queue.TakeHead | pkg/cluster/loadbalancer.go:1477-1501 | takes the head off, as the network's processor does |
| RequestQueue.DispatchQueued | pkg/proxy/proxy.go:1162-1198 | the processor dispatches the head while a server is found: what it dispatched, then what is left, is the old queue |
| RequestQueue.DrainQueued | pkg/cluster/loadbalancer.go:1475-1550 | every request is completed or still queued, and without a failed forward in the old order; the drain ends on an empty queue or when there is no place for the head |
| ProxyQueue.OrderStep | pkg/proxy/proxy.go:1105-1198 | every step keeps: dequeued requests followed by the queue are the admitted requests in arrival order, all distinct |
| ProxyQueue.AdmittedStep | pkg/proxy/proxy.go:456-464 | every step keeps: a request was admitted exactly when its handler waits for it or has counted it as queued |
| ProxyQueue.AnsweredStep | pkg/proxy/proxy.go:449-454 | every step keeps: a request is counted, or about to be counted, as forwarded exactly when its direct attempt was answered |
| ProxyQueue.HeadStep | pkg/proxy/proxy.go:1105-1198 | every step keeps: the peeked request is the head, and the queue is within a positive limit |
| ProxyQueue.ClosedStep | pkg/proxy/proxy.go:1187-1196 | every step keeps: done is closed only by the request's own goroutine, once |
| ProxyQueue.CountStep | pkg/proxy/proxy.go:434-467 | every step keeps: each counter is the number of handlers with that outcome, and handled = forwarded + queued + rejected + handlers not yet counted |
| ProxyQueue.TrackedStep | pkg/proxy/proxy.go:728-748 | every step keeps: a server's running table holds exactly the requests whose backend call is in progress |
| ProxyRuns.RunKeepsInv | pkg/proxy/proxy.go:393-469 | all of these hold in every state of every run |
| ProxyRuns.QueueSafety | pkg/proxy/proxy.go:1105-1198 | in every reachable state: arrival order, each request dequeued and closed at most once, the limit, and the count |
| ProxyRuns.CountersExact | pkg/proxy/proxy.go:434-467 | in every reachable state each counter is the number of requests with that outcome; a request counts as queued if it was admitted, as forwarded if its direct attempt was answered, otherwise as rejected |
| ProxyRuns.GuardNeverFails | pkg/proxy/proxy.go:1181 | at every pop the head is the request that was peeked, and it is removed |
| ProxyRuns.TrackingIsExact | pkg/proxy/proxy.go:728-748 | tracked if and only if its call is in progress; nothing is tracked when no call is |
| ProxyOutcomes.CountedForAReason | pkg/proxy/proxy.go:447-467 | over runs: a returned request counts as forwarded iff its direct attempt was answered, as queued iff it tried the queue while there was room, as rejected iff it tried while a positive limit was reached or there was no answer and no queue |
| ProxyOutcomes.ChosenWasChecked | pkg/proxy/proxy.go:509-546 | over runs: a handler chooses only a server whose check it passed, and finds none only if it passed none |
| ProxyOutcomes.HandlerNeverStuck | pkg/proxy/proxy.go:447-467 | a request whose handler has not returned has a next step |
| ProxyOutcomes.QueueNeverStuck | pkg/proxy/proxy.go:1162-1198 | so has a goroutine until it closed its channel, and the processor while something is queued |
| ProxyCapacity.CheckIsExact | pkg/proxy/proxy.go:600-611 | a check is passed unless capacity is gated and the server runs as many requests as a positive limit allows |
| ProxyCapacity.LoadStep | pkg/proxy/proxy.go:589-612 | only passing a capacity check can raise running plus pending on a server |
| ProxyCapacity.CapacityOvershoot | pkg/proxy/proxy.go:589-612 | with at most p between check and registration, running plus pending is at most the limit plus p - 1 |
| ProxyCapacity.LimitStep | pkg/proxy/proxy.go:736-738 | the step that takes a server over its limit is a registration on a full server, and every such registration does |
| ProxyCapacity.LimitHolds | pkg/proxy/proxy.go:589-612 | throughout a run the limit holds if and only if every registration finds the server below it |
| ProxyCapacity.LimitCanBeExceeded | pkg/proxy/proxy.go:589-612 | a run puts two requests on a server limited to one |
| HopHeader.RoundTrip | pkg/cluster/loadbalancer.go:1345 | the hop count one node prints is the one the next node reads |
| HopHeader.NoNumberIsZero | pkg/cluster/loadbalancer.go:1139-1142 | a header that is missing, or has no digit after blanks and one sign, is read as 0 |
| HopHeader.NumberIsRead | pkg/cluster/loadbalancer.go:1140-1142 | the leading digits are read in decimal; blanks and a plus sign change nothing, a minus sign negates, the first other character ends the number |
| LbNetwork.OnwardOk | pkg/cluster/loadbalancer.go:1184-1190 | a forward from below the hop limit makes a copy within it |
| LbNetwork.HopStep | pkg/cluster/loadbalancer.go:1139-1219 | every step keeps: a copy's hop count is its client's plus the forwards behind it, within the limit once forwarded |
| LbNetwork.NodeStep | pkg/cluster/loadbalancer.go:1400-1550 | every step keeps, at every node: each admitted request has one place, and the queue with the held request is within limit + 1 |
| LbRuns.RunKeepsInv | pkg/cluster/loadbalancer.go:1093-1219 | both hold in every state of every run of any network |
| LbHops.HopBound | pkg/cluster/loadbalancer.go:1184-1190 | for every client header: a copy carries at most MaxHops exactly when its client sent at most that, and it came through one node or at most MaxHops + 1 less the client's count |
| LbHops.Lineage | pkg/cluster/loadbalancer.go:1305-1346 | every copy goes back to a client's arrival, with the node and the header the client used |
| LbHops.NoHeaderBound | pkg/cluster/loadbalancer.go:1139-1190 | for a client that sends no header, in every run: each copy carries as many hops as forwards brought it there, at most one, and came through at most two nodes |
| LbHops.PathLengths | pkg/cluster/loadbalancer.go:1139-1190 | these are exactly the path lengths that occur: each is reached by some run |
| LbHops.PathBoundHolds | pkg/cluster/loadbalancer.go:1139-1190 | at most MaxHops + 1 nodes in every run if and only if the client's header does not parse to a negative count |
| LbHops.NegativeHopGoesFurther | pkg/cluster/loadbalancer.go:1139-1142 | the header "-1" lets a request through MaxHops + 2 nodes |
| LbRuns.QueueSafety | pkg/cluster/loadbalancer.go:1475-1550 | queue plus held request is at most MaxQueueSize + 1; an admitted request is queued, held or completed, exactly one of these, once |
| LbRuns.LimitStep | pkg/cluster/loadbalancer.go:1511-1515 | the step that takes a queue over its limit is a failed forward that returns to a full queue, and every such return does |
| LbRuns.LimitHolds | pkg/cluster/loadbalancer.go:1400-1515 | throughout a run the limit holds if and only if every failed forward finds room |
| LbRuns.ServedOnce | pkg/cluster/loadbalancer.go:1503-1544 | a dequeued request that was forwarded or served is completed for good: never queued or held again |
| LbRuns.FailedGoesLast | pkg/cluster/loadbalancer.go:1511-1517 | after a failed forward everything that was waiting keeps its order ahead of the request, and nothing later overtakes it |
| LbOutcomes.CountedForAReason | pkg/cluster/loadbalancer.go:1164-1218 | over runs: a copy ends as local or forwarded iff it was served or its forward succeeded, as queued iff it tried the queue while there was room, as rejected iff it tried while a positive limit was reached or was turned away |
| LbOutcomes.RejectNeedsNoQueue | pkg/cluster/loadbalancer.go:1206-1217 | a copy is turned away untried only where the queue is disabled |
| LbOutcomes.CopyNeverStuck | pkg/cluster/loadbalancer.go:1164-1218 | a copy whose handler has not returned has a next step |
| LbRuns.QueueCanExceedItsLimit | pkg/cluster/loadbalancer.go:1511-1517 | a run leaves two requests in a queue limited to one |
| Tokens.SplitEstimate | pkg/proxy/proxy.go:1782-1787 | estimating the parts of a prompt separately costs at most one token more than estimating it whole |
| Tokens.EstimateIsCeiling | pkg/proxy/proxy.go:1782-1787 | the least number of tokens of four bytes that hold the text |
| Tokens.AddUp | pkg/proxy/proxy.go:626-630 | the sum over a map in any order, as tokens and as weighted cost |
| Tokens.Predict | pkg/proxy/proxy.go:564-575 | the four parts of the predicted prefill time, added up |
| Tokens.QueuedLaw | pkg/proxy/proxy.go:564 | each queued token adds its time |
| Tokens.RunningLaw | pkg/proxy/proxy.go:565 | each running token adds its weighted time |
| Tokens.MatchedLaw | pkg/proxy/proxy.go:568-573 | each matched token saves its time |
| ProxySelect.ServerHasCapacity | pkg/proxy/proxy.go:589-612 | healthy, below the cache threshold, and below a positive running limit when gating |
| ProxySelect.CalculateServerCost | pkg/proxy/proxy.go:619-668 | the cost of a server that has nothing cached, and the two token counts |
| ProxySelect.BestMatch | pkg/proxy/proxy.go:519-525 | the server's longest match among the entries |
| ProxySelect.CostServers | pkg/proxy/proxy.go:506-542 | every server with capacity becomes a candidate with its true cost, and the cost table has each server's cost or -1 |
| ProxySelect.SelectServer | pkg/proxy/proxy.go:482-585 | none exactly when no server is eligible by its polls, cache use and running table; else an eligible one of least cost, which is the reported prefill time plus its latency, with its own token counts; the cost table has -1 for exactly the ineligible servers |
| ProxySelect.CostAtLeastLatency | pkg/proxy/proxy.go:511-533 | with non-negative tuning no cost is below the server's latency, so -1 is never a real cost |
| ProxySelect.ChargesAgree | pkg/proxy/proxy.go:527-531 | charging total minus matched is at most one token's time below charging the unmatched rest, and never above it |
| ProxyCostLaws.LatencyDecides | pkg/proxy/proxy.go:634-665 | servers with the same work differ by latency alone; with gating, waiting requests are no work |
| ProxyCostLaws.WaitingCosts | pkg/proxy/proxy.go:641-653 | without gating each waiting request costs the average of the running ones, 500 tokens when none runs |
| ProxyCostLaws.RunningCosts | pkg/proxy/proxy.go:625-632 | each running token costs its weighted time |
| ProxyCostLaws.PromptCosts | pkg/proxy/proxy.go:655-656 | each token of the request costs its time |
| ProxyCostLaws.MatchSaves | pkg/proxy/proxy.go:527-531 | each token of the longest match saves its time |
| ProxyCostLaws.IdleCosts | pkg/proxy/proxy.go:619-668 | an idle server with nothing cached costs the prefill of the request and its latency |
| ProxyCostLaws.LatencyMeans | pkg/proxy/proxy.go:658-665 | once there is an average only that counts, in whole milliseconds; before, the current latency |
| ProxyCostLaws.FasterIsChosen | pkg/proxy/proxy.go:544-554 | of two eligible servers with the same work the faster is never passed over |
| GorgoSelect.FindPrefixMatches | pkg/cluster/loadbalancer.go:585-635 | the groups list exactly the available and healthy peers among the specified entries, each with its matched prefix, none empty, longer and longer |
| GorgoSelect.CalculateLocalCost | pkg/cluster/loadbalancer.go:529-582 | running, queued and incoming work; incoming is the unmatched rest unless nothing or everything matched |
| GorgoSelect.OffersAreWarm | pkg/cluster/loadbalancer.go:482-497 | the offers compared in the loop over groups are those of the usable peers with a match |
| GorgoSelect.WarmDecides | pkg/cluster/loadbalancer.go:482-497 | the loop over matches finds the least considered offer whenever a match is below the start value |
| GorgoSelect.ColdDecides | pkg/cluster/loadbalancer.go:499-517 | otherwise the loop over all peers does |
| GorgoSelect.Select | pkg/cluster/loadbalancer.go:459-525 | nil exactly when the path is empty or no considered peer is strictly cheaper than this node; else an available and healthy peer, strictly cheaper, of least cost among those considered |
| GorgoLaws.OffersDiffer | pkg/cluster/loadbalancer.go:485-490 | an offer rises by exactly the latency difference and by the time of each token left |
| GorgoLaws.LowerLatencyWins | pkg/cluster/loadbalancer.go:485-517 | of two usable peers with the same single match, or none, the one chosen has no higher latency |
| GorgoLaws.MatchedFirst | pkg/cluster/loadbalancer.go:499-517 | while a matched peer asks less than the start value, no unmatched one is chosen |
| GorgoLaws.ForwardedInNumbers | pkg/cluster/loadbalancer.go:482-524 | a chosen matched peer asks, in latency and prefill, less than keeping costs and no more than any other matched peer |
| GorgoLaws.KeptInNumbers | pkg/cluster/loadbalancer.go:519-522 | a request kept here costs no more here than any matched peer asks |
| GorgoLaws.QueuedCost | pkg/cluster/loadbalancer.go:553-566 | one more queued request adds the time of its tokens, or of its body's estimate when none were counted |
| GorgoLaws.RunningCost | pkg/cluster/loadbalancer.go:542-548 | one more running request adds the weighted time of its tokens |
| GorgoLaws.IdleCost | pkg/cluster/loadbalancer.go:568-579 | otherwise only what the longest local match leaves over costs, or the whole request when nothing or everything matched |
| GorgoLaws.BusierForwards | pkg/cluster/loadbalancer.go:475-522 | a forwarded request would still be forwarded, to the same peer, with more queued here |
| GorgoSelect.LongestMatchSuffices | pkg/cluster/tokenizer.go:149-151 | with the fallback count a result is the decision if and only if it is the decision of judging every peer by its longest match alone |
| Servers.SGLangServer.Track | pkg/proxy/proxy.go:736-738 | the request is entered, and a new one adds its tokens to the tracked total |
| Servers.SGLangServer.Untrack | pkg/proxy/proxy.go:746-748 | the request is removed, and its tokens go from the total |
| Servers.TrailingFailsMeans | pkg/proxy/proxy.go:1287-1299 | the failure count is the length of the longest run of failed polls that the history ends with |
| Servers.HealthyMeans | pkg/proxy/proxy.go:1292-1297 | unhealthy means that the last threshold polls all failed |
| Servers.SGLangServer.MarkUnhealthy | pkg/proxy/proxy.go:1287-1299 | after a failed poll health still agrees with the poll history: the count is the trailing run of failures, healthy exactly when that is below the threshold |
| Servers.SGLangServer.PollSucceeded | pkg/proxy/proxy.go:1277-1284 | the same after a successful poll |
| Servers.Convex | pkg/proxy/proxy.go:1399-1400 | the truncated moving average of two values lies between bounds of both |
| Servers.EwmaMoves | pkg/proxy/proxy.go:1399-1400 | alpha weighs the new sample: the average moves by alpha times the distance, less than one nanosecond being lost |
| Servers.NextExtremes | pkg/proxy/proxy.go:1378-1401 | on positive samples min and max stay the true extremes and the average lies between them, so the 0 sentinel does not recur |
| Servers.LastOfMeans | pkg/proxy/proxy.go:1386-1393 | the history holds the newest samples, as many as fit |
| Servers.NextHistory | pkg/proxy/proxy.go:1386-1393 | one more sample, trimmed, keeps that |
| Servers.SGLangServer.UpdateLatency | pkg/proxy/proxy.go:1371-1402 | keeps all of this for one more sample |
| Peers.PeerTable.AddPeer | pkg/cluster/loadbalancer.go:970-990 | a new peer's entry is available, healthy and without load, and the others stay |
| Peers.PeerTable.AddPeerByIP | pkg/cluster/loadbalancer.go:1020-1044 | nothing changes if and only if the address is registered already; else one new entry |
| Peers.PeerTable.RemovePeer | pkg/cluster/loadbalancer.go:993-1005 | one entry with the given instance ID goes, if there is any, and only that |
| Peers.PeerTable.MarkPeerUnhealthy | pkg/cluster/sglang_metrics.go:360-382 | entries agree with the poll history; from the threshold on the entry is unavailable and unhealthy with the last figures, before it nothing changes |
| Peers.PeerTable.PollSucceeded | pkg/cluster/sglang_metrics.go:172-195 | the entry becomes healthy and repeats the polled figures, and is available exactly when cache usage and load are below their limits |
| Downtime.TimeDownCounts | pkg/cluster/loadbalancer.go:1644-1656 | the time spent unhealthy is the number of instants at which the last report said unhealthy |
| Downtime.TimeDownBounded | pkg/cluster/loadbalancer.go:1644-1656 | it is between 0 and the uptime |
| Downtime.Closes | pkg/cluster/sglang_metrics.go:323-333 | on recovery the last interval is there and open, and closing it keeps the log in agreement with the reports |
| Downtime.Log.TrackHealthTransition | pkg/cluster/sglang_metrics.go:310-335 | keeps the log ordered, disjoint, closed but for the last interval when unhealthy, with a total equal to the time spent unhealthy |
| Downtime.Log.TotalDowntime | pkg/cluster/loadbalancer.go:1644-1656 | the reported figure counts the instants spent unhealthy, and is at most the uptime |

## Left out

- `PrefixTreePolicy.Insert` and `Select` (pkg/cluster/loadbalancer.go:637-766): the split links the old node under
  itself and slices the rest with an absolute index, so there is no tree invariant to state.
- `LeastLoadedPolicy.Select`: a linear minimum with no interplay; it would only add an easy member.
- The load balancer's own request counters and tracing: `LbOutcomes` proves how each copy of a request ends, without
  the counters that add the endings up.
- Which prompts the routers insert and when: the tree is proved for every sequence of inserts and clears.
- Draining the queue under the GORGO policy: the drain holds `queueMu` when `calculateLocalCost` locks it
  (pkg/cluster/loadbalancer.go:553, 1477, 1498). In `LbNetwork` peer selection is arbitrary and takes no lock.
- Termination of the load balancer's drain loop: failing forwards are re-queued without bound.
- Liveness: that a queued request is eventually served depends on tickers, timeouts and the network.
- Request identifiers are taken as unique; the code derives them from the nanosecond clock. Nodes of one network
  have distinct copies of a request under distinct identifiers.
- Server and peer identifiers in `uniqueServers` are taken to be distinct; the model counts the servers themselves.
- Float rounding: costs, cache usage and the moving average are reals. Token counts and durations are unbounded
  integers, and so are the hop count and all counters.
- The tokenizer sidecar: a function of the text that does not change during one selection.
- Metrics parsing, HTTP, SSH, and the environment, working directory and background handling of task commands: a
  command succeeds or fails, the same way each time it could be started.
- `Latency` is also written by the metrics poller (pkg/proxy/proxy.go:1283), so its bounds are not stated.
- Health transitions of the local backend are reported by goroutines that may run late; `Downtime` speaks of the
  reports in the order in which they arrive.
- A removed peer can come back when a poll in flight writes its entry; `Peers` allows it, so no theorem says
  that removal lasts.
- `PrefixTree.Tree` methods take the tree's lock as one atomic step; readers and writers do not overlap.
- `ProxyQueue` and `LbNetwork` are state machines on values: the mutex is what makes each step atomic. The effect
  of the critical sections on the mutable queue is in `RequestQueue`.
