# Network and operating system simulations, modelled and verified

The repository holds small C++ programs that simulate network protocols and the
coordination of threads and processes. This project models six of them in Dafny 4.11
and proves what they promise: not for some runs but for all inputs, all random draws,
all ways of breaking ties and all interleavings.

- **Routing** (`Graphs`, `Dijkstra`, `Ties`, `Termination`, `Forwarding`, `Optimality`,
  `Topology`, `Ospf`, `Networks`, `Sessions`). A simplified form of the
  shortest-path-tree and next-hop calculation of sections 16.1 and 16.1.1 of RFC 2328.
  Routers are objects that recompute their tables with
  Dijkstra's algorithm over a lazy priority queue: no visited set, stale entries stay
  queued. A table entry is found by climbing the recorded predecessors from the
  destination to the first direct neighbour, which is the neighbour *nearest the
  destination*, not the first hop. Path finding consults every router's own table.
  Distances are cut off at 100000. Proved: the search settles each router once, in
  order of distance, and computes the shortest distances and an acyclic tree; hop by
  hop forwarding always arrives, never loops, and fails exactly when there is no
  route; it follows shortest routes if and only if every table entry uses a link that
  is itself a shortest route, with a four-router network on which it does not.
  Distances are written only when they become smaller, so the search records as the
  predecessor of a router only the nearest of those a shortest route may come from, and
  where costs are positive ties decide between exactly these. Hence a condition on the links alone for forwarding
  to be shortest however ties are broken, both ways. The search itself ends, whatever the
  costs, if and only if there is no negative loop it can follow below the cut-off. And in
  any session of creations, deletions and lookups every path found is right for the
  topology of the moment.
- **Web cache** (`LruTrace`, `LruCache`, `Proxy`). A doubly linked list between two
  sentinels and a map, driven by a get-fetch-put loop. Proved: the pointer operations
  are move-to-front and push-front/drop-last; the list is exactly the most recently
  used urls; larger caches hold more and fetch no more; no url is fetched twice in a
  stretch that fits; and against *any* policy with h places, prefetching included, the
  fetches are at most capacity / (capacity + 1 - h) times as many.
- **CSMA** (`Csma`, `CsmaSim`). A slotted channel scanned by a nested loop that
  changes stations on both sides of the one it has reached. `Csma` says what one slot
  may do without loops, `CsmaSim` runs the program's loops and proves that every run
  is one of the model. Proved for every run: one contender a slot, a success or a
  collision whenever somebody is ready on an idle channel and which of the two, exclusive
  and exactly timed transmissions, stations that hold back while the channel is busy, the
  collision ledger, and the backoff bounds.
- **Exam** (`Exam`). A parent and any number of students exchange typed messages over
  two bounded queues. Proved for every interleaving: replies are attributed to the
  right student and round, grades count the rounds in which student and parent drew the
  same letter, every run ends after a known number of actions, and the protocol is free
  of deadlock if and only if the answer queue holds a message per student.
- **Restaurant** (`Restaurant`). Diners and a door controller share a mutex and two
  condition variables. Proved for every interleaving: the history is one of whole
  batches. Liveness does not hold: the controller can miss a batch, and then the
  restaurant stays shut. Proved for every reachable state: nobody ever enters again if
  and only if the doors are shut and the controller is past its first wait without having
  found the back door open (or, with fewer diners than a batch, all of them are inside).
- **Request scheduler** (`Scheduler`). Rounds of first-fit over worker threads.
  Proved: termination within one round per request, every request executed or
  rejected once, in order, rejected exactly when no worker could ever serve it. That no
  worker takes on more than its resources in a round does not hold, because the wrong
  demand is subtracted. Proved: when the books of a worker are right; that the first
  round is always safe, and every round if the largest requests come first; exactly which
  services overload a single worker; and that requests are served safely in any number
  and order by any workers if and only if all of them demand the same.

`Collections` holds facts about sets and sequences the others share. Run
`dafny verify dfyconfig.toml` to check everything.

## How the programs are modelled

Classes and loops of the routing, cache, CSMA and scheduler programs are classes and
loops here; every such method is proved against functions or relations on values, and the
theorems are about those. The exam and the restaurant are processes and threads: they are
state machines here, whose steps interleave in every possible way. Some conventions:

- Integers are unbounded. In the routing program this is exact as long as link costs
  stay below 2^31 - 100000, since every sum has a distance below 100000 and one cost (a
  search that never ends would overflow in the program);
  in the CSMA program `1 << k` is exact for k below 31.
- A network is a set of router objects with distinct ids. Link costs are not checked by
  the program. They are taken to be non-negative for what the search computes, and
  positive for forwarding; Appendix C.3 of RFC 2328 asks for costs above zero. The order
  in which sets and maps of pointers are walked, and the order in which equal queue keys are
  popped, are left open.
- The routing program's path finding inserts a null entry into the start router's
  table when the destination is unknown, and answers a one-element path when start and
  finish are equal. Both are kept: what is proved of tables allows for such entries, and
  any number of lookups and changes may follow each other. A path from an unknown start
  router to another is not asked for; the program would follow a null pointer.
- A cache of capacity zero would unlink its own sentinel; capacity is non-zero. As in
  the program, a negative one is never reached. What a fetch brings is a parameter. It
  is taken never to be the text `-1`, which `get` uses for a miss: an HTTP response or
  the program's own error text `1` is never that.
- The numbers the random generator yields are arbitrary; what is made of them, the
  transmission probability in whole percents included, is the program's. The field the
  CSMA program leaves uninitialised is arbitrary.
- In the restaurant, each section between taking the lock and waiting or releasing it
  is one step, and condition variables do not wake up spuriously (the program's waits
  at lines 48, 84, 88 and 92 would not notice).
- In the exam, forks succeed, the letter answered is any character, and sends wait for
  room in their queue.

## Model

| member | source | states |
|---|---|---|
| Graphs.DistanceIs | NetworkProtocols/OSPF.cpp:34-41 | the capped shortest distance is the only number that is a lower bound of all routes and, below 100000, attained by one |
| Graphs.Triangle | NetworkProtocols/OSPF.cpp:55-56 | shortest distances satisfy the triangle inequality, cut off at 100000 included |
| Graphs.CutOff | NetworkProtocols/OSPF.cpp:34-41 | in terms of routes: the distance is 100000 if all routes cost as much, and otherwise that of the lightest |
| Dijkstra.FirstPop | NetworkProtocols/OSPF.cpp:47-49 | the first entry popped for a router carries its current distance and opens its scan in a good state |
| Dijkstra.RelaxKeeps | NetworkProtocols/OSPF.cpp:51-60 | examining one link keeps every part of the search invariant and changes no settled distance |
| Dijkstra.StaleStep | NetworkProtocols/OSPF.cpp:47-61 | a later pop of the same router relaxes nothing: it only leaves the queue |
| Dijkstra.FirstStep | NetworkProtocols/OSPF.cpp:47-61 | the first pop of a router comes with its final distance and settles it |
| Dijkstra.StepKeeps | NetworkProtocols/OSPF.cpp:47-61 | one iteration of the outer loop, whatever the tie-breaking, keeps the invariant, pops a key no smaller than before and changes no settled distance |
| Dijkstra.RunInv | NetworkProtocols/OSPF.cpp:43-61 | the invariant holds after every number of pops of every run |
| Dijkstra.SettledForGood | NetworkProtocols/OSPF.cpp:43-61 | from its first pop on, a router's distance never changes again in any run |
| Dijkstra.PopsInOrder | NetworkProtocols/OSPF.cpp:44-49 | keys leave the queue in order of non-decreasing distance |
| Dijkstra.PushBound | NetworkProtocols/OSPF.cpp:45-61 | at most one push per link and one to begin with, so no run has more pops than that |
| Dijkstra.FinalDistances | NetworkProtocols/OSPF.cpp:47-61 | when the queue is empty every distance is the minimum of 100000 and the lightest route |
| Dijkstra.RunResult | NetworkProtocols/OSPF.cpp:34-61 | every complete run yields the shortest distances and a tree of shortest routes |
| Dijkstra.NoCycle | NetworkProtocols/OSPF.cpp:55-61 | at no moment do the recorded predecessors contain a cycle, links of cost zero included |
| Forwarding.EntryUnique | NetworkProtocols/OSPF.cpp:76-102 | the predecessor tree determines every table entry |
| Forwarding.ClimbTight | NetworkProtocols/OSPF.cpp:86-90 | every router met on the climb lies on a shortest route to the destination |
| Forwarding.StopNotRoot | NetworkProtocols/OSPF.cpp:86-91 | the climb stops at a neighbour before it could step past the computing router |
| Forwarding.HopOk | NetworkProtocols/OSPF.cpp:76-102 | an entry is null exactly when there is no route below 100000; otherwise it names a direct neighbour on a shortest route, nearer to the destination when costs are positive |
| Forwarding.EntryMissing | NetworkProtocols/OSPF.cpp:76-102 | an entry for another router is null exactly when all routes to it cost 100000 or more |
| Forwarding.WayHop | NetworkProtocols/OSPF.cpp:145-155 | every hop follows a direct link and strictly lowers the true distance to the finish |
| Forwarding.WaySimple | NetworkProtocols/OSPF.cpp:145-155 | no router is passed twice, and the finish not before the end |
| Forwarding.WayExists | NetworkProtocols/OSPF.cpp:145-156 | the separately computed tables together deliver whenever there is a route |
| Forwarding.WayCostIs | NetworkProtocols/OSPF.cpp:81-91 | a forwarded path never costs less than the distance, and exactly that if and only if every hop is tight |
| Forwarding.ShortestIff | NetworkProtocols/OSPF.cpp:75-102 | forwarding is shortest throughout if and only if every entry points over a link that is a shortest route |
| Forwarding.NoDetoursShortest | NetworkProtocols/OSPF.cpp:136-158 | if every lightest direct link is a shortest route, so is every path found |
| Forwarding.DetourTaken | NetworkProtocols/OSPF.cpp:81-91 | a network on which the path found costs 11 where 3 would do, whatever the tie-breaking |
| Ties.RecordedNearest | NetworkProtocols/OSPF.cpp:55-61 | every predecessor a complete run leaves is among the nearest of the routers a shortest route may come from |
| Ties.RecordedIff | NetworkProtocols/OSPF.cpp:43-61 | with positive costs exactly these can be recorded, each by some breaking of ties |
| Optimality.TablesThrough | NetworkProtocols/OSPF.cpp:81-91 | where a direct neighbour is one of these, some breaking of ties sends the message straight to it |
| Optimality.HopPasses | NetworkProtocols/OSPF.cpp:81-91 | if the links to such neighbours are shortest routes, every entry's link is |
| Optimality.AllTablesShortestIff | NetworkProtocols/OSPF.cpp:75-102 | forwarding is shortest with all tables the program can compute if and only if no shortest route passes by a neighbour, as near as any it may come from, whose own link a detour betters |
| Optimality.PairShortest | NetworkProtocols/OSPF.cpp:43-61 | a network where one of two equally short routes would cost the message a dear link, but no run records it |
| Termination.RunLazy | NetworkProtocols/OSPF.cpp:43-61 | with any costs, every distance is the cost of a route below the cut-off, and a router is queued with its distance or its links have been examined with it |
| Termination.NeverEmpty | NetworkProtocols/OSPF.cpp:45-61 | with a negative loop the search can follow no run ever empties the queue |
| Termination.LowBound | NetworkProtocols/OSPF.cpp:55-57 | without one no route the search follows costs less than its least link times the number of routers |
| Termination.RunBounded | NetworkProtocols/OSPF.cpp:45-61 | so no run is longer than a number fixed by the network |
| Termination.EndsIff | NetworkProtocols/OSPF.cpp:45-61 | the search ends, however ties are broken, if and only if there is no such loop |
| Termination.TwoRouters | NetworkProtocols/OSPF.cpp:45-61 | two routers whose links cost less than zero together are enough for it never to end |
| Topology.IncomingLinks | NetworkProtocols/OSPF.cpp:181-193 | which links the incoming requests add, unknown routers refused |
| Topology.OutgoingLinks | NetworkProtocols/OSPF.cpp:200-212 | which links the outgoing requests give the new router |
| Topology.DroppedLinks | NetworkProtocols/OSPF.cpp:243-250 | exactly the links to the deleted router go |
| Topology.CreatedTidy | NetworkProtocols/OSPF.cpp:160-215 | creation, whatever the costs asked for, keeps links closed and free of self-links |
| Topology.DeletedTidy | NetworkProtocols/OSPF.cpp:240-256 | deletion keeps them so, and no link to the deleted router remains |
| Topology.DeleteUndoesCreate | NetworkProtocols/OSPF.cpp:160-264 | deleting a router just created restores the topology |
| Topology.Creates | NetworkProtocols/OSPF.cpp:160-215 | a creation with a known id changes nothing, any other is as CreationIs says |
| Topology.CreationIs | NetworkProtocols/OSPF.cpp:181-212 | routers are the old ones and the new one; an old router gains exactly the links to the new one that the incoming requests name it for, and the new one has exactly the outgoing ones that lead to old routers |
| Topology.Deletes | NetworkProtocols/OSPF.cpp:240-256 | a deletion of an unknown id changes nothing, any other is as DeletionIs says |
| Topology.DeletionIs | NetworkProtocols/OSPF.cpp:243-256 | the router is gone and so are the links to it; every other router and link stays |
| Topology.LiveIff | NetworkProtocols/OSPF.cpp:160-264 | after any history a router is live if and only if it was created and not deleted since |
| Topology.LinkIff | NetworkProtocols/OSPF.cpp:160-264 | and has exactly the links some successful creation asked for, towards the right end, neither end deleted since |
| Topology.HistoryTidy | NetworkProtocols/OSPF.cpp:160-264 | after any sequence of creations and deletions, with any costs, every link ends at a live router other than its own |
| Topology.HistoryCosts | NetworkProtocols/OSPF.cpp:160-264 | no link ever costs less than the least cost asked for |
| Topology.DeletionNeverShortens | NetworkProtocols/OSPF.cpp:240-261 | deleting a router brings no two others closer |
| Ospf.Router.constructor | NetworkProtocols/OSPF.cpp:18 | a new router has its id, no links and an empty table |
| Ospf.Router.AddNeighbor | NetworkProtocols/OSPF.cpp:25-27 | one link is appended |
| Ospf.Router.Initialize | NetworkProtocols/OSPF.cpp:34-41 | distance 100000 and no next hop for everybody, 0 for itself |
| Ospf.Router.Scan | NetworkProtocols/OSPF.cpp:51-60 | the inner loop on pointers is a scan of the value model |
| Ospf.Router.Round | NetworkProtocols/OSPF.cpp:47-61 | one turn of the outer loop is a step of the value model; the turns left drop by one |
| Ospf.Router.FindDistances | NetworkProtocols/OSPF.cpp:43-61 | the loop ends, in a state some run of the model reaches with an empty queue |
| Ospf.Router.Complete | NetworkProtocols/OSPF.cpp:63-68 | routers without a predecessor become their own |
| Ospf.Router.NeighborSet | NetworkProtocols/OSPF.cpp:70-73 | the set of direct neighbours |
| Ospf.Router.Walk | NetworkProtocols/OSPF.cpp:86-91 | the climb over predecessor pointers ends, at the first neighbour |
| Ospf.Router.Entry | NetworkProtocols/OSPF.cpp:77-101 | the entry of one destination |
| Ospf.Router.UpdateRoutingTable | NetworkProtocols/OSPF.cpp:29-103 | the new table is the one some shortest-path tree dictates, one entry per router, live routers only, null exactly for the others that all routes to cost 100000 or more |
| Ospf.Router.GetRouterByID | NetworkProtocols/OSPF.cpp:105-112 | the router with the id, or null if there is none |
| Ospf.Router.Unlink | NetworkProtocols/OSPF.cpp:243-250 | erasing in place removes exactly the links to the given router |
| Networks.Network.UpdateAll | NetworkProtocols/OSPF.cpp:218-221 | every table is right again, with exactly one entry per live router, and no link has changed |
| Networks.Network.CreateRouter | NetworkProtocols/OSPF.cpp:160-222 | a taken id changes nothing; otherwise exactly the router and links asked for come in, link by link; all tables are then right, with exactly one entry per live router |
| Networks.Network.DeleteRouter | NetworkProtocols/OSPF.cpp:224-264 | an unknown id changes nothing; otherwise exactly the router and the links from and to it go; all tables are then right, with exactly one entry per live router |
| Networks.Network.NumToPtrs | NetworkProtocols/OSPF.cpp:301-304 | the index from ids to routers |
| Networks.Network.Trace | NetworkProtocols/OSPF.cpp:145-156 | the loop over the lookups ends, having followed the way the tables dictate |
| Networks.Network.LookUp | NetworkProtocols/OSPF.cpp:147 | looking up an unknown router inserts a null entry, which changes nothing for later lookups |
| Networks.Network.FindPath | NetworkProtocols/OSPF.cpp:136-158 | terminates; empty exactly when all routes cost 100000 or more; otherwise a simple path of live routers along direct links that the tables dictate; every table stays right |
| Sessions.DeliversAnswers | NetworkProtocols/OSPF.cpp:136-158 | what the tables dictate is a simple path along direct links, every hop of which brings the message nearer |
| Sessions.Answer | NetworkProtocols/OSPF.cpp:290-305 | a path asked for at the menu is right for the present topology, and shortest where that condition holds |
| Sessions.Session | NetworkProtocols/OSPF.cpp:267-345 | in any sequence of creations, deletions and lookups every path asked for is right for the topology of the moment |
| LruTrace.LastUseIs | NetworkProtocols/LRU.cpp:117-137 | what the latest use of a url is |
| LruTrace.RunMostRecent | NetworkProtocols/LRU.cpp:117-137 | after any requests the cache lists the min(capacity, distinct urls) most recently used urls, latest first |
| LruTrace.RecentUnique | NetworkProtocols/LRU.cpp:117-137 | that description leaves one list of each length |
| LruTrace.Inclusion | NetworkProtocols/LRU.cpp:117-137 | a smaller cache holds a prefix of what a larger one holds |
| LruTrace.LargerFetchesLess | NetworkProtocols/LRU.cpp:205-216 | enlarging the cache never adds fetches |
| LruTrace.HitWithin | NetworkProtocols/LRU.cpp:117-137 | a url requested before within a stretch that fits is still there |
| LruTrace.OneFetchEach | NetworkProtocols/LRU.cpp:205-216 | in a stretch with at most capacity distinct urls each url is fetched at most once |
| LruTrace.MustFetch | NetworkProtocols/LRU.cpp:205-216 | any policy must fetch every url that is requested and was not held |
| LruTrace.AllButHeld | NetworkProtocols/LRU.cpp:205-216 | over any stretch a policy with h places must fetch all but h of the distinct urls |
| LruTrace.Competitive | NetworkProtocols/LRU.cpp:205-216 | over any trace, both starting empty, capacity + 1 - h times the fetches are at most capacity times those of any other policy with h slots; with as many slots, at most capacity times |
| LruTrace.RunIsPolicy | NetworkProtocols/LRU.cpp:117-137 | the cache is such a policy, and its fetches are its misses |
| LruCache.Cache.constructor | NetworkProtocols/LRU.cpp:96-100 | two sentinels linked to each other, an empty map |
| LruCache.Cache.AddNode | NetworkProtocols/LRU.cpp:102-108 | the node becomes first; links mirror each other again |
| LruCache.Cache.DeleteNode | NetworkProtocols/LRU.cpp:110-115 | exactly that node leaves the list; links mirror each other again |
| LruCache.Cache.KeysListed | NetworkProtocols/LRU.cpp:90-94 | the map's keys are exactly the listed keys, which are distinct, so its size is the list's length |
| LruCache.Cache.Get | NetworkProtocols/LRU.cpp:117-127 | a hit answers the stored page and moves it to the front; a miss answers -1 and changes nothing |
| LruCache.Cache.Put | NetworkProtocols/LRU.cpp:129-137 | the new entry goes first, at capacity the last one goes; size never exceeds capacity |
| Proxy.CachedUrls | NetworkProtocols/LRU.cpp:205-216 | the urls in the cache are those of the trace model |
| Proxy.CachedPages | NetworkProtocols/LRU.cpp:205-216 | every cached page is the one its url's latest fetch brought |
| Proxy.AnswersFetched | NetworkProtocols/LRU.cpp:205-219 | every page handed out is the one its url's latest fetch brought |
| Proxy.LastFetchIs | NetworkProtocols/LRU.cpp:205-216 | what the latest fetch is: a request that missed its url, all later ones for which found it |
| Proxy.Transparent | NetworkProtocols/LRU.cpp:205-219 | if pages do not change, every answer is the page itself |
| Proxy.ServeOne | NetworkProtocols/LRU.cpp:205-216 | one request: get, and fetch and put if that misses |
| Proxy.ServeAll | NetworkProtocols/LRU.cpp:189-224 | the loop on the pointer structure ends with the contents, answers and number of fetches of the model |
| Csma.WindowIs | NetworkProtocols/CSMA_CA_Simulation.cpp:24-27 | the backoff window is two to the smaller of collision count and maximum |
| Csma.Pow2Is | NetworkProtocols/CSMA_CA_Simulation.cpp:26 | shifting one to the left is taking powers of two: sums of exponents multiply |
| Csma.BusySlotIs | NetworkProtocols/CSMA_CA_Simulation.cpp:75-97 | on a busy channel stations count down, except that those which could transmit and want to draw from one to the busy backoff, the owner excepted; the timer runs, and at its end the channel is free and a new length is drawn |
| Csma.QuietSlotIs | NetworkProtocols/CSMA_CA_Simulation.cpp:98-134 | an idle slot in which no station is ready after the wishes only counts down |
| Csma.AttemptIs | NetworkProtocols/CSMA_CA_Simulation.cpp:98-129 | otherwise the first that is ready succeeds and takes the channel, if no station before it has just counted down to zero and none behind it is ready; else there is one collision event |
| Csma.AttemptedStations | NetworkProtocols/CSMA_CA_Simulation.cpp:98-134 | exactly those stations and the first collide and draw from the doubled window, those behind the first having counted down once more; the others count down |
| Csma.OutcomeIff | NetworkProtocols/CSMA_CA_Simulation.cpp:65-136 | an idle slot brings one success or one collision event if some station is ready after the wishes, which of the two decided as above, and neither otherwise |
| Csma.IdleSlotIs | NetworkProtocols/CSMA_CA_Simulation.cpp:65-136 | the whole state after an idle slot of any run, from the stations after the wishes: who attempts, who collides with what draw, who owns the channel, and that all others count down |
| Csma.FirstSlot | NetworkProtocols/CSMA_CA_Simulation.cpp:65-136 | if stations always want to transmit, the first slot is a success of a lone station and a collision of several |
| Csma.HoldsBack | NetworkProtocols/CSMA_CA_Simulation.cpp:78-82 | a station ready on a busy channel that it does not own leaves the slot with a backoff and has no success in the next |
| Csma.OneContender | NetworkProtocols/CSMA_CA_Simulation.cpp:98-135 | once a station has attempted, no station later in the scan is ready |
| Csma.OneOutcome | NetworkProtocols/CSMA_CA_Simulation.cpp:65-136 | a slot brings at most one success or one collision event, never both, and neither on a busy channel |
| Csma.SlotKeeps | NetworkProtocols/CSMA_CA_Simulation.cpp:65-136 | every slot keeps the ledger, the channel's owner and timer, the log and the backoff ranges |
| Csma.RunInv | NetworkProtocols/CSMA_CA_Simulation.cpp:50-136 | so they hold in every reachable state |
| Csma.BackoffDrops | NetworkProtocols/CSMA_CA_Simulation.cpp:75-97 | a backoff above one drops by exactly one each slot, busy or idle; at one it drops to zero unless the station collides in the slot, so it is drawn anew only at zero or after a collision |
| Csma.BackoffRange | NetworkProtocols/CSMA_CA_Simulation.cpp:24-31 | the backoff is never negative and never above the larger of window and busy backoff |
| Csma.Ledger | NetworkProtocols/CSMA_CA_Simulation.cpp:98-135 | collisions are the logged ones plus the pending ones, successes match both histories, and the total lies between 2 and n times the collision events |
| Csma.SuccessBound | NetworkProtocols/CSMA_CA_Simulation.cpp:65-136 | successes number at most half of the slots and one |
| Csma.LogGrows | NetworkProtocols/CSMA_CA_Simulation.cpp:113-122 | logged successes stay, later ones start later |
| Csma.Occupies | NetworkProtocols/CSMA_CA_Simulation.cpp:75-97 | a success occupies the channel, alone, for exactly the number of slots drawn, and then frees it |
| Csma.BusyIsLogged | NetworkProtocols/CSMA_CA_Simulation.cpp:75-97 | a busy channel always carries a logged transmission of its owner |
| CsmaSim.Node.PerformBackoff | NetworkProtocols/CSMA_CA_Simulation.cpp:24-27 | the number drawn, reduced to a value from one to the window |
| CsmaSim.Node.PerformBusyBackoff | NetworkProtocols/CSMA_CA_Simulation.cpp:29-31 | the number drawn, reduced to a value from one to the busy backoff |
| CsmaSim.Simulation.Wish | NetworkProtocols/CSMA_CA_Simulation.cpp:66-73 | stations may come to want to transmit as the probability allows, and none stops |
| CsmaSim.Simulation.WaitOut | NetworkProtocols/CSMA_CA_Simulation.cpp:75-97 | the busy slot of the model, which BusySlotIs tells station by station |
| CsmaSim.Simulation.Strike | NetworkProtocols/CSMA_CA_Simulation.cpp:102-111 | the inner loop strikes exactly the other stations found ready |
| CsmaSim.Simulation.Attempt | NetworkProtocols/CSMA_CA_Simulation.cpp:99-129 | what an attempt makes of every station, before and behind the scan |
| CsmaSim.Simulation.Contend | NetworkProtocols/CSMA_CA_Simulation.cpp:98-135 | the nested loops are the idle slot of the model, which QuietSlotIs, AttemptIs and AttemptedStations tell station by station |
| CsmaSim.Simulation.RunSlot | NetworkProtocols/CSMA_CA_Simulation.cpp:65-136 | one iteration of the slot loop is one slot of the model |
| CsmaSim.Simulation.constructor | NetworkProtocols/CSMA_CA_Simulation.cpp:51-63 | the start of a run |
| CsmaSim.SimulateCSMA | NetworkProtocols/CSMA_CA_Simulation.cpp:50-136 | whatever the draws, the states of the simulation are a run of the model |
| Exam.ActionKeeps | Inter Process Communication/Online_Exam.cpp:49-103 | every action of parent or student keeps the account of both queues, all students and the grades |
| Exam.RunInv | Inter Process Communication/Online_Exam.cpp:44-103 | so it holds in every interleaving |
| Exam.RepliesAttributed | Inter Process Communication/Online_Exam.cpp:90-94 | what the parent takes for student j in a round is j's reply to that round's question |
| Exam.FinalGrades | Inter Process Communication/Online_Exam.cpp:75-103 | at the end both queues are empty, everybody has answered every question once, and grades count the right answers |
| Exam.CollectsDrawn | Inter Process Communication/Online_Exam.cpp:49-94 | the j-th reply taken in round i, which is the (n * i + j)-th of all with n students, carries the answer student j drew on its i-th question |
| Exam.DrawnIs | Inter Process Communication/Online_Exam.cpp:53-57 | the list of a student's answers holds what it drew at each question taken, in that order |
| Exam.KeyIs | Inter Process Communication/Online_Exam.cpp:88 | the key holds what the parent drew as the correct answers, in that order |
| Exam.CollectsAre | Inter Process Communication/Online_Exam.cpp:93 | how many replies the parent has taken is the number of such moments of the run |
| Exam.GradesCount | Inter Process Communication/Online_Exam.cpp:53-103 | when the exam is over, a grade is the number of rounds in which what the student drew is what the parent drew |
| Exam.ActionCounts | Inter Process Communication/Online_Exam.cpp:49-103 | every action brings the end nearer by exactly one |
| Exam.RunLength | Inter Process Communication/Online_Exam.cpp:44-103 | no run is longer than the total of actions, and a finished one is exactly that long |
| Exam.Progress | Inter Process Communication/Online_Exam.cpp:49-103 | with a place per student in the answer queue somebody can act until the exam is over |
| Exam.CrowdedDeadlock | Inter Process Communication/Online_Exam.cpp:90-93 | with fewer places the first round can end in a deadlock |
| Exam.DeadlockFreeIff | Inter Process Communication/Online_Exam.cpp:40-103 | free of deadlock if and only if the answer queue holds one message per student |
| Restaurant.StepKeeps | MultiThreading/Restaurant.cpp:21-64 | every step of diners or controller keeps the account of the batches |
| Restaurant.RunInv | MultiThreading/Restaurant.cpp:21-94 | so it holds in every interleaving |
| Restaurant.WholeBatches | MultiThreading/Restaurant.cpp:32-61 | the history is one of whole batches: N different diners enter before any leaves, and all leave before the next enter |
| Restaurant.InsideCount | MultiThreading/Restaurant.cpp:32-53 | diners_inside is the number of diners between entry and exit |
| Restaurant.Doors | MultiThreading/Restaurant.cpp:35-61 | the doors are never both open; while draining, served and inside make up N; otherwise served is 0 |
| Restaurant.NoEntryWhileDraining | MultiThreading/Restaurant.cpp:27-44 | nobody enters while the back door is open, and the front door reopens only when the restaurant is empty |
| Restaurant.DoomedForever | MultiThreading/Restaurant.cpp:83-89 | once the doors are shut and the controller is past its first wait, nothing is logged in any continuation |
| Restaurant.CanServe | MultiThreading/Restaurant.cpp:21-94 | from every other reachable state some continuation lets a diner in, unless all are inside |
| Restaurant.ServesAgainIff | MultiThreading/Restaurant.cpp:21-94 | for any number of diners: somebody may still enter if and only if the state is not doomed and not all diners are inside |
| Restaurant.ClosedForGoodIff | MultiThreading/Restaurant.cpp:69-94 | with at least as many diners as a batch, nobody ever enters again if and only if the state is doomed |
| Restaurant.WaitBackIsStuck | MultiThreading/Restaurant.cpp:87-89 | the controller waits at line 88 only when the restaurant is shut and empty, and is never woken |
| Restaurant.MissedBatch | MultiThreading/Restaurant.cpp:83-89 | the controller comes to wait at line 88 exactly when the whole batch has left before it gets the lock |
| Restaurant.CanGetStuck | MultiThreading/Restaurant.cpp:75-94 | with any batch size and enough diners the restaurant can close for good after the first batch |
| Scheduler.RoundAdvances | MultiThreading/Ecommerce.cpp:118-150 | every round deals with at least one request |
| Scheduler.FirstFitIsFirst | MultiThreading/Ecommerce.cpp:13-20 | the worker found is the first that fits, and none is found only if none fits |
| Scheduler.HighestIsLargest | MultiThreading/Ecommerce.cpp:50-59 | the value compared with is the largest capacity |
| Scheduler.HighestFits | MultiThreading/Ecommerce.cpp:50-59 | the two helpers agree on full resources: a worker fits exactly when the largest capacity suffices |
| Scheduler.ScheduleRight | MultiThreading/Ecommerce.cpp:107-151 | every request is executed or rejected once, in order of arrival, rejected exactly when larger than every worker's full resources and otherwise executed by a worker whose full resources cover it (if no demand is negative), within one round per request |
| Scheduler.TurnBooks | MultiThreading/Ecommerce.cpp:130-139 | a turn adds the head's demand to the load of the first worker it fits, but takes the demand of the turn's number off what that worker has left |
| Scheduler.KeepsPace | MultiThreading/Ecommerce.cpp:127-148 | turn l deals with the l-th request of the round, unless the head is blocked to the end of it |
| Scheduler.RoundEnds | MultiThreading/Ecommerce.cpp:118-149 | a round goes on until the list ends, or no worker has enough left for a request that one could serve on its full resources |
| Scheduler.BooksRightIff | MultiThreading/Ecommerce.cpp:137 | what a worker has left is its resources less its load all through a round if and only if every request given to it is as large as the one subtracted |
| Scheduler.CoveredWithin | MultiThreading/Ecommerce.cpp:120-148 | while the demands subtracted are no smaller than those executed no worker takes on more than its resources |
| Scheduler.FirstRoundWithin | MultiThreading/Ecommerce.cpp:120-148 | in the first round the books are right and no worker takes on more than its resources |
| Scheduler.SortedWithin | MultiThreading/Ecommerce.cpp:120-148 | with requests in non-increasing order, in every round no worker takes on more than its resources or has more left than it should |
| Scheduler.SortedSafe | MultiThreading/Ecommerce.cpp:107-151 | so the whole service is safe |
| Scheduler.LoneOverloadIff | MultiThreading/Ecommerce.cpp:127-148 | a round overloads a single worker if and only if some run of requests passes the program's checks one by one and yet exceeds the capacity |
| Scheduler.LoneSafeIff | MultiThreading/Ecommerce.cpp:107-151 | a whole service with one worker is safe if and only if the pieces its books cut the list into all fit |
| Scheduler.ThreeSafeIff | MultiThreading/Ecommerce.cpp:107-151 | exactly which services with three requests and one worker overload it |
| Scheduler.LaterRoundOverloads | MultiThreading/Ecommerce.cpp:137 | a family of services that overload their worker in the second round |
| Scheduler.AlwaysSafeIff | MultiThreading/Ecommerce.cpp:107-151 | requests with demands from a set are served safely in any number and order by any workers if and only if the set holds at most one demand |
| Scheduler.Service.FindThread | MultiThreading/Ecommerce.cpp:13-20 | the first worker with enough left, or -1 |
| Scheduler.Service.OutOfValues | MultiThreading/Ecommerce.cpp:50-59 | whether the largest capacity suffices |
| Scheduler.Service.QueueErase | MultiThreading/Ecommerce.cpp:38-48 | the first entry with the demand is erased, which is the head when the head has it |
| Scheduler.Service.ServeTurn | MultiThreading/Ecommerce.cpp:127-148 | one turn of the inner loop is a turn of the model |
| Scheduler.Service.ServeRound | MultiThreading/Ecommerce.cpp:118-149 | one round; the head of an empty queue is never read |
| Scheduler.Service.Serve | MultiThreading/Ecommerce.cpp:107-150 | the loop ends with an empty queue, having printed the outcomes of the model |

## Left out

- Routing: the text of the menu, printing and freeing of memory. What tables come of negative costs, where the search ends at all, and forwarding over links of cost zero, whose loop freedom is not claimed.
- LruCache.Cache.Put: requires a url that is not cached yet, which the program's loop sees to (lines 205 to 210); called with one that is, the program would list it twice.
- Cache: the HTTP exchange itself, the splitting of urls, which accepts the requests modelled here, and the printing of the list.
- CSMA: the printed statistics. Which numbers are drawn is left open, so nothing is said of how likely a run is.
- Exam: the letter grades (lines 105 to 144), whose bands leave gaps such as between 49 and 50, and the text of the messages beyond the first letter, which the program copies past the end of a single character.
- Restaurant: batch sizes below two, and the delays.
- Scheduler: an exact condition for an overload in a later round with several workers, where first fit decides who gets what; for one worker, for sets of demands and for sorted requests it is given above.
- Scheduler: the waiting times (lines 135, 143 and 153 to 182), which are filed under the turn instead of the request, the sorting of workers by priority, and the reading of the input; one service is modelled, as the services do not share anything.
- Event_Reservation.cpp, Bridge.cpp, pipes.cpp, the FTP programs and the NS-3 scripts, which rest on unlocked tables, sockets, shell commands or libraries outside the repository, or hold a single mutex.
