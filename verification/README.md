# Verified models of network simulation algorithms

Dafny models of the algorithms and protocols at the heart of this network simulation code base
(INET, CoRE4INET and OpenFlow modules), and proofs of what they are for. Each file models one
component in the form it has in the source: objects whose methods rewrite their fields are classes,
loops are loops, and what they compute is stated by specification functions and predicates whose
properties are lemmas beside them.

| files | component |
|---|---|
| IntervalTreeShape, IntervalTreeInsert, IntervalTreeDelete, IntervalTreeQuery, IntervalTree | the augmented red-black interval tree on linked nodes with sentinels |
| LLDPMibGraph, LLDPRoutes, LLDPForwarding, LLDPBalancedMinHop, LLDPController | the SDN controller's link database, its two routing applications with their caches, and whole runs of both |
| TopologyPaths, Topology, TopologyRoutes | shortest paths to a target over weighted links and nodes, and over fewest links |
| Int128Words, Int128Values, Int128Text, Int128 | 128-bit integers in two words |
| HyperFlowLog, HyperFlow | log replication between controllers |
| AVBCredit, AVBShaper, AVBBuffer | the credit-based shaper of section 8.6.8.2 of IEEE 802.1Q |
| RCBuffer | the bandwidth-allocation gap of rate-constrained traffic |
| PatternGlob, PatternText, PatternNumber, PatternSearch, PatternMatcher | the glob compiler and matcher, and how patterns are written and looked for |
| MachoStates, MachoMoves, Macho | the hierarchical state machine |
| SpanningTree, StaticSpanningTree | switching off ports to leave a spanning tree |
| ReassemblyBuffer | reassembly of fragments, section 3.2 of RFC 791 |
| ByteArrayBuffer | the sliced byte queue |
| Basics | what several of them use |

## How to read the models

- Ghost parameters and ghost fields carry the abstract value of an object (the tree behind the
  pointers, the graph behind nodes and links, the log behind the queues); the executable parts do not
  depend on them.
- Times are integers or reals, costs are reals or infinite, and integers are unbounded except in
  the Int128 files and where a comment says otherwise.
- Infinity in the routing applications and in Topology is a value of its own; adding to it leaves it.
- Erasing during an iteration is modelled as erasing and going on with the next element.
- Switches have non-empty names: the empty name ends a chain of predecessors in the routing code.
- Signed overflow wraps around in the Int128 files, and the least value is excluded where it would be negated.
- The balanced routing application is stated for links that lead from the source to everywhere. Exactly
  then its search ends whatever is chosen (`LLDPBalancedMinHops.EndsExactly`). This is about infinity as
  a value of its own, at which ways tie; the source adds one to the largest integer, which overflows.
- The shaper is stated for a constant reservation above zero and at most the port's rate, for times
  that do not run backwards, and for one report of sending for every frame released.
- The gap buffer is stated for gates that report every frame they were given once.
- Strings contain no null character. Patterns and lines are matched case-sensitively.
- A piece of a fragmented datagram is not empty, and pieces are cut at fixed places.
- The operator `<` of Int128 is used by division only among non-negatives and against zero, where it is right.

In one place the documentation and the code disagree, and the model follows the code: a backslash is
documented to take away the meaning of any character, but a bracket after it opens a number range all
the same (`PatternGlobs.EscapeWorks`). The parser of Int128 accepts a surplus digit, one letter beyond
those of its radix (`Int128Texts.DigitBelowRadix`), and so does the model.

In one place the shaper departs from section 8.6.8.2 of IEEE 802.1Q, and the model follows it: a class
with nothing left to send may keep a credit, if it was not looked at between two frames
(`AVBShapers.CreditLeftOver`); `AVBShapers.DroppedAfterPaying` says exactly when.

## Model

| member | source | states |
|---|---|---|
| IntervalTrees.IntervalTree.Query | DynTssdn/inet/src/inet/common/IntervalTree.cc:515-562 | the loop over the explicit stack of frames and flags yields the pruned walk of the tree, the stack is back at height one, and for a query above the sentinel's value over proper intervals the result is every stored overlapping interval, once, in pre-order |
| IntervalTreeQuery.VisitIsScan | DynTssdn/inet/src/inet/common/IntervalTree.cc:525-560 | for low above the sentinel's value, taking a right branch only when its left neighbour yielded something loses no overlap: the pruned walk equals the scan of all nodes |
| IntervalTreeQuery.ScanOrders | DynTssdn/inet/src/inet/common/IntervalTree.cc:515-562 | the pre-order scan finds each overlapping interval as often as the in-order list of stored nodes holds it, and nothing else |
| IntervalTreeQuery.SentinelHidesRight | DynTssdn/inet/src/inet/common/IntervalTree.cc:62-62 | at the sentinel's own value the equality fails: on a concrete two-node tree the walk misses an overlapping interval |
| IntervalTreeQuery.Overlap | DynTssdn/inet/src/inet/common/IntervalTree.cc:503-513 | two proper intervals overlap exactly when some point lies in both |
| IntervalTreeQuery.MaxBounds | DynTssdn/inet/src/inet/common/IntervalTree.cc:135-136 | the stored maximum bounds every high end in the subtree, and above the sentinel's value some node attains it |
| IntervalTreeQuery.ResumeLeft | DynTssdn/inet/src/inet/common/IntervalTree.cc:530-545 | pushing a frame and going left keeps what the stack still promises to deliver |
| IntervalTreeQuery.ResumePop | DynTssdn/inet/src/inet/common/IntervalTree.cc:550-559 | popping a frame, with its flag passed on to the frame of its parent, keeps what the stack still promises to deliver |
| IntervalTrees.IntervalTree.Insert | DynTssdn/inet/src/inet/common/IntervalTree.cc:195-256 | insertion keeps keys in order, maxima exact, the root black, no red node under a red one and black heights equal, and the in-order list gains exactly the new node |
| IntervalTrees.IntervalTree.RecursiveInsert | DynTssdn/inet/src/inet/common/IntervalTree.cc:163-184 | the new node becomes a leaf at the place its key belongs to in the order, its colour as it was |
| IntervalTrees.IntervalTree.InsertFixup | DynTssdn/inet/src/inet/common/IntervalTree.cc:206-254 | the fix-up ends with a red-black tree that has the same nodes in the same order and exact maxima |
| IntervalTrees.IntervalTree.InsertFixupStep | DynTssdn/inet/src/inet/common/IntervalTree.cc:206-253 | one round keeps the sole defect at the red node and brings it nearer to the root or removes it |
| IntervalTreeInsert.RecolouredInv | DynTssdn/inet/src/inet/common/IntervalTree.cc:212-218 | with a red uncle, recolouring keeps the black heights and leaves at most one red-red edge, two levels up |
| IntervalTreeInsert.StraightInv | DynTssdn/inet/src/inet/common/IntervalTree.cc:221-225 | turning an inner grandchild into an outer one keeps order, maxima, black heights and the single defect |
| IntervalTreeInsert.LiftedInv | DynTssdn/inet/src/inet/common/IntervalTree.cc:226-228 | recolouring and turning the grandparent removes the red-red edge and keeps the black heights |
| IntervalTrees.IntervalTree.LeftRotateAt | DynTssdn/inet/src/inet/common/IntervalTree.cc:115-137 | a left rotation in place turns the subtree and nothing else: parents and children stay linked both ways, and both maxima are right again |
| IntervalTrees.IntervalTree.RightRotateAt | DynTssdn/inet/src/inet/common/IntervalTree.cc:139-160 | the mirror image |
| IntervalTreeShape.RotatedLeftSame | DynTssdn/inet/src/inet/common/IntervalTree.cc:115-137 | a rotation keeps the nodes in order and the maximum of the subtree |
| IntervalTrees.IntervalTree.FixupMaxHigh | DynTssdn/inet/src/inet/common/IntervalTree.cc:186-193 | on the way to the root every stored maximum becomes the maximum of its subtree, colours and order untouched |
| IntervalTrees.IntervalTree.DeleteNode | DynTssdn/inet/src/inet/common/IntervalTree.cc:443-500 | deletion returns the stored interval, keeps all tree invariants and takes exactly that node out of the in-order list |
| IntervalTrees.IntervalTree.DeleteInterval | DynTssdn/inet/src/inet/common/IntervalTree.cc:418-423 | removing by interval removes the node that stores it, or changes nothing if none does |
| IntervalTrees.IntervalTree.RecursiveSearch | DynTssdn/inet/src/inet/common/IntervalTree.cc:425-441 | the node found stores the interval; the sentinel means that no node of the tree does |
| IntervalTrees.IntervalTree.GetSuccessor | DynTssdn/inet/src/inet/common/IntervalTree.cc:272-288 | the next node in the in-order list |
| IntervalTrees.IntervalTree.GetMinimum | DynTssdn/inet/src/inet/common/IntervalTree.cc:258-263 | the first node of the subtree in order |
| IntervalTrees.IntervalTree.Splice | DynTssdn/inet/src/inet/common/IntervalTree.cc:449-465 | splicing out a node with one child puts the child in its place, whose parent link is set even if it is the sentinel |
| IntervalTrees.IntervalTree.TakeSeat | DynTssdn/inet/src/inet/common/IntervalTree.cc:469-479 | the successor takes the links and the place of the removed node |
| IntervalTrees.IntervalTree.DeleteFixup | DynTssdn/inet/src/inet/common/IntervalTree.cc:345-416 | the loop, with its stale notion of the top node, ends with a red-black tree over the same nodes |
| IntervalTrees.IntervalTree.DeleteFixupStep | DynTssdn/inet/src/inet/common/IntervalTree.cc:350-414 | one round keeps the missing black at the node looked at and moves it up or makes it good |
| IntervalTreeDelete.LoweredInv | DynTssdn/inet/src/inet/common/IntervalTree.cc:355-361 | with a red sibling, the turn gives the node a black sibling and keeps the deficit |
| IntervalTreeDelete.PushedInv | DynTssdn/inet/src/inet/common/IntervalTree.cc:362-366 | with black nephews, painting the sibling pushes the deficit to the parent |
| IntervalTreeDelete.TurnedInv | DynTssdn/inet/src/inet/common/IntervalTree.cc:369-375 | with only the near nephew red, turning the sibling makes the far one red and keeps the deficit |
| IntervalTreeDelete.SettledInv | DynTssdn/inet/src/inet/common/IntervalTree.cc:376-380 | with the far nephew red, turning the parent restores the black height on all paths |
| IntervalTreeDelete.ReseatedFix | DynTssdn/inet/src/inet/common/IntervalTree.cc:469-490 | moving the successor into the removed node's place leaves at most the deficit the fix-up is called for |
| IntervalTreeDelete.ReseatOrder | DynTssdn/inet/src/inet/common/IntervalTree.cc:469-490 | and takes just the removed node out of the order |
| IntervalTreeDelete.SplicedFix | DynTssdn/inet/src/inet/common/IntervalTree.cc:491-497 | splicing out a node with one child leaves either a red-black tree or a deficit at that child |
| IntervalTreeShape.RedBlackPlug | DynTssdn/inet/src/inet/common/IntervalTree.cc:195-256 | a red-black subtree in a matching surrounding is a red-black tree |
| IntervalTreeShape.RedBlackUnplug | DynTssdn/inet/src/inet/common/IntervalTree.cc:345-416 | and every position of a red-black tree splits that way |
| IntervalTreeShape.LogarithmicHeight | DynTssdn/inet/src/inet/common/IntervalTree.cc:195-256 | what the invariants are for: a tree of height h holds at least 2^(h/2) - 1 nodes |
| LLDPMibs.SameLinkEquivalence | DynTssdn/OpenFlow/src/openflow/controllerApps/LLDPMib.cc:19-28 | the comparison of entries is an equivalence and does not distinguish the two ends of a link |
| LLDPMibs.SameLinkExactly | DynTssdn/OpenFlow/src/openflow/controllerApps/LLDPMib.cc:19-28 | entries are of the same link if and only if they have the same two ends, ports included: parallel links differ |
| LLDPMibGraphs.LLDPMibGraph.AddEntry | DynTssdn/OpenFlow/src/openflow/controllerApps/LLDPMibGraph.cc:32-88 | a report is refused, and nothing changed, exactly if it is of a host behind a port that leads to a switch; else the database stays sound and its counters exact, an entry that is there is renewed, and the version moves on exactly when the links change; links noted for earlier versions stay |
| LLDPMibGraphs.LLDPMibGraph.CheckShadowed | DynTssdn/OpenFlow/src/openflow/controllerApps/LLDPMibGraph.cc:33-43 | tells whether a host report comes from behind a link between switches |
| LLDPMibs.ReportTaken | DynTssdn/OpenFlow/src/openflow/controllerApps/LLDPMibGraph.cc:32-43 | a host is refused behind a port with a link to a switch and taken where every link leads to a host, and a switch is always taken |
| LLDPMibs.ReportEntered | DynTssdn/OpenFlow/src/openflow/controllerApps/LLDPMibGraph.cc:45-85 | what is taken is there at both ends until just after its time-out |
| LLDPMibs.ReportRenews | DynTssdn/OpenFlow/src/openflow/controllerApps/LLDPMibGraph.cc:32-85 | a host that has been entered may be reported again, which leaves the links as they are |
| LLDPMibGraphs.LLDPMibGraph.Enter | DynTssdn/OpenFlow/src/openflow/controllerApps/LLDPMibGraph.cc:45-64 | one end of a link is entered or renewed, and counters and version move by what is new |
| LLDPMibGraphs.LLDPMibGraph.EnterBoth | DynTssdn/OpenFlow/src/openflow/controllerApps/LLDPMibGraph.cc:45-85 | with both ends entered every entry has its mirror again, and the version stays exactly if no link is new |
| LLDPMibGraphs.LLDPMibGraph.Find | DynTssdn/OpenFlow/src/openflow/controllerApps/LLDPMibGraph.cc:55-60 | the search finds the entry of the same link, the one renewal changes, or the end |
| LLDPMibs.AddedSound | DynTssdn/OpenFlow/src/openflow/controllerApps/LLDPMibGraph.cc:45-85 | entries of the added link share one expiry at both ends, every other entry keeps its mirror, and no link is entered twice at a vertex |
| LLDPMibs.AddedLinks | DynTssdn/OpenFlow/src/openflow/controllerApps/LLDPMibGraph.cc:45-85 | the links are the same after an addition exactly when neither half of it is new |
| LLDPMibGraphs.LLDPMibGraph.RemoveExpiredEntries | DynTssdn/OpenFlow/src/openflow/controllerApps/LLDPMibGraph.cc:91-116 | what is left is exactly what has not expired, without empty vertices, sound and counted; the version moves on exactly when links went |
| LLDPMibGraphs.LLDPMibGraph.Expire | DynTssdn/OpenFlow/src/openflow/controllerApps/LLDPMibGraph.cc:95-105 | erasing one by one leaves the entries not expired, in order, and counts each |
| LLDPMibGraphs.LLDPMibGraph.ExpireAll | DynTssdn/OpenFlow/src/openflow/controllerApps/LLDPMibGraph.cc:93-115 | over all vertices the version moves by what was erased, entries and vertices together |
| LLDPMibs.LiveSound | DynTssdn/OpenFlow/src/openflow/controllerApps/LLDPMibGraph.cc:91-116 | expiry takes both ends of a link together, so mirrors stay |
| LLDPMibs.LiveFresh | DynTssdn/OpenFlow/src/openflow/controllerApps/LLDPMibGraph.cc:98-103 | nothing expired is left, and nothing new appears |
| LLDPMibs.SameLinksSameCount | DynTssdn/OpenFlow/src/openflow/controllerApps/LLDPMibGraph.cc:91-116 | databases with the same links have the same number of entries |
| LLDPRoutes.LeastDistance | DynTssdn/OpenFlow/src/openflow/controllerApps/LLDPForwarding.cc:219-247 | once every vertex has been followed, no walk has fewer hops than the distance found |
| LLDPRoutes.BackTrack | DynTssdn/OpenFlow/src/openflow/controllerApps/LLDPForwarding.cc:249-258 | following the predecessors back yields a chain of links from the source whose length is the distance, or nothing for a vertex not reached |
| LLDPRoutes.AnswerFound | DynTssdn/OpenFlow/src/openflow/controllerApps/LLDPForwarding.cc:249-266 | such a chain answers the request: fewest hops of all, and empty exactly when there is no way |
| LLDPRoutes.Start | DynTssdn/OpenFlow/src/openflow/controllerApps/LLDPForwarding.cc:188-217 | at the start everything waits at an infinite distance, the source at zero |
| LLDPForwardings.ShortestPath | DynTssdn/OpenFlow/src/openflow/controllerApps/LLDPForwarding.cc:188-266 | the route returned is a shortest one from source to destination, and the back-tracking ends at the source exactly if the destination can be reached |
| LLDPForwardings.Dijkstra | DynTssdn/OpenFlow/src/openflow/controllerApps/LLDPForwarding.cc:219-247 | the search ends with every distance the length of a walk, every link taken into account and every predecessor one hop nearer |
| LLDPForwardings.Round | DynTssdn/OpenFlow/src/openflow/controllerApps/LLDPForwarding.cc:220-247 | a round skips a stale entry or visits a vertex for good; either way less is left to do |
| LLDPForwardings.Picked | DynTssdn/OpenFlow/src/openflow/controllerApps/LLDPForwarding.cc:222-227 | whichever least entry is taken, its vertex was visited before or has its final distance |
| LLDPForwardings.Followed | DynTssdn/OpenFlow/src/openflow/controllerApps/LLDPForwarding.cc:229-243 | following a link never touches a visited vertex and keeps the distances the lengths of walks |
| LLDPForwardings.RoundDone | DynTssdn/OpenFlow/src/openflow/controllerApps/LLDPForwarding.cc:229-246 | with all its links followed a vertex can be called visited |
| LLDPForwardings.LLDPForwarding.ComputePath | DynTssdn/OpenFlow/src/openflow/controllerApps/LLDPForwarding.cc:147-269 | cached or computed, the route appended answers the request on the links alive now |
| LLDPForwardings.LLDPForwarding.CheckVersion | DynTssdn/OpenFlow/src/openflow/controllerApps/LLDPForwarding.cc:159-175 | a cache of another version is dropped, one of this version kept |
| LLDPForwardings.LLDPForwarding.Lookup | DynTssdn/OpenFlow/src/openflow/controllerApps/LLDPForwarding.cc:159-268 | a hit is returned as it is and still answers; a new route is cached if there is one, and nothing else is |
| LLDPForwardings.CacheKept | DynTssdn/OpenFlow/src/openflow/controllerApps/LLDPForwarding.cc:159-175 | a history of versions that only grows leaves the cached routes answers for the version they are of |
| LLDPControllers.Run | DynTssdn/OpenFlow/src/openflow/controllerApps/LLDPForwarding.cc:147-269 | over every sequence of learning links, passing time and asking, every route returned answers its question on the links of that moment |
| LLDPControllers.Step | DynTssdn/OpenFlow/src/openflow/controllerApps/LLDPForwarding.cc:147-269 | one event changes database and cache so that this goes on |
| LLDPBalancedMinHops.BalancedPath | DynTssdn/OpenFlow/src/openflow/controllerApps/LLDPBalancedMinHop.cc:176-263 | on links that lead from the source to everywhere the route is a shortest one, whatever the random choices are |
| LLDPBalancedMinHops.Balance | DynTssdn/OpenFlow/src/openflow/controllerApps/LLDPBalancedMinHop.cc:207-248 | the search without a visited set terminates with least distances, every predecessor one hop nearer |
| LLDPBalancedMinHops.BalancedRound | DynTssdn/OpenFlow/src/openflow/controllerApps/LLDPBalancedMinHop.cc:208-248 | on any links, a round takes an entry with a least key, follows all links of its vertex and chooses one of the ties left, or none |
| LLDPBalancedMinHops.RoundKeeps | DynTssdn/OpenFlow/src/openflow/controllerApps/LLDPBalancedMinHop.cc:208-248 | whatever is chosen, a round keeps what the search relies on, and reaches new vertices or leaves fewer levels in the queue |
| LLDPBalancedMinHops.Spread | DynTssdn/OpenFlow/src/openflow/controllerApps/LLDPBalancedMinHop.cc:213-232 | the loop over the links of a vertex improves or collects ties link by link, the ties afresh after every improvement |
| LLDPBalancedMinHops.TiesAfresh | DynTssdn/OpenFlow/src/openflow/controllerApps/LLDPBalancedMinHop.cc:213-232 | the ties left for the choice are exactly those after the last improvement, in their order |
| LLDPBalancedMinHops.TakenNearest | DynTssdn/OpenFlow/src/openflow/controllerApps/LLDPBalancedMinHop.cc:210-211 | the least entry of the queue belongs to a vertex reached, and no vertex still to be followed is nearer |
| LLDPBalancedMinHops.OnlyNew | DynTssdn/OpenFlow/src/openflow/controllerApps/LLDPBalancedMinHop.cc:216-225 | only a vertex never reached before is improved, so a distance once found is final |
| LLDPBalancedMinHops.Discovered | DynTssdn/OpenFlow/src/openflow/controllerApps/LLDPBalancedMinHop.cc:216-225 | reaching a new vertex keeps distances the lengths of walks, finite queue keys exact and all levels within one hop |
| LLDPBalancedMinHops.ReroutedBalancing | DynTssdn/OpenFlow/src/openflow/controllerApps/LLDPBalancedMinHop.cc:234-245 | taking a tie changes the predecessor but no distance, and keeps the invariant |
| LLDPBalancedMinHops.RoundCost | DynTssdn/OpenFlow/src/openflow/controllerApps/LLDPBalancedMinHop.cc:208-248 | an entry put back for a tie lies one level deeper, so the budget of levels shrinks |
| LLDPBalancedMinHops.Choose | DynTssdn/OpenFlow/src/openflow/controllerApps/LLDPBalancedMinHop.cc:234-245 | any of the ties, or none, may be taken |
| LLDPBalancedMinHops.LLDPBalancedMinHop.ComputeBalancedMinHopPath | DynTssdn/OpenFlow/src/openflow/controllerApps/LLDPBalancedMinHop.cc:138-271 | cached or computed, the route is a shortest one on the links alive now |
| LLDPBalancedMinHops.LLDPBalancedMinHop.CheckCache | DynTssdn/OpenFlow/src/openflow/controllerApps/LLDPBalancedMinHop.cc:150-167 | a hit needs the same version and the same pair of switches |
| LLDPBalancedMinHops.LLDPBalancedMinHop.Lookup | DynTssdn/OpenFlow/src/openflow/controllerApps/LLDPBalancedMinHop.cc:150-271 | the route is cached for its version and pair, and a cached one is returned |
| LLDPBalancedMinHops.EndsExactly | DynTssdn/OpenFlow/src/openflow/controllerApps/LLDPBalancedMinHop.cc:176-248 | from the start of any search on a sound database: there is no endless run of rounds, whatever is chosen, if and only if every vertex can be reached from the source |
| LLDPBalancedMinHops.NoneEndless | DynTssdn/OpenFlow/src/openflow/controllerApps/LLDPBalancedMinHop.cc:207-248 | with everything reachable no run of rounds is endless |
| LLDPBalancedMinHops.NeedNotEnd | DynTssdn/OpenFlow/src/openflow/controllerApps/LLDPBalancedMinHop.cc:207-248 | with an unreachable vertex waiting in the queue some run is |
| LLDPBalancedMinHops.WaitsOn | DynTssdn/OpenFlow/src/openflow/controllerApps/LLDPBalancedMinHop.cc:208-248 | as long as an unreachable vertex waits, some round leads on to a state in which one does: before infinity comes up it stays, and then a tie at infinity brings in another |
| LLDPBalancedMinHops.UnreachableLinked | DynTssdn/OpenFlow/src/openflow/controllerApps/LLDPBalancedMinHop.cc:216-231 | in a sound database an unreachable vertex has a link to another one |
| LLDPControllers.RunBalanced | DynTssdn/OpenFlow/src/openflow/controllerApps/LLDPBalancedMinHop.cc:138-271 | every route returned over a run of the balanced application, cached or not, has the fewest hops on the links of that moment, however ties are resolved |
| Topologies.Topology.CalculateWeightedSingleShortestPathsTo | DynTssdn/inet/src/inet/common/Topology.cc:412-469 | every node gets the least cost over usable links and the weights of the nodes between, infinite if there is no way, and its way out leads to the target at exactly that cost; without a target nothing is done |
| Topologies.Topology.CalculateUnweightedSingleShortestPathsTo | DynTssdn/inet/src/inet/common/Topology.cc:372-410 | every node gets the least number of usable links to the target, and its way out realises it |
| TopologyPaths.LeastDistance | DynTssdn/inet/src/inet/common/Topology.cc:412-469 | no walk over usable links costs less than the distance found |
| TopologyPaths.TrailFound | DynTssdn/inet/src/inet/common/Topology.cc:456-457 | following the ways out reaches the target at the cost noted |
| TopologyPaths.TrailIsWalk | DynTssdn/inet/src/inet/common/Topology.cc:456-457 | the ways out are walks in the graph, so the least cost is attained |
| TopologyRoutes.NoRouteCheaper | DynTssdn/inet/src/inet/common/Topology.cc:412-469 | no route over enabled links and nodes has a smaller sum of the weights of its links and of the nodes between its ends |
| TopologyRoutes.CheapestRoute | DynTssdn/inet/src/inet/common/Topology.cc:412-469 | and a finite distance is that sum for some route |
| TopologyRoutes.UnitPrice | DynTssdn/inet/src/inet/common/Topology.cc:372-410 | without weights the sum is the number of links |
| TopologyPaths.NeverTaken | DynTssdn/inet/src/inet/common/Topology.cc:450-455 | a node taken from the queue is never offered a cheaper way, so it never comes back |
| TopologyPaths.Taken | DynTssdn/inet/src/inet/common/Topology.cc:430-432 | the first of the ordered queue has its final distance |
| TopologyPaths.Followed | DynTssdn/inet/src/inet/common/Topology.cc:436-466 | moving a node to its new place keeps the queue sorted, without duplicates and complete, and all ways realised |
| TopologyPaths.RemovedSorted | DynTssdn/inet/src/inet/common/Topology.cc:454-455 | taking a node out of the middle keeps the order of the others |
| Topologies.Topology.FollowLink | DynTssdn/inet/src/inet/common/Topology.cc:437-467 | one link is followed back as the graph says, disabled links and nodes passed over, the target's own weight not counted |
| Topologies.Topology.Improve | DynTssdn/inet/src/inet/common/Topology.cc:453-466 | distance and way out are rewritten and the node is moved to its place in the queue |
| Topologies.Topology.FindPlace | DynTssdn/inet/src/inet/common/Topology.cc:459-463 | the place is behind everyone no farther and before everyone no nearer |
| Topologies.Topology.Round | DynTssdn/inet/src/inet/common/Topology.cc:430-468 | a round takes one node for good |
| Topologies.Finished | DynTssdn/inet/src/inet/common/Topology.cc:412-469 | an empty queue means that the distances are least and realised |
| TopologyPaths.KnownHop | DynTssdn/inet/src/inet/common/Topology.cc:403-403 | in first-in first-out order a node reached before never needs a shorter way |
| TopologyPaths.NewHop | DynTssdn/inet/src/inet/common/Topology.cc:403-407 | and a new one belongs at the end of the queue |
| Int128s.Int128.Div | DynTssdn/inet/src/inet/common/int128.cc:239-289 | quotient and remainder as truncating division defines them, for all operands but the least value and a zero divisor, even if the remainder object is the dividend or the divisor |
| Int128s.DividesUnique | DynTssdn/inet/src/inet/common/int128.cc:239-289 | there is only one such pair, so this fixes the result |
| Int128s.Int128.DivideMagnitudes | DynTssdn/inet/src/inet/common/int128.cc:255-279 | restoring division of non-negatives: dividend = quotient * divisor + rest with a smaller rest |
| Int128s.Int128.FirstBits | DynTssdn/inet/src/inet/common/int128.cc:259-265 | the first loop stops with the top bits that just hold the divisor, its counter right again although it wraps for a moment; no shift overflows |
| Int128s.Int128.Subtract | DynTssdn/inet/src/inet/common/int128.cc:267-279 | the second loop accounts for every bit of the dividend |
| Int128s.PartlyShift | DynTssdn/inet/src/inet/common/int128.cc:268-275 | taking in a bit keeps the partial division |
| Int128s.PartlySubtract | DynTssdn/inet/src/inet/common/int128.cc:276-279 | subtracting the divisor and setting the quotient bit keeps it, and the bit was clear |
| Int128s.PartlyBounded | DynTssdn/inet/src/inet/common/int128.cc:267-279 | quotient and partial remainder never exceed the dividend, so they fit |
| Int128s.SignedDivision | DynTssdn/inet/src/inet/common/int128.cc:281-287 | putting the signs back gives truncating division |
| Int128s.Int128.ModAssign | DynTssdn/inet/src/inet/common/int128.h:140-144 | the remainder is right although it is written over the dividend |
| Int128s.Int128.DivAssign | DynTssdn/inet/src/inet/common/int128.h:133-138 | the quotient of truncating division |
| Int128s.Int128.MulAssign | DynTssdn/inet/src/inet/common/int128.cc:216-237 | 128 rounds of shift and add give the product modulo 2^128 |
| Int128s.ProductStep | DynTssdn/inet/src/inet/common/int128.cc:229-234 | one round adds the factor shifted if the bit is set |
| Int128s.LowProduct | DynTssdn/inet/src/inet/common/int128.cc:229-234 | only the lower 128 bits of the other factor matter, so its sign takes care of itself |
| Int128s.Int128.AddAssign | DynTssdn/inet/src/inet/common/int128.cc:204-214 | two words with a carry add modulo 2^128, also a number to itself |
| Int128s.Int128.SubAssign | DynTssdn/inet/src/inet/common/int128.h:128-131 | subtraction modulo 2^128 |
| Int128s.Int128.ShlAssign | DynTssdn/inet/src/inet/common/int128.cc:352-380 | a left shift by any amount multiplies by a power of two modulo 2^128 |
| Int128s.Int128.ShrAssign | DynTssdn/inet/src/inet/common/int128.cc:321-350 | a right shift by any amount divides by a power of two, rounding down |
| Int128s.Int128.SetBit | DynTssdn/inet/src/inet/common/int128.cc:302-319 | writing a bit changes the value by its weight, the top bit by minus its weight, and bits beyond change nothing |
| Int128Values.ShiftedLeftValue | DynTssdn/inet/src/inet/common/int128.cc:352-380 | the masks and carries of a left shift come to a multiplication |
| Int128Values.ShiftedRightValue | DynTssdn/inet/src/inet/common/int128.cc:321-350 | the masks and carries of a right shift come to a division |
| Int128Values.TestBitValue | DynTssdn/inet/src/inet/common/int128.cc:291-300 | the bit read from the words is the bit of the two's complement value |
| Int128Values.WithBitValue | DynTssdn/inet/src/inet/common/int128.cc:302-319 | a bit written to the words changes the value by its weight |
| Int128Values.SignBitValue | DynTssdn/inet/src/inet/common/int128.cc:302-319 | writing the top bit makes the value negative or takes the sign away, the other bits kept |
| Int128Values.NegatedValue | DynTssdn/inet/src/inet/common/int128.cc:162-168 | negation, for all but the least value |
| Int128Values.LessThanExactly | DynTssdn/inet/src/inet/common/int128.cc:382-392 | the comparison is right exactly unless both high words are equal and negative and the low words lie on different sides of 2^63 |
| Int128Values.LessThanWrong | DynTssdn/inet/src/inet/common/int128.cc:385-386 | it gets -2^64 and -1 the wrong way round |
| Int128Values.LessThanRight | DynTssdn/inet/src/inet/common/int128.cc:382-392 | it is right among non-negatives and against zero, which is where division uses it |
| Int128s.Int128.ToString | DynTssdn/inet/src/inet/common/int128.cc:37-62 | the numeral of the value in the given radix, which always fits the buffer |
| Int128s.Int128.Set | DynTssdn/inet/src/inet/common/int128.cc:64-109 | the value of the numeral read modulo 2^128, with its sign and radix prefix |
| Int128Texts.ScanOfText | DynTssdn/inet/src/inet/common/int128.cc:37-109 | reading what was printed in decimal gives the number back |
| Int128Texts.ScanOfPrefixed | DynTssdn/inet/src/inet/common/int128.cc:37-109 | what is printed in radix 16 or 8 is read back after "0x" or "0" |
| Int128s.PrintAndRead | DynTssdn/inet/src/inet/common/int128.cc:37-109 | so printing an object and setting another from the text copies it, for all but the least value |
| Int128Texts.DigitBelowRadix | DynTssdn/inet/src/inet/common/int128.cc:93-101 | the parser takes exactly one letter too many, the one just past the last digit |
| Int128Texts.ExtraDigits | DynTssdn/inet/src/inet/common/int128.cc:94-99 | it reads "1a" as twenty and "0xg" as sixteen |
| HyperFlows.HyperFlowNetwork.Run | DynTssdn/OpenFlow/src/openflow/hyperflow/HyperFlowSynchronizer.cc:52-133 | after any run, with messages delayed and overtaking each other, every agent holds just the oldest part of the log and has re-fired its foreign entries; the log only grows, and with the changes on their way it holds, as often, just what was there and what was published; what a reply told an agent of other controllers was true when it was made |
| HyperFlows.HyperFlowNetwork.Step | DynTssdn/OpenFlow/src/openflow/hyperflow/HyperFlowSynchronizer.cc:52-133 | what can happen is done, message by message; every agent stays consistent, and what replies tell of other controllers stays true |
| HyperFlowLogs.RefiredOnce | DynTssdn/OpenFlow/src/openflow/hyperflow/HyperFlowAgent.cc:174-189 | an entry from elsewhere has been re-fired as often as the log holds it in the part synced, an own entry never |
| HyperFlows.HyperFlowAgent.HandleSyncReply | DynTssdn/OpenFlow/src/openflow/hyperflow/HyperFlowAgent.cc:152-191 | a reply is taken in oldest entry first, own entries are not re-fired, and whoever has reported in is known once |
| HyperFlows.HyperFlowAgent.CatchUp | DynTssdn/OpenFlow/src/openflow/hyperflow/HyperFlowAgent.cc:174-189 | the loop from the back stores all new entries on top and re-fires the foreign ones in order |
| HyperFlows.HyperFlowAgent.MeetControllers | DynTssdn/OpenFlow/src/openflow/hyperflow/HyperFlowAgent.cc:158-172 | whoever reported is known from then on, once, and no one is forgotten or made up |
| HyperFlows.HyperFlowAgent.SendSyncRequest | DynTssdn/OpenFlow/src/openflow/hyperflow/HyperFlowAgent.cc:140-150 | a request is sent only when none is outstanding, and asks from the agent's counter on |
| HyperFlows.HyperFlowSynchronizer.HandleArrival | DynTssdn/OpenFlow/src/openflow/hyperflow/HyperFlowSynchronizer.cc:76-87 | messages are queued in their order of arrival, one of them being served |
| HyperFlows.HyperFlowSynchronizer.HandleServiced | DynTssdn/OpenFlow/src/openflow/hyperflow/HyperFlowSynchronizer.cc:53-75 | the head of the queue is processed, a report noted, a request answered with missing entries and all reports still alive, and the next message is taken up |
| HyperFlows.HyperFlowSynchronizer.ProcessQueuedMsg | DynTssdn/OpenFlow/src/openflow/hyperflow/HyperFlowSynchronizer.cc:157-179 | changes are logged, reports are noted with their time, and a request is answered with the missing entries and with exactly the reports served that are not too old |
| HyperFlows.HyperFlowSynchronizer.CopyMissing | DynTssdn/OpenFlow/src/openflow/hyperflow/HyperFlowSynchronizer.cc:119-127 | counting down from the size the entries after the sender's counter are copied, newest first |
| HyperFlows.HyperFlowSynchronizer.Expire | DynTssdn/OpenFlow/src/openflow/hyperflow/HyperFlowSynchronizer.cc:103-115 | reports too old are erased and the others copied |
| HyperFlows.AliveMember | DynTssdn/OpenFlow/src/openflow/hyperflow/HyperFlowSynchronizer.cc:103-115 | what is copied is alive, and everything alive is copied |
| HyperFlows.AliveNames | DynTssdn/OpenFlow/src/openflow/hyperflow/HyperFlowSynchronizer.cc:103-117 | a reply names exactly the controllers with a report that is not too old |
| HyperFlows.AsAliveExpired | DynTssdn/OpenFlow/src/openflow/hyperflow/HyperFlowSynchronizer.cc:103-115 | erasing old reports loses none that a later request would be answered with |
| HyperFlows.TidingsServed | DynTssdn/OpenFlow/src/openflow/hyperflow/HyperFlowSynchronizer.cc:52-144 | over the whole network: a reply made now is true of all reports served, and one made before stays true of those served before |
| HyperFlows.HyperFlowNetwork.FinishService | DynTssdn/OpenFlow/src/openflow/hyperflow/HyperFlowSynchronizer.cc:53-133 | the reply sent carries what is missing from the log and the reports alive now, reports being noted as they are served |
| HyperFlows.HyperFlowNetwork.ArriveAtAgent | DynTssdn/OpenFlow/src/openflow/hyperflow/HyperFlowAgent.cc:152-191 | an agent that takes a reply in knows every controller it names |
| HyperFlowLogs.ConsistentAnswered | DynTssdn/OpenFlow/src/openflow/hyperflow/HyperFlowSynchronizer.cc:97-133 | a reply carries what fits exactly on top of the agent's part of the log |
| HyperFlowLogs.ConsistentSynced | DynTssdn/OpenFlow/src/openflow/hyperflow/HyperFlowAgent.cc:152-191 | taking it in makes the agent's part that of the log when the reply was made, and nothing is outstanding any more |
| HyperFlowLogs.ConsistentLogged | DynTssdn/OpenFlow/src/openflow/hyperflow/HyperFlowSynchronizer.cc:92-95 | a log entry made meanwhile leaves request, reply and replica fitting |
| HyperFlowLogs.OldestIsPrefixOfLog | DynTssdn/OpenFlow/src/openflow/hyperflow/HyperFlowAgent.cc:174-189 | the oldest part of the channel is a prefix of the log read in order |
| HyperFlowLogs.EntriesServed | DynTssdn/OpenFlow/src/openflow/hyperflow/HyperFlowSynchronizer.cc:92-133 | serving a message moves a change into the log and neither loses nor makes an entry |
| AVBBuffers.AVBBuffer.Run | DynTssdn/CoRE4INET/src/core4inet/buffer/avb/AVBBuffer.cc:139-375 | over any run the port sends for the class, which is the sum of the durations reported for frames on the wire, no more than the reserved bandwidth, the debt of one longest frame and one unit for each gain; the state is the one the events lead to, and frames leave in the order in which they were let in |
| AVBBuffers.AVBBuffer.HandleMessage | DynTssdn/CoRE4INET/src/core4inet/buffer/avb/AVBBuffer.cc:139-236 | the exact credit, queue and state after an arrival or a wake-up: credit is gained once, at most one frame is released, only with credit and nothing on the wire, and a debt is waited for |
| AVBBuffers.AVBBuffer.SendSlope | DynTssdn/CoRE4INET/src/core4inet/buffer/avb/AVBBuffer.cc:290-335 | sending costs exactly the rest of the port's rate, the window of sending follows what came before without overlap, a debt never exceeds what the longest frame costs, and the next frame goes out if credit is left |
| AVBBuffers.AVBBuffer.Refresh | DynTssdn/CoRE4INET/src/core4inet/buffer/avb/AVBBuffer.cc:337-358 | looking at the credit gains exactly what is due, and at most once, for the time since the last look |
| AVBBuffers.AVBBuffer.IdleSlope | DynTssdn/CoRE4INET/src/core4inet/buffer/avb/AVBBuffer.cc:260-275 | credit is gained for the time passed, dropped if it becomes positive with nothing to send, and left alone within a window of sending |
| AVBBuffers.AVBBuffer.InterferenceSlope | DynTssdn/CoRE4INET/src/core4inet/buffer/avb/AVBBuffer.cc:277-288 | exactly what is due is gained while a frame is on the wire, nothing within a window of sending |
| AVBBuffers.AVBBuffer.Decide | DynTssdn/CoRE4INET/src/core4inet/buffer/avb/AVBBuffer.cc:157-183 | with nothing on the wire: release, reset or wait, by the sign of the credit |
| AVBCredits.BandwidthBound | DynTssdn/CoRE4INET/src/core4inet/buffer/avb/AVBBuffer.cc:260-335 | the bandwidth bound, from the account of gains and costs and the order of the stretches of time |
| AVBCredits.OrderedApart | DynTssdn/CoRE4INET/src/core4inet/buffer/avb/AVBBuffer.cc:327-334 | no two stretches of gaining and sending overlap |
| AVBCredits.WaitSuffices | DynTssdn/CoRE4INET/src/core4inet/buffer/avb/AVBBuffer.cc:175-181 | after the ticks waited for, the debt is paid back |
| AVBShapers.Service | DynTssdn/CoRE4INET/src/core4inet/buffer/avb/AVBBuffer.cc:139-375 | the other half of fairness: while frames wait, and the credit is looked at just before a frame is paid for, the class is sent at least what is reserved for it, less the credit it has saved up and one unit for each frame |
| AVBShapers.ServiceStep | DynTssdn/CoRE4INET/src/core4inet/buffer/avb/AVBBuffer.cc:139-358 | what one event contributes to that |
| AVBShapers.SaneNext | DynTssdn/CoRE4INET/src/core4inet/buffer/avb/AVBBuffer.cc:139-358 | with a frame on the wire the credit is never negative, whatever happens next |
| AVBShapers.IdleKeepsNothing | DynTssdn/CoRE4INET/src/core4inet/buffer/avb/AVBBuffer.cc:260-275 | a class with nothing to send and nothing on the wire gains no credit, whatever happens |
| AVBShapers.IdleRun | DynTssdn/CoRE4INET/src/core4inet/buffer/avb/AVBBuffer.cc:139-375 | over any run in which no frame comes in |
| AVBShapers.NoGainAtRest | DynTssdn/CoRE4INET/src/core4inet/buffer/avb/AVBBuffer.cc:337-358 | a credit does not grow with nothing on the wire |
| AVBShapers.ReleasedAtOnce | DynTssdn/CoRE4INET/src/core4inet/buffer/avb/AVBBuffer.cc:157-171 | with credit and nothing on the wire the oldest frame is released at once |
| AVBShapers.DroppedOnWaking | DynTssdn/CoRE4INET/src/core4inet/buffer/avb/AVBBuffer.cc:167-170 | a credit left over is dropped by a wake-up if and only if the window of sending is over |
| AVBShapers.DroppedAfterPaying | DynTssdn/CoRE4INET/src/core4inet/buffer/avb/AVBBuffer.cc:322-325 | when the last frame has been paid for, no credit is left if and only if the frame used it up or the credit was looked at since the window of sending before |
| AVBShapers.CreditLeftOver | DynTssdn/CoRE4INET/src/core4inet/buffer/avb/AVBBuffer.cc:290-335 | it need not have been: a run of two frames that leaves an idle class with credit |
| RCBuffers.Run | DynTssdn/CoRE4INET/src/core4inet/buffer/AS6802/RCBuffer.cc:58-115 | over any run at most one timer is pending, just the frames let in are sent, in their order, or wait, and after every send the gap is kept: the bag after one the timer made, the bag less the jitter after one an arrival made |
| RCBuffers.RCBuffer.HandleArrival | DynTssdn/CoRE4INET/src/core4inet/buffer/AS6802/RCBuffer.cc:64-86 | with the gap over the oldest frame is sent at once and every gate owes a report, otherwise the frame waits |
| RCBuffers.RCBuffer.HandleTimer | DynTssdn/CoRE4INET/src/core4inet/buffer/AS6802/RCBuffer.cc:87-112 | at the end of the gap the next frame is sent, or the gap is noted as over |
| RCBuffers.RCBuffer.ResetBag | DynTssdn/CoRE4INET/src/core4inet/buffer/AS6802/RCBuffer.cc:140-176 | one report fewer is owed, and the last gate to report starts the one timer, due at the computed deadline |
| RCBuffers.DeadlineLate | DynTssdn/CoRE4INET/src/core4inet/buffer/AS6802/RCBuffer.cc:151-175 | the timer is never due before the gap after the last send is over |
| RCBuffers.DeadlineEarly | DynTssdn/CoRE4INET/src/core4inet/buffer/AS6802/RCBuffer.cc:151-172 | nor too late: within the jitter it is just the bag after the time remembered, if that is not over, and never more than a bag from now |
| RCBuffers.SpacedMeans | DynTssdn/CoRE4INET/src/core4inet/buffer/AS6802/RCBuffer.cc:58-115 | the gaps kept: a bag after a send the timer made, a bag less the jitter after any |
| RCBuffers.FullBag | DynTssdn/CoRE4INET/src/core4inet/buffer/AS6802/RCBuffer.cc:151-175 | the computed deadline keeps the whole bag after the last send if and only if that send is the one remembered, or the reports took at least as long as the jitter or the bag |
| RCBuffers.ShortGap | DynTssdn/CoRE4INET/src/core4inet/buffer/AS6802/RCBuffer.cc:64-86 | the whole bag is not kept in general: a run of the buffer in which a frame sent on arrival is followed too early by the next |
| ReassemblyBuffers.ReassemblyBuffer.AddFragment | DynTssdn/inet/src/inet/common/ReassemblyBuffer.cc:39-45 | pieces may arrive in any order and repeatedly: the answer is yes exactly when every piece has arrived, and then the region ends at the length of the datagram |
| ReassemblyBuffers.ReassemblyBuffer.Merge | DynTssdn/inet/src/inet/common/ReassemblyBuffer.cc:47-77 | the region always holds the longest run of arrived pieces from the start, and the others are put aside; for any regions, just the bytes of the new one are added to what is held, or none if it overlaps the main one |
| ReassemblyBuffers.ReassemblyBuffer.MergeFragments | DynTssdn/inet/src/inet/common/ReassemblyBuffer.cc:79-116 | the passes come to an end, for any regions, with nothing left that touches the main one and the same bytes held |
| ReassemblyBuffers.ReassemblyBuffer.Pass | DynTssdn/inet/src/inet/common/ReassemblyBuffer.cc:84-115 | a pass that deletes something leaves fewer fragments, one that does not has met none that touches |
| ReassemblyBuffers.CompleteExactly | DynTssdn/inet/src/inet/common/ReassemblyBuffer.cc:43-44 | the mark of the last piece is on the region exactly if all pieces are |
| StaticSpanningTrees.StaticSpanningTree.Initialize | DynTssdn/OpenFlow/src/openflow/utility/StaticSpanningTree.cc:19-84 | the passes come to an end with every node processed, and the links left on form a spanning tree rooted at the start node if it exists, parallel links and self-loops included |
| SpanningTrees.ReachesRoot | DynTssdn/OpenFlow/src/openflow/utility/StaticSpanningTree.cc:35-84 | over the links left on every node reaches the root |
| SpanningTrees.KeptCount | DynTssdn/OpenFlow/src/openflow/utility/StaticSpanningTree.cc:35-84 | there is one link fewer than there are nodes |
| SpanningTrees.NoCycle | DynTssdn/OpenFlow/src/openflow/utility/StaticSpanningTree.cc:35-84 | there is no way round over the links left on |
| StaticSpanningTrees.StaticSpanningTree.Pass | DynTssdn/OpenFlow/src/openflow/utility/StaticSpanningTree.cc:37-82 | a pass processes a node or has counted all of them |
| StaticSpanningTrees.StaticSpanningTree.Process | DynTssdn/OpenFlow/src/openflow/utility/StaticSpanningTree.cc:44-81 | all links of a node are looked at once |
| StaticSpanningTrees.StaticSpanningTree.Follow | DynTssdn/OpenFlow/src/openflow/utility/StaticSpanningTree.cc:54-77 | the node at the other end, found by its module number, is taken into the tree, spared as the parent, or cut off |
| StaticSpanningTrees.ReachedNode | DynTssdn/OpenFlow/src/openflow/utility/StaticSpanningTree.cc:60-63 | a node not in the tree yet is hung under the present one |
| StaticSpanningTrees.RingClosed | DynTssdn/OpenFlow/src/openflow/utility/StaticSpanningTree.cc:65-75 | a link to the tree other than to the parent is switched off at this end |
| StaticSpanningTrees.AllReached | DynTssdn/OpenFlow/src/openflow/utility/StaticSpanningTree.cc:36-44 | in a connected network a pass without work means that every node is in the tree |
| StaticSpanningTrees.GrownUp | DynTssdn/OpenFlow/src/openflow/utility/StaticSpanningTree.cc:60-75 | a link has both its ends on exactly if a node hangs by it |
| PatternMatchers.PatternMatcher.Matches | DynTssdn/inet/src/inet/common/PatternMatcher.cc:358-382 | the answer, after the look at the last two characters, is the declarative meaning of the elements |
| PatternMatchers.PatternMatcher.DoMatch | DynTssdn/inet/src/inet/common/PatternMatcher.cc:258-356 | backtracking, with its shortcuts for a final "**" and a literal after it, decides that meaning |
| PatternMatchers.PatternMatcher.MatchAnySeq | DynTssdn/inet/src/inet/common/PatternMatcher.cc:317-334 | "**" takes any number of characters |
| PatternMatchers.PatternMatcher.MatchCommonSeq | DynTssdn/inet/src/inet/common/PatternMatcher.cc:336-344 | "*" takes any number of characters before a dot |
| PatternMatchers.PatternMatcher.MatchOne | DynTssdn/inet/src/inet/common/PatternMatcher.cc:265-315 | the other elements take what they take or fail, a number range the whole run of digits |
| PatternMatchers.PatternMatcher.IsInSet | DynTssdn/inet/src/inet/common/PatternMatcher.cc:245-256 | membership in one of the ranges of a set |
| PatternGlobs.LiteralTail | DynTssdn/inet/src/inet/common/PatternMatcher.cc:323-324 | after "**" a final literal need only be at the end of the input |
| PatternGlobs.AnyTail | DynTssdn/inet/src/inet/common/PatternMatcher.cc:321-322 | after a final "**" anything is left to match |
| PatternGlobs.EndsWithLast | DynTssdn/inet/src/inet/common/PatternMatcher.cc:368-378 | whatever matches ends with the last literal, which makes the early look sound |
| PatternMatchers.PatternMatcher.SetPattern | DynTssdn/inet/src/inet/common/PatternMatcher.cc:49-110 | compilation ends for every pattern, with the end mark last and only there, or with the error of an unclosed brace, or past the end: the last exactly if no brace is unclosed and the backslashes at the end are odd in number |
| PatternMatchers.ParseNumRange | DynTssdn/inet/src/inet/common/PatternMatcher.cc:164-191 | the loops over digits and dots read what the grammar of ranges says; see RangeReads for what that is |
| PatternMatchers.ParseLiteralString | DynTssdn/inet/src/inet/common/PatternMatcher.cc:148-162 | the loop reads what the grammar of literals says; see LiteralReads and EscapeWorks for what that is |
| PatternMatchers.ParseSet | DynTssdn/inet/src/inet/common/PatternMatcher.cc:112-146 | the loop reads what the grammar of sets says; see SetReads and SetMembers for what that is |
| PatternGlobs.PlainIsEquality | DynTssdn/inet/src/inet/common/PatternMatcher.cc:410-415 | a pattern that contains no wildcards matches itself and nothing else |
| PatternGlobs.PlainIsContainment | DynTssdn/inet/src/inet/common/PatternMatcher.cc:98-106 | and in substring mode exactly the lines it occurs in |
| PatternGlobs.OrdinaryText | DynTssdn/inet/src/inet/common/PatternMatcher.cc:410-415 | text with no wildcard, brace, backslash or two dots together is not taken to contain wildcards |
| PatternGlobs.EscapedRange | DynTssdn/inet/src/inet/common/PatternMatcher.cc:148-162 | at any position, such a range is read as a range all the same |
| PatternGlobs.EscapeWorks | DynTssdn/inet/src/inet/common/PatternMatcher.cc:148-162 | a backslash takes away the meaning of the character after it if and only if that is not a bracket that begins a range |
| PatternGlobs.OverrunExactly | DynTssdn/inet/src/inet/common/PatternMatcher.cc:49-162 | reading runs past the end if and only if no brace is unclosed and the backslashes at the end are odd in number |
| PatternGlobs.ElementsRunOver | DynTssdn/inet/src/inet/common/PatternMatcher.cc:56-96 | and so from every position where a character is read that is not escaped |
| PatternGlobs.ClosedOverrun | DynTssdn/inet/src/inet/common/PatternMatcher.cc:49-162 | told by the pattern alone: with every brace followed by one that can close it, compilation succeeds if the backslashes at the end are even in number and runs over if they are odd |
| PatternGlobs.SetCloses | DynTssdn/inet/src/inet/common/PatternMatcher.cc:112-146 | a set is read to its end if and only if a closing brace comes later than its first character |
| PatternGlobs.NoneUnmatched | DynTssdn/inet/src/inet/common/PatternMatcher.cc:56-146 | with every brace followed by one that can close it, none is unmatched |
| PatternGlobs.LoneBackslash | DynTssdn/inet/src/inet/common/PatternMatcher.cc:151-155 | a single backslash does run over |
| PatternTexts.WrittenPattern | DynTssdn/inet/src/inet/common/PatternMatcher.cc:49-191 | every pattern written by the rules of the documentation, with no bracket in a text before what looks like a range, compiles, and the compiled elements match a line exactly if the written tokens mean it |
| PatternTexts.ElementsRead | DynTssdn/inet/src/inet/common/PatternMatcher.cc:56-96 | what is written is what is read: texts, wildcards, sets and both kinds of number range, in any order |
| PatternTexts.ElemsMean | DynTssdn/inet/src/inet/common/PatternMatcher.cc:258-356 | elements read from tokens match what the tokens match, the brackets of "[n..m]" included |
| PatternTexts.LiteralReads | DynTssdn/inet/src/inet/common/PatternMatcher.cc:148-162 | a text, its characters plain or escaped, is read as its characters, up to a wildcard or a range |
| PatternTexts.SetReads | DynTssdn/inet/src/inet/common/PatternMatcher.cc:112-146 | a list of characters and ranges is read back as just these, the closing brace being one of them only in the first place |
| PatternTexts.SetMembers | DynTssdn/inet/src/inet/common/PatternMatcher.cc:245-256 | a character is in the set read exactly if one of the members written holds it |
| PatternTexts.RangeReads | DynTssdn/inet/src/inet/common/PatternMatcher.cc:164-191 | a written number range is read back with its bounds, minus one for one left out |
| PatternNumbers.NumberOfDecimal | DynTssdn/inet/src/inet/common/PatternMatcher.cc:164-191 | numbers are decimal: the numeral written with the remainders by ten of n is read as n, for every n |
| PatternNumbers.EveryNumeral | DynTssdn/inet/src/inet/common/PatternMatcher.cc:164-191 | and every run of digits is the decimal numeral of its number, with noughts in front |
| PatternNumbers.NoughtInFront | DynTssdn/inet/src/inet/common/PatternMatcher.cc:164-191 | noughts in front do not change a number |
| PatternNumbers.DigitsOnly | DynTssdn/inet/src/inet/common/PatternMatcher.cc:174-184 | the ten digits, and no other characters, make up numbers |
| PatternTexts.SetNotRange | DynTssdn/inet/src/inet/common/PatternMatcher.cc:71-78 | a set that begins with neither digit nor dot, or holds no two dots, is not taken for a number range |
| PatternTexts.EscapedText | DynTssdn/inet/src/inet/common/PatternMatcher.cc:148-162 | a text with every character escaped compiles and matches itself and nothing else |
| PatternTexts.SetBetween | DynTssdn/inet/src/inet/common/PatternMatcher.cc:112-146 | "a{x-y}b" matches a and b with one character from x to y between them, and nothing else |
| PatternTexts.IndexBetween | DynTssdn/inet/src/inet/common/PatternMatcher.cc:164-191 | "a[n..m]b" matches a and b with a number from n to m in brackets between them, and nothing else |
| PatternNumbers.NumeralBetween | DynTssdn/inet/src/inet/common/PatternMatcher.cc:293-311 | "a{n..m}b" matches a and b with a run of digits between them whose number is within the bounds, if b does not go on with a digit, and else nothing |
| PatternNumbers.DecimalBetween | DynTssdn/inet/src/inet/common/PatternMatcher.cc:293-311 | with bounds and line in decimal: "a{n..m}b" matches a, k and b in a row if and only if n <= k <= m, either bound left out or not |
| PatternNumbers.DecimalInBrackets | DynTssdn/inet/src/inet/common/PatternMatcher.cc:293-311 | and likewise "a[n..m]b" a number in brackets |
| PatternSearches.SearchedPattern | DynTssdn/inet/src/inet/common/PatternMatcher.cc:98-106 | in substring mode a written pattern matches exactly the lines in which, from some place on, its tokens match and anything may follow |
| PatternSearches.SearchedPart | DynTssdn/inet/src/inet/common/PatternMatcher.cc:98-106 | without number ranges in braces, these are the lines with a part that the tokens accept |
| PatternSearches.NumbersAreWhole | DynTssdn/inet/src/inet/common/PatternMatcher.cc:98-106 | with such ranges they are not: a number is a whole run of digits of the line |
| PatternSearches.PaddedMeans | DynTssdn/inet/src/inet/common/PatternMatcher.cc:98-106 | the wildcards put around the elements, unless already there, mean just that |
| PatternMatchers.MatchWritten | DynTssdn/inet/src/inet/common/PatternMatcher.cc:40-382 | compiled and matched, a written pattern answers whether the line is one its tokens mean |
| Machos.Machine.Transition | DynTssdn/inet/src/inet/common/Macho.cc:354-387 | a transition leaves states innermost first up to the innermost state around both ends, enters outermost first down to the new state; the states left remember, each by its strategy, the new one forgets, and init asks only for what is remembered or for a state properly inside |
| Machos.Machine.RattleOn | DynTssdn/inet/src/inet/common/Macho.cc:339-403 | all that is asked for, by what is pending and by the handlers in turn, is carried out, one request after the other, and nothing else is done; the states entered and not left are exactly the current one and those around it, and so are the boxes |
| Machos.Machine.Settle | DynTssdn/inet/src/inet/common/Macho.cc:345-394 | a request is carried out, also to the current state or one around it, with all further transitions init actions ask for; they come to an end, inside the state first asked for, and a transition by history ends in the remembered state or inside it |
| Machos.Machine.Exit | DynTssdn/inet/src/inet/common/Macho.cc:156-173 | exit actions run from the state outwards as far as the next state is not inside |
| Machos.Machine.Entry | DynTssdn/inet/src/inet/common/Macho.cc:139-154 | entry actions run inwards from the first state the previous one is in |
| MachoStates.LeftMeetsEntered | DynTssdn/inet/src/inet/common/Macho.cc:139-173 | leaving stops where entering begins, at the innermost state that holds the old state and, properly, the new one |
| MachoStates.TurnUnique | DynTssdn/inet/src/inet/common/Macho.cc:139-173 | there is only one such state |
| MachoStates.ChainMember | DynTssdn/inet/src/inet/common/Macho.h:787-790 | the states entered are exactly those the current one is inside of, the root excepted |
| MachoStates.ReplayBottomUp | DynTssdn/inet/src/inet/common/Macho.cc:156-173 | the exits, replayed, leave exactly the states around the turning point |
| MachoStates.ReplayTopDown | DynTssdn/inet/src/inet/common/Macho.cc:139-154 | the entries, replayed, add exactly the states down to the new one |
| Machos.Machine.SetHistorySuper | DynTssdn/inet/src/inet/common/Macho.h:732-737 | every state around the one left remembers, by its strategy, the substate or the innermost state |
| Machos.Machine.SaveHistory | DynTssdn/inet/src/inet/common/Macho.h:273-295 | a strategy passes the news outwards as long as anyone there keeps a history |
| Machos.SavedInside | DynTssdn/inet/src/inet/common/Macho.h:273-295 | what is remembered lies properly inside, so a transition by history is a legal init |
| Machos.Machine.Init | DynTssdn/inet/src/inet/common/Macho.cc:175-187 | init by history asks for the remembered state, an own init action for any state properly inside, by either initializer, and the memory is cleared in either case |
| Machos.Machine.Dispatch | DynTssdn/inet/src/inet/common/Macho.h:1908-1917 | the request of the handler, its initializer included, and those of the handlers after it are carried out one after the other; the machine is then at rest and consistent, in the state asked for last or inside it |
| MachoMoves.LegTurns | DynTssdn/inet/src/inet/common/Macho.cc:345-394 | carrying out a request, whatever the old state is, leaves it up to the turning point and enters the new one from there: a transition to the current state leaves and enters it |
| MachoMoves.LegEnds | DynTssdn/inet/src/inet/common/Macho.cc:345-394 | it ends in the state asked for or inside it, and by history in the remembered one or inside it |
| MachoMoves.ServesTurns | DynTssdn/inet/src/inet/common/Macho.cc:339-403 | of several requests the first is carried out in any case |
| MachoMoves.ServesEnds | DynTssdn/inet/src/inet/common/Macho.cc:339-403 | and the last decides where the machine comes to rest |
| MachoMoves.KeptMeans | DynTssdn/inet/src/inet/common/Macho.h:273-295 | what is remembered with a deep history is the state left, with a shallow one the substate around it, and without one what it was |
| Machos.Machine.Start | DynTssdn/inet/src/inet/common/Macho.cc:248-256 | starting carries out a request for the first state, and ends in it or inside it |
| Machos.Machine.Shutdown | DynTssdn/inet/src/inet/common/Macho.cc:268-278 | shutting down leaves everything that was entered, and what is left remembers |
| ByteArrayBuffers.ByteArrayBuffer.GetBytesToBuffer | DynTssdn/inet/src/inet/common/ByteArrayBuffer.cc:54-71 | the bytes copied over all slices, empty ones included, are those of the flat sequence from the offset on, as many as there are |
| ByteArrayBuffers.ByteArrayBuffer.PopBytesToBuffer | DynTssdn/inet/src/inet/common/ByteArrayBuffer.cc:73-76 | the oldest bytes are delivered and taken out |
| ByteArrayBuffers.ByteArrayBuffer.Drop | DynTssdn/inet/src/inet/common/ByteArrayBuffer.cc:78-100 | slices are dropped whole or cut, and the length stays the sum of the slices; no byte is lost or repeated |
| ByteArrayBuffers.ByteArrayBuffer.Push | DynTssdn/inet/src/inet/common/ByteArrayBuffer.cc:40-52 | bytes are added at the end |
| ByteArrayBuffers.ByteArrayBuffer.Clear | DynTssdn/inet/src/inet/common/ByteArrayBuffer.cc:102-109 | everything still there is given up |
| ByteArrayBuffers.CopyDataToBuffer | DynTssdn/inet/src/inet/common/ByteArray.cc:72-81 | a slice gives the bytes from the offset on, as far as it reaches, and touches no other place of the buffer |
| ByteArrayBuffers.TruncateData | DynTssdn/inet/src/inet/common/ByteArray.cc:90-105 | cutting both ends leaves the middle |
| ByteArrayBuffers.WindowConcat | DynTssdn/inet/src/inet/common/ByteArrayBuffer.cc:59-69 | reading over a boundary between slices goes on in the next one at the rest of the offset |

## Left out

- IntervalTree: getPredecessor, getMaximum, printing and the destructor; the query stack is a sequence, so its doubling and the wrap-around of its size are not modelled; the successor of the last node, which is the root sentinel.
- LLDPMibGraph: the textual dump; reading an absent key, which inserts an empty list, is modelled only as reading a default.
- LLDPForwarding and LLDPBalancedMinHop: packet handling; a controller that runs both at once.
- LLDPBalancedMinHops.BalancedPath: links that do not lead from the source to everywhere, on which the search need not end.
- LLDPBalancedMinHops.LLDPBalancedMinHop.ComputeBalancedMinHopPath: such links, for the same reason, when both ends are known.
- LLDPControllers.RunBalanced: runs that ask for a route over such links, for the same reason.
- LLDPBalancedMinHops.NeedNotEnd: what the source's overflowing sum makes of a vertex that cannot be reached.
- Topology: extraction from the network and the editing of nodes and links (addNode, getNodeFor, addLink, deleteLink, deleteNode); the searches take any graph of nodes and links.
- Int128: conversions to and from floating point, assignment from signed numbers, increments and the bitwise compound operators.
- Int128s.Int128.Set: a text whose value wraps to the least number and has a minus sign is excluded, because the source negates it.
- HyperFlow: connection set-up and sockets, timers as such (any agent may act at any time), failure handling, which the source leaves empty, and the lists of switches in reports.
- AVBBuffer: a reservation of zero, signals and the recording of credit.
- RCBuffer: the required bandwidth and changes of bag or jitter while running.
- PatternMatcher: prefix matching and case-insensitive mode; the numbers of a range that do not fit a long.
- Macho: snapshots, aliases and initializers with parameters; entry, exit and event handlers are represented by what they may ask of the machine; events posted by init actions.
- StaticSpanningTree: module lookup and the switches' own handling of disabled ports.
- ReassemblyBuffer: whether a datagram in fragments that overlap in part is complete; the buffer is not meant for them.
- ByteArrayBuffer: slices are values, so aliasing of their storage is not modelled; offsets and lengths whose sum reaches 2^32 are excluded.
- CoRE4INET's time-triggered buffers and oscillators, whose guarantees rest on timers that are not part of this model.
- OpenFlowGraphAnalyzer: repeats the shortest-path search proved for LLDPForwarding.
