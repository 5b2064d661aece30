# Rail network flow engine — a Dafny model

This project models the analysis core of a railway network analyser. Stations are vertices of a
directed graph. Every network segment becomes a pair of antiparallel arcs, each carrying half the
segment's capacity and a cost set by the service type (STANDARD 2, ALFA 4). On that graph the
analyser computes:

- a maximum flow by Edmonds–Karp: breadth-first augmenting paths, the bottleneck residual, and
  augmentation along the predecessor chain;
- a cost figure: Dijkstra-style cheapest augmenting paths over an indexed binary heap of vertices;
- the largest connected group of stations inside one district or municipality: a depth-first
  search restricted to that area.

The supervisor layer builds the graphs:

- it numbers stations densely in the order the network rows first name them;
- it drops segments hit by a station, line or segment failure;
- it adds a Super-Source and a Super-Sink joined by capacity-INF arcs to chosen stations;
- it parses quoted CSV fields;
- it ranks its result lists by flow.

The graph is held as an arena, in class `Graphs.Graph`:

- per-vertex sequences: `vid`, `station`, `adj`, `incoming`, `visited`, `path`, `pathCost`;
- per-arc sequences: `orig`, `dest`, `capacity`, `residual`, `cost`, `reverse`;
- `-1` stands for a null pointer;
- two ghost sequences carry the proofs and have no counterpart in the program: `slot` gives each
  arc's position in its origin's adjacency list, and `rank` gives each reached vertex's depth in
  the breadth-first tree, or its place in the order the cheapest-first search settles vertices.

The methods that change state update those sequences in place, under `modifies` frames that name
the fields they touch. Other classes:

- `PriorityQueues.PriorityQueue` is the heap class. Its vector of vertices is a `seq<int>` with a
  sentinel in slot 0, and each vertex's `queueIndex` lives in a map.
- `Supervisors.Supervisor` owns the main graph, the subgraph, the super graph and their name-to-id
  maps.

Pure logic lives in modules of functions and lemmas:

- station identity and hashing: `Stations`;
- failure filters: `Failures`;
- field parsing: `Fields`;
- residual arithmetic: `Residuals`;
- search, label and component invariants: `Searches`, `Labels`, `Components`;
- the sort: `Rankings`.

## Model

| member | source | states |
|---|---|---|
| Graphs.Graph.constructor | code/Graph.h:26-27 | a new graph has no vertices and no arcs, and its arena is well formed |
| Graphs.Graph.AddVertex | code/Graph.cpp:7-11 | appends exactly one vertex with the given id and station, with no arcs, unvisited and without a predecessor; every arc is unchanged |
| Graphs.Graph.AddArc | code/VertexEdge.cpp:6-11 | `Vertex::addEdge` appends one arc u→d to u's adjacency list and to d's `incoming` list, with the given capacity, the service's cost and no reverse; the arena invariant (each vertex's adjacency list holds exactly the arcs leaving it, each once) is kept |
| Graphs.Graph.AddEdge | code/Graph.cpp:13-22 | adds arcs e1 = source→target and e2 = target→source, each with capacity `capacity/2` truncated toward zero and the service's cost, each the other's reverse; e1 is appended to target's `incoming` list and e2 to source's; vertices are unchanged and the pairing invariant is kept |
| Graphs.Graph.SetVisited | code/VertexEdge.cpp:41-43 | `Vertex::setVisited`: only that vertex's mark changes, to the value given |
| Graphs.Graph.SetPath | code/VertexEdge.cpp:49-51 | `Vertex::setPath`: only that vertex's predecessor arc changes, to the arc given |
| Graphs.Graph.SetPathCost | code/VertexEdge.h:31 | `Vertex::setPathCost`: only that vertex's label changes, to the value given |
| Graphs.Graph.SetResidual | code/VertexEdge.cpp:66-68 | `Edge::setResidualCapacity`: only that arc's residual changes, to the value given |
| Graphs.Graph.SetReverse | code/VertexEdge.cpp:94-96 | `Edge::setReverse`: only that arc's reverse changes, to the arc given |
| VertexEdge.HalfCapacity | code/Graph.cpp:18-19 | C++ `capacity/2`: for c ≥ 0, 2h ≤ c ≤ 2h+1; for c < 0, rounded toward zero |
| VertexEdge.Tariff | code/VertexEdge.cpp:59-64 | the cost is 2 iff the service is "STANDARD", 4 iff it is "ALFA", and unset for any other service |
| VertexEdge.Less | code/VertexEdge.cpp:13-15 | `Vertex::operator<`: strict less-than on two vertices' labels, the order the heap keeps |
| Arenas.AntiparallelAddsPair | code/Graph.cpp:18-21 | adding a pair of opposite arcs with equal capacity, each naming the other as reverse, keeps every arc's reverse running the opposite way with equal capacity |
| Arenas.ArenaAddsArc | code/VertexEdge.cpp:6-11 | appending an arc to its origin's adjacency list keeps the arena invariant |
| Arenas.ListedCount | code/VertexEdge.cpp:8 | an adjacency list whose entries each sit at their own recorded position has no repeated arc, so its first k entries are k distinct arcs |
| Arenas.AdjCounts | code/Supervisor.cpp:437 | in an arena, `getAdj().size()` of a vertex is exactly the number of arcs leaving it |
| Graphs.Graph.ResetResiduals | code/Graph.cpp:145-147 | every arc's residual is set to its capacity |
| Searches.LevelAtCapacity | code/Graph.cpp:145-147 | at capacity, each arc pair's residuals sum to the pair's total capacity |
| Graphs.Graph.FindAugmentingPath | code/Graph.cpp:42-68 | the result is whether the target was reached; the predecessor arcs form a tree rooted at the source; every tree arc has positive residual and does not enter a "Super-Source" vertex; each reached vertex's depth is one more than its predecessor's; when the target is reached, no walk over arcs the search may cross (residual left, head not "Super-Source") reaches it in fewer arcs than its depth; when the target is not reached, every usable arc leaving a reached vertex ends at a reached vertex |
| Graphs.Graph.ScanArcs | code/Graph.cpp:55-64 | scanning a dequeued vertex's arcs marks and enqueues every unreached endpoint of a usable arc, and keeps the search invariant |
| Searches.SearchVisits | code/Graph.cpp:59-63 | marking w through arc e at depth level + 1 keeps the search invariant (queue in non-decreasing depth, depths at most level + 1) and lowers the number of unreached vertices by one |
| Graphs.Graph.Reach | code/Graph.cpp:59-63 | `setVisited(true)` and `setPath(e)` on w and `queue.push(w)`: exactly w becomes reached, the queue grows by one and the search invariant holds |
| Searches.WithinLevel | code/Graph.cpp:51-65 | while the queue holds the vertices of the current depth, the end of any crossable walk no longer than that depth is reached, at a depth no greater than the walk's length |
| Searches.Nearest | code/Graph.cpp:51-67 | when the search stops, no crossable walk to a reached vertex is shorter than that vertex's depth |
| Graphs.Graph.ChainDepth | code/Graph.cpp:59-63 | the predecessor chain to a reached vertex is a crossable walk whose length is the vertex's depth |
| Graphs.Graph.ShortestChain | code/Graph.cpp:42-68 | when the target is reached, the predecessor chain to it is a crossable walk and no crossable walk to it is shorter: the augmenting path is a shortest one |
| Searches.ReachingCounts | code/Graph.cpp:59-63 | marking an unmarked vertex lowers the unreached count by exactly one, which bounds both searches |
| Graphs.Graph.TreeWalk | code/Graph.cpp:87-91 | following `path` back from a reached vertex gives a walk of arcs from the source that ends at that vertex |
| Graphs.Graph.PathArcsDistinct | code/Graph.cpp:87-91 | the arcs of a predecessor chain are pairwise distinct |
| Graphs.Graph.TreePath | code/Graph.cpp:59-63 | the predecessor chain to a reached vertex is a walk with distinct arcs, each with positive residual |
| Graphs.Graph.FindMinResidualAlongPath | code/Graph.cpp:85-93 | the result is at most every residual on the chain; it equals one of them, or INF for an empty chain; it is positive when every residual on a non-empty chain is |
| Graphs.Graph.AugmentFlowAlongPath | code/Graph.cpp:109-119 | each chain arc loses f of residual and its reverse gains f, one arc at a time from the target back to the source |
| Residuals.Conserves | code/Graph.cpp:114-115 | augmentation keeps `residual[e] + residual[reverse[e]]` of every arc |
| Residuals.OffPathUnchanged | code/Graph.cpp:110-118 | an arc that is neither on the chain nor the reverse of a chain arc keeps its residual |
| Residuals.Bounds | code/Graph.cpp:114-115 | pushing at most the bottleneck along distinct arcs keeps every residual non-negative, and no off-chain arc loses residual |
| Residuals.Drains | code/Graph.cpp:109-119 | along a chain that leaves the source once, the source's outgoing residual drops by exactly f |
| Searches.AugmentRound | code/Graph.cpp:149-153 | one augmentation lowers the source's outgoing residual by f, keeps the level invariant and keeps residuals non-negative |
| Graphs.Graph.PushAlong | code/Graph.cpp:150-152 | the bottleneck f is positive; augmenting by it lowers the source's outgoing residual by f and keeps non-negativity and the level invariant |
| Graphs.Graph.AugmentTreePath | code/Graph.cpp:150-152 | the tree path to a reached target carries a positive f, and pushing it lowers the source's outgoing residual by f |
| Graphs.Graph.AugmentOnce | code/Graph.cpp:149-153 | one loop round: when a path is found, its positive bottleneck f leaves the source's outgoing residual lower by f with residuals still non-negative; when none is found, residuals are unchanged, the target is unreached and the reached set is closed |
| Graphs.Graph.MaxFlow | code/Graph.cpp:136-156 | 0 with residuals untouched when source equals target; otherwise the flow is the sum of positive bottlenecks and equals the source's outgoing capacity minus its outgoing residual; at the end the target is unreachable over arcs the search may cross (residual left, head not named "Super-Source"), and the reached set is closed under those arcs |
| Residuals.OutResidualUpdate | code/Graph.cpp:114-115 | changing one residual changes the source's outgoing residual by exactly the positive parts involved |
| PriorityQueues.PriorityQueue.constructor | code/PriorityQueue.cpp:3-5 | the heap holds only the slot-0 sentinel and is empty |
| PriorityQueues.PriorityQueue.Empty | code/PriorityQueue.cpp:16-18 | true iff the heap has size 1, iff nothing is queued |
| PriorityQueues.PriorityQueue.Set | code/PriorityQueue.cpp:111-114 | stores x in slot i and records i as x's queue index |
| PriorityQueues.PriorityQueue.HeapifyUp | code/PriorityQueue.cpp:69-76 | a heap out of order only at slot i (below its parent) is a valid heap afterwards, with the same elements and every index correct |
| PriorityQueues.PriorityQueue.HeapifyDown | code/PriorityQueue.cpp:87-101 | a heap out of order only at slot i (above its children) is a valid heap afterwards, with the same elements and every index correct |
| PriorityQueues.PriorityQueue.MoveUp | code/PriorityQueue.cpp:97-98 | one round of the sift-down loop moves the lesser child into the hole and keeps the hole invariant |
| PriorityQueues.PriorityQueue.Insert | code/PriorityQueue.cpp:44-47 | the queue gains exactly x, stays a heap, and x's index names a slot |
| PriorityQueues.PriorityQueue.ExtractMin | code/PriorityQueue.cpp:28-35 | removes and returns one element with the least key; the rest stay queued as a heap; x's index becomes 0 |
| PriorityQueues.PriorityQueue.DecreaseKey | code/PriorityQueue.cpp:56-58 | after x's key is lowered, the same elements form a heap under the new keys |
| PriorityQueues.PriorityQueue.Rekeyed | code/PriorityQueue.cpp:56-58 | changing the key of a vertex that is not queued keeps the heap valid |
| PriorityQueues.RootIsLeast | code/PriorityQueue.cpp:28-29 | in a heap, slot 1 holds a least key |
| PriorityQueues.RootIsLeastStored | code/PriorityQueue.cpp:28-29 | slot 1's key is at most the key of every queued element |
| PriorityQueues.LoweredKey | code/PriorityQueue.cpp:56-58 | lowering one element's key leaves the heap out of order only above that element |
| PriorityQueues.SiftUpStep | code/PriorityQueue.cpp:71-73 | swapping a slot with a larger parent moves the disorder one level up |
| PriorityQueues.SiftDownStep | code/PriorityQueue.cpp:93-98 | swapping a slot with its lesser, smaller child moves the disorder one level down |
| PriorityQueues.ExtractPrepared | code/PriorityQueue.cpp:29-31 | moving the last slot to the root and popping removes exactly the root, keeps indices, and leaves disorder only at the root |
| Graphs.Graph.Improve | code/Graph.cpp:194-200 | a cheaper label for w through arc e sets w's cost and predecessor; w is inserted when it was INF and re-keyed otherwise; the labelling invariant is kept |
| Graphs.Graph.Label | code/Graph.cpp:195-196 | `setPathCost(newPathCost)` and `setPath(e)` on w: w's label and predecessor become the values given, every other vertex's are unchanged |
| Graphs.Graph.Relax | code/Graph.cpp:189-202 | one arc of the scan keeps the scan invariant, lowers no label, and changes only the arc's unsettled endpoint |
| Graphs.Graph.ScanCheaper | code/Graph.cpp:188-203 | after scanning every arc of v, each usable arc from v into an unsettled vertex satisfies the relaxation bound |
| Graphs.Graph.PopNext | code/Graph.cpp:186-187 | `extractMin` then `setVisited(true)`: the vertex leaves the queue, is settled with the next settle rank, and the labelling invariant holds with it as the scanned vertex |
| Graphs.Graph.Settle | code/Graph.cpp:187 | `setVisited(true)` on the extracted vertex: it alone becomes settled, and the ghost settle order records its place |
| Graphs.Graph.SettleNext | code/Graph.cpp:185-187 | extracting and settling the least-labelled vertex keeps the labelling invariant and lowers the unsettled count |
| Graphs.Graph.StartSettling | code/Graph.cpp:174-183 | every label is INF with no predecessor and nothing settled, except the source, which is labelled 0 and queued |
| Graphs.Graph.ClearLabels | code/Graph.cpp:174-178 | every vertex ends with label INF, no predecessor arc, and unsettled |
| Graphs.Graph.SettleAll | code/Graph.cpp:185-204 | the loop runs until the queue is empty and keeps the labelling invariant |
| Labels.SettlePops | code/Graph.cpp:186-187 | settling a least-labelled queued vertex keeps the labelling invariant |
| Labels.PopOrderly | code/Graph.cpp:186-187 | with non-negative costs, vertices settle in non-decreasing label order |
| Labels.SettleImproves | code/Graph.cpp:194-200 | a relaxation keeps the labelling invariant, and the relaxed vertex is queued iff its old label was INF |
| Labels.ImproveOrderly | code/Graph.cpp:194-196 | with non-negative costs, a new label is never below the label of the vertex being scanned |
| Labels.SettleEnds | code/Graph.cpp:185-205 | with an empty queue: the predecessors form a tree; each settled vertex's label is its predecessor's label plus the arc cost; a vertex is settled iff its label is below INF; under non-negative costs every usable arc from a settled vertex is relaxed |
| Graphs.Graph.Settled | code/Graph.cpp:185-205 | the end state is a labelled predecessor tree with no usable arc leaving it; under non-negative costs every label is a cheapest price |
| Graphs.Graph.FindMinCostAugmentingPath | code/Graph.cpp:173-206 | the result is whether the target was settled; the predecessor tree carries positive residuals; labels are path costs; settled iff label < INF; with non-negative costs each label is at most the cost of every residual walk from the source |
| Graphs.LeastCost | code/Graph.cpp:191-196 | under non-negative costs and relaxed labels, the end label of any residual walk is at most the walk's cost |
| Graphs.Graph.PathCostSums | code/Graph.cpp:193-195 | a settled vertex's label is the cost summed along its predecessor chain |
| Graphs.Graph.CheapestRoute | code/Graph.cpp:193-196 | the predecessor chain to a settled target is a route from the source whose cost is the target's label |
| Graphs.Graph.CheapestRound | code/Graph.cpp:233-236 | once the target is settled, the predecessor chain is a route from the source on which every arc has residual left, its cost is the target's label, and under non-negative costs no residual walk to the target costs less |
| Graphs.Graph.TreeArcsOpen | code/Graph.cpp:189-196 | every arc of the predecessor chain to a settled vertex has residual left, since a label is only set through an arc with positive residual |
| Graphs.Graph.PushCheapest | code/Graph.cpp:234-236 | one round of `minCost` after a successful search: the price returned is the target's label, the cost of a route open in the residuals before the push and, under non-negative costs, the least cost of any residual walk to the target; the push lowers the source's outgoing residual and keeps residuals level and non-negative |
| Graphs.Graph.CostRound | code/Graph.cpp:233-237 | a round that finds a path records one more round (its residuals at the start, its route and its price) and adds the price to the total; a round that finds none leaves residuals, total and rounds unchanged and the target unreachable |
| Graphs.Graph.CheapestRounds | code/Graph.cpp:233-237 | the loop ends with the target unreachable; the total is the sum of the prices of the recorded rounds, each a cheapest route (under non-negative costs) in the residuals at that round's start, the first round starting from the residuals the loop began with |
| Graphs.Graph.MinCost | code/Graph.cpp:220-240 | 0 with residuals untouched when source equals target; otherwise the result is the sum of one price per round; each round's route had residual left on every arc at that round's start, its price is its cost and, under non-negative costs, the least cost of any residual walk to the target; the first round starts at capacity; the loop ends with the target unreachable and no usable arc leaving the reached set, short of labels reaching INF (an arc whose tail's label plus its cost reaches INF is not counted as usable) |
| Graphs.RoundsExtend | code/Graph.cpp:236 | one more round extends the recorded rounds, and the sum of the prices grows by its price |
| Graphs.TallyExtends | code/Graph.cpp:233-237 | `cost += dest->getPathCost()`: adding a round's price to the total keeps the total equal to the sum of the recorded prices, with the first round's residuals unchanged |
| Graphs.Push | code/Graph.cpp:152 | adding a positive bottleneck keeps the bottlenecks positive and grows their sum by it |
| Graphs.Graph.DfsConnected | code/Graph.cpp:252-260 | marks v, appends its id, then recurses into each unmarked in-area endpoint; the ids appended are those of the vertices newly marked, in visit order, each entered by an arc from an earlier one, and the marked set is closed under in-area arcs from them |
| Graphs.Graph.DfsArcs | code/Graph.cpp:255-259 | the arc loop of the search keeps that visit invariant |
| Graphs.Graph.Collect | code/Graph.cpp:298-304 | a search from an unmarked in-area vertex adds exactly one component, whose size is returned |
| Graphs.Graph.MaxConnected | code/Graph.cpp:292-334 | the in-area vertices are split into components closed under in-area arcs; a vertex has a component iff it is in the area; the result is the largest component's size |
| Graphs.Graph.UnmarkAll | code/Graph.cpp:295-296 | every vertex is unmarked |
| Components.LargestIsMaximum | code/Graph.cpp:302-303 | the running maximum is at least every component's size and equals one of them |
| Components.PartitionGrows | code/Graph.cpp:299-301 | a finished search from a fresh in-area vertex adds one component and keeps the partition |
| Components.ComponentsClosed | code/Graph.cpp:255-258 | an in-area arc out of a component ends inside the same component |
| Components.VisitJoins | code/Graph.cpp:257-258 | a recursive call's component is appended to the caller's, keeping the visit invariant |
| Components.IdsExtend | code/Graph.cpp:254 | the ids appended by nested searches are the ids of all vertices they marked, in order |
| Stations.NamedStation | code/Station.cpp:3-5 | a station built from a name alone has that name and empty other fields |
| Stations.FullStation | code/Station.cpp:7-13 | every constructor argument is stored and read back by the getters |
| Stations.SameStationIsEquivalence | code/Station.h:27-29 | name equality is reflexive, symmetric and transitive |
| Stations.SameStation | code/Station.h:27-29 | `StationHash::operator()(a, b)`: two stations are the same key iff their names are equal |
| Stations.NamedStationFindsByName | code/Station.h:27-29 | a name-only station is the same key as exactly the stations with that name |
| Stations.StationHash | code/Station.h:19-26 | the hash loop returns the 32-bit fold `37*v + c` over the name's UTF-8 bytes read as signed `char`s (see "## Left out" on the signedness of `char`); 0 for the empty name |
| Stations.NameHash | code/Station.h:19-26 | the hash the loop computes: the 32-bit fold of `37*v + c` over the name's bytes read as `char`s, from 0 |
| Stations.SameStationSameHash | code/Station.h:19-29 | stations that compare equal hash alike |
| Stations.AsciiNameChars | code/Station.h:22-23 | for an ASCII name, the bytes hashed are the characters themselves |
| Stations.AccentedName | code/Station.h:22-23 | "Évora" hashes six bytes, the first two negative as `char` |
| Stations.Insert | code/Station.h:31 | inserting into the name-keyed set keeps the station already stored under that name, otherwise adds the new one |
| Stations.Find | code/Station.h:31 | finds the station stored under a name iff that name is present |
| Supervisors.MakeVertex | code/Supervisor.cpp:71-82 | a known name returns its id and changes nothing; a new name takes the next id, gets a vertex holding its station, and the name-to-id map stays dense and injective |
| Supervisors.MakeEnds | code/Supervisor.cpp:186-187 | the two `makeVertex` calls of a row: both names get ids (new ones in mention order), the numbering stays dense and extends the old one, and the ids returned are those of source and target |
| Numbering.NumberedDense | code/Supervisor.cpp:74-77 | ids are 0..n-1, one per name seen, no two names sharing an id |
| Numbering.NumberedAdds | code/Supervisor.cpp:74-77 | numbering a new name extends the dense numbering by one |
| Numbering.OrderNames | code/Supervisor.cpp:186-187 | the names numbered are exactly the names the rows mention |
| Supervisors.Load | code/Supervisor.cpp:175-190 | the row loop gives a graph with one vertex per name the kept rows mention, numbered in first-mention order, and one arc pair per kept row, in row order |
| Supervisors.Admit | code/Supervisor.cpp:228-234 | one row is added iff the failure test lets it through |
| Supervisors.Keep | code/Supervisor.cpp:186-189 | a kept row numbers its endpoints and adds its arc pair |
| Supervisors.AddRow | code/Supervisor.cpp:189 | the `addEdge` call of a row: the arc table gains that row's pair between the ids of its ends, earlier rows keep theirs, and the vertices are unchanged |
| Supervisors.Build | code/Supervisor.cpp:168-193 | a fresh graph built from exactly the rows the failure lets through |
| Supervisors.LoadedAll | code/Supervisor.cpp:168-193 | with no failure, every row is kept |
| Supervisors.Supervisor.constructor | code/Supervisor.cpp:168-193 | the main graph holds every network row, with the dense name-to-id map |
| Supervisors.Supervisor.CreateSubgraph | code/Supervisor.cpp:206-320 | the subgraph and its map are rebuilt from exactly the rows the failure lets through |
| Failures.SegmentFailureMeans | code/Supervisor.cpp:370-373 | a segment fails iff some failed pair equals (source, target) in that order |
| Failures.StationFailureMeans | code/Supervisor.cpp:335-337 | a segment fails iff either endpoint is a failed station |
| Failures.LineFailureMeans | code/Supervisor.cpp:352-356 | a segment fails iff the line of either endpoint's station is a failed line |
| Failures.SegmentFailure | code/Supervisor.cpp:370-373 | `segmentFailure`: `any_of` over the failed list, as a recursion over it; its meaning is stated by `SegmentFailureMeans` |
| Failures.StationFailure | code/Supervisor.cpp:335-337 | `stationFailure`: a `find` by name of the source or the target succeeds; its meaning is stated by `StationFailureMeans` |
| Failures.LineFailure | code/Supervisor.cpp:352-356 | `lineFailure`: the line of the stored source or target station is a failed line; its meaning is stated by `LineFailureMeans` |
| Failures.KeptMeans | code/Supervisor.cpp:229-233 | a row is kept iff it is in the network and its failure test is false |
| Failures.KeptAll | code/Supervisor.cpp:168-193 | with no failure, the kept rows are all rows |
| Hubs.ChosenIff | code/Supervisor.cpp:434-440 | an id is chosen iff some vertex with that id satisfies the scan's test |
| Hubs.ChosenByArcs | code/Supervisor.cpp:434-440 | over an arena, an id is chosen iff some vertex with that id passes the scan's test with its number of outgoing arcs in place of its list's size |
| Supervisors.Scan | code/Supervisor.cpp:434-440 | the loop over the vertex table collects the chosen ids in vertex order |
| Supervisors.Wire | code/Supervisor.cpp:444-445 | adds one capacity-INF, unpriced arc pair between the hub and each chosen end, in order, leaving earlier arcs unchanged |
| Supervisors.WireEnd | code/Supervisor.cpp:444-445 | one `addEdge(hub, end, INF, "")` (or end to hub for the sink): the wiring grows by that end, earlier arcs and the vertices are unchanged |
| Supervisors.AddHub | code/Supervisor.cpp:442-445 | adds the hub vertex, named as given, with the next id, then wires it |
| Supervisors.AddHubs | code/Supervisor.cpp:427-462 | `createSuperSource` then `createSuperSink` after the rows: the two hub vertices get the next two ids and their names, the source hub is wired to the chosen sources, then the sink hub from the chosen sinks |
| Supervisors.AddSuperHubs | code/Supervisor.cpp:427-428 | on a graph holding every row, adding both hubs and recording their names gives the super graph |
| Supervisors.BuildSuperGraph | code/Supervisor.cpp:399-430 | a fresh graph holding every network row, then both hubs, with the chosen hub arcs: the super graph |
| Supervisors.BuildSuperSourceGraph | code/Supervisor.cpp:464-507 | a fresh graph holding every network row plus a Super-Source wired, in vertex order, to exactly those stations other than dest that have exactly one outgoing arc in the loaded network (both directions) |
| Supervisors.Supervisor.CreateSuperSource | code/Supervisor.cpp:431-447 | adds the Super-Source with the given id, records it in the map, and joins it, in vertex order, to the main-graph stations chosen by the scan; an id is chosen iff its station is not a target and has exactly one outgoing arc |
| Supervisors.Supervisor.CreateSuperSink | code/Supervisor.cpp:449-462 | adds the Super-Sink with the given id, records it in the map, and joins every target station to it |
| Supervisors.Supervisor.CreateSuperGraph | code/Supervisor.cpp:399-430 | the super graph is the full network plus the Super-Source and the Super-Sink, with exactly the chosen hub arcs; an id is chosen for the Super-Source iff its station is not a target and has exactly one outgoing arc in the main graph |
| Supervisors.Supervisor.CreateSuperSourceGraph | code/Supervisor.cpp:464-507 | the super graph is the full network plus a Super-Source joined to exactly those stations other than dest that have exactly one outgoing arc in the loaded network (both directions) |
| Supervisors.ScanBut | code/Supervisor.cpp:492-497 | the stations chosen for the super-source never include dest |
| Supervisors.ScanCounts | code/Supervisor.cpp:434-440 | over an arena, the scan of `createSuperSource` picks an id iff a station with that id is not a target and has exactly one outgoing arc |
| Supervisors.ScanButCounts | code/Supervisor.cpp:492-497 | with vertex v numbered v, a vertex is chosen for the super-source iff it is not dest and exactly one arc leaves it |
| Supervisors.SuperGraphOf | code/Supervisor.cpp:399-462 | network arcs, then source-hub arcs, then sink-hub arcs, each as an antiparallel pair |
| ArcTables.CarriesAppend | code/Supervisor.cpp:189 | appending a row's arc pair keeps every earlier row's pair at its position |
| ArcTables.WiredAppend | code/Supervisor.cpp:444-445 | appending one hub arc pair extends the wiring by one end |
| Fields.GetLine | code/Supervisor.cpp:116 | `getline(is, field, ',')` returns the text up to the first comma, without it, and the stream resumes after it; at the end of the text it returns the rest and sets eof |
| Fields.Field | code/Supervisor.cpp:115-119 | `checkField`: the next piece of the line, or the retained field when the stream is exhausted, with `removeQuotes` applied when it starts with `"` |
| Fields.GetLineAdvances | code/Supervisor.cpp:99-100 | every read consumes input, so the quote loop ends |
| Fields.UnquoteAsWritten | code/Supervisor.cpp:95-103 | the loop as written: undefined when it calls `back()` on an empty string |
| Fields.Unquote | code/Supervisor.cpp:95-103 | the loop with the empty case guarded |
| Fields.UnquoteAgrees | code/Supervisor.cpp:95-103 | wherever the loop as written is defined, the guarded loop gives the same result |
| Fields.LeadingCommaIsUndefined | code/Supervisor.cpp:98 | a quoted field that begins with a comma reaches `back()` on an empty string |
| Fields.RemoveQuotes | code/Supervisor.cpp:95-103 | the loop computes the guarded `Unquote` of the field after its opening quote |
| Fields.CheckField | code/Supervisor.cpp:115-119 | computes `Field`: reads a field (or keeps the given one once the stream is exhausted), then removes quotes when it starts with `"` |
| Fields.ExhaustedField | code/Supervisor.cpp:115-119 | on an exhausted stream the field passed in is kept and still tested: a quoted one loses its first and last characters, any other is returned as is |
| Fields.ExhaustedQuotedField | code/Supervisor.cpp:95-119 | the retained field `"STANDARDx` on an exhausted stream reads as `STANDARD` |
| Fields.PlainFieldRoundTrip | code/Supervisor.cpp:115-119 | a field without commas or a leading quote is read back as written |
| Fields.QuotedFieldRoundTrip | code/Supervisor.cpp:95-119 | a quoted field without inner quotes is read back without its quotes, commas included |
| Fields.CommaFieldRoundTrip | code/Supervisor.cpp:95-119 | a quoted field with a comma inside is read back whole, without its quotes |
| Fields.WholeFieldRoundTrip | code/Supervisor.cpp:95-119 | a quoted field without a comma is read back without its quotes |
| Fields.UnquoteRestores | code/Supervisor.cpp:98-101 | the loop rejoins the comma-separated pieces of a quoted field |
| Rankings.SortByFlow | code/Supervisor.cpp:391-393 | the rows end up in non-increasing order of flow, as a permutation of the input |
| Rankings.Place | code/Supervisor.cpp:526-528 | one insertion step extends the sorted prefix by one row and keeps the rows |

## Left out

- Reading `stations.csv` and `network.csv`: the station table is a map from name to station, and
  the network is a sequence of rows already split into fields. `Fields` models the field splitting
  on one line's text.
- Stations named "Rede Espanhola" are dropped when the station table is read
  (code/Supervisor.cpp:148). A network row naming such a station would make `*stations.find(name)`
  dereference the end iterator. So `Supervisors.MakeVertex` requires `name in stations`, and the
  builders require `Known`, meaning every row's endpoints are stored stations.
- Failures.LineFailure: requires both endpoints to be stored stations, for the same dereference
  (code/Supervisor.cpp:353-354).
- Graphs.Graph.AddEdge: requires both ids in range. `findVertex` indexes the vertex vector without
  a bounds check (code/Graph.cpp:3-5), so the null branch (code/Graph.cpp:16-17) is unreachable
  for in-range ids and undefined otherwise.
- Graphs.Graph.MaxFlow: requires both ids in range, for the same reason, and the null test of
  code/Graph.cpp:140-142 is not modelled. The contract shows neither that the flow is maximum nor
  that it equals a cut's capacity. It does show that the target cannot be reached from the source
  over arcs the search may cross: residual left, head not named "Super-Source" (the skip at
  code/Graph.cpp:57). When a vertex other than the source carries that name, the result need not
  be a maximum flow: with segments s–X and X–t and X named "Super-Source", the search never
  enters X and `maxFlow(s, t)` returns 0 although s→X→t has residual left. Two calls returning
  the same value is not stated either.
- Graphs.Graph.MinCost: requires both ids in range, like MaxFlow. The contract does not state that
  the total is the cost of a minimum-cost flow, which the comment at code/Graph.cpp:210-216
  promises, because the code does not compute one: line 236 adds the target's label once per
  round, not multiplied by the f pushed in that round. On one STANDARD segment of capacity 10,
  the single round pushes f = 5 and `minCost` returns 2, while that flow costs 10. What the
  contract does state is that the result is the sum of one price per round, each the least cost
  of a residual walk at that round's start under non-negative arc costs. Two calls returning the
  same value is not stated either.
- PriorityQueues.PriorityQueue.Insert: requires that the vertex is not already queued. Both
  callers insert a vertex only when its label was INF, so it is never queued.
- `Vertex::operator<` compares a `dist` member that `Vertex` does not declare
  (code/VertexEdge.h:16-47). The heap orders vertices by `pathCost`, the key Dijkstra maintains.
- An arc whose service is neither STANDARD nor ALFA leaves `cost` uninitialised. Its value is the
  graph's `unsetCost` parameter, and so is the cost of the hub arcs. A new arc's residual is the
  `unsetResidual` parameter until `maxFlow` or `minCost` resets it.
- Stations.NameChars: reads each byte as a signed `char` (values from 128 up become negative),
  as on x86 and most desktop ABIs. Whether plain `char` is signed is implementation-defined; where
  it is unsigned (ARM Linux, for one), names with non-ASCII letters hash differently.
- 32-bit overflow: the station hash wraps explicitly. The flow and cost sums are unbounded
  integers, and INF is the source's constant 2^31 − 1.
- The menu, `topBudget`'s and `transportNeeds`' loops over station pairs, `maxStationFlow`, and
  `flowDifference`: these drive the core with I/O or repeat calls to it. The sort they end with is
  modelled.
- The `incoming` lists: `AddVertex`, `AddArc` and `AddEdge` state how they grow. No search reads
  them, so no invariant relating them to the arcs' heads is kept.

## Findings

| source | as written | input that shows it | evidently intended | confidence | as-written member | corrected member |
|---|---|---|---|---|---|---|
| code/Supervisor.cpp:98 | `s.back()` is read before checking that `s` is non-empty | the quoted field `",x"`: after the opening quote, `s` is empty and `back()` is undefined | treat an empty `s` as not yet closed, and read the next piece | not executed | Fields.UnquoteAsWritten, Fields.LeadingCommaIsUndefined | Fields.Unquote, Fields.QuotedFieldRoundTrip |
