/**
 * What the cheapest-first search of code/Graph.cpp (`findMinCostAugmentingPath`) keeps true,
 * stated on the vertex and arc tables as plain values, with one lemma per step of the search.
 * A vertex is labelled once its `pathCost` drops below INF; the queue holds exactly the
 * labelled vertices not settled (`visited`) yet.
 */
module Labels {
  import opened VertexEdge
  import opened Arenas
  import opened Searches

  /**
   * The labels: src costs 0, no label exceeds INF, every settled vertex is labelled, nothing
   * but src is touched before src is settled, and every other labelled vertex w records in
   * `path[w]` an arc with residual left from a settled vertex, whose label plus the arc's cost
   * is w's label. Settling order (`rank`) puts that predecessor first.
   */
  ghost predicate Labelled(src: int, orig: seq<int>, dest: seq<int>, residual: seq<int>, cost: seq<int>,
                           visited: seq<bool>, pathCost: seq<int>, path: seq<int>, rank: seq<nat>, next: nat) {
    && |pathCost| == |visited| && |path| == |visited| && |rank| == |visited|
    && |dest| == |orig| && |residual| == |orig| && |cost| == |orig|
    && 0 <= src < |visited| && pathCost[src] == 0
    && (forall w :: 0 <= w < |visited| ==> pathCost[w] <= INF)
    && (forall w :: 0 <= w < |visited| && visited[w] ==> pathCost[w] < INF && rank[w] < next)
    && (!visited[src] ==> forall w :: 0 <= w < |visited| && w != src ==> !visited[w] && pathCost[w] == INF)
    && forall w {:trigger path[w]} :: 0 <= w < |visited| && w != src && pathCost[w] < INF ==>
         && 0 <= path[w] < |orig| && dest[path[w]] == w && 0 <= orig[path[w]] < |visited|
         && visited[orig[path[w]]] && residual[path[w]] > 0
         && pathCost[w] == pathCost[orig[path[w]]] + cost[path[w]]
         && rank[orig[path[w]]] < (if visited[w] then rank[w] else next)
  }

  /** The queue holds each labelled vertex not settled yet exactly once, and nothing else. */
  ghost predicate Queued(queue: multiset<int>, visited: seq<bool>, pathCost: seq<int>) {
    && |pathCost| == |visited|
    && forall x :: queue[x] == if 0 <= x < |visited| && !visited[x] && pathCost[x] < INF then 1 else 0
  }

  /**
   * Every arc e with residual left out of a settled vertex u other than `busy` (being scanned)
   * was relaxed: the label of its head is at most u's label plus e's cost, unless the head was
   * settled no later than u, when the relaxation skipped it.
   */
  ghost predicate Spread(orig: seq<int>, dest: seq<int>, residual: seq<int>, cost: seq<int>,
                         visited: seq<bool>, pathCost: seq<int>, rank: seq<nat>, busy: int) {
    && |dest| == |orig| && |residual| == |orig| && |cost| == |orig| && |pathCost| == |visited| && |rank| == |visited|
    && forall e :: 0 <= e < |orig| && 0 <= orig[e] < |visited| && 0 <= dest[e] < |visited|
         && visited[orig[e]] && orig[e] != busy && residual[e] > 0
         ==> pathCost[dest[e]] <= pathCost[orig[e]] + cost[e] || (visited[dest[e]] && rank[dest[e]] <= rank[orig[e]])
  }

  /**
   * Settling order follows the labels: a vertex settled no later than another has a label no
   * larger, and no settled label exceeds the label of a vertex not settled yet.
   */
  ghost predicate Ordered(visited: seq<bool>, pathCost: seq<int>, rank: seq<nat>) {
    && |pathCost| == |visited| && |rank| == |visited|
    && (forall a, b :: 0 <= a < |visited| && 0 <= b < |visited| && visited[a] && visited[b] && rank[a] <= rank[b]
          ==> pathCost[a] <= pathCost[b])
    && (forall a, w :: 0 <= a < |visited| && 0 <= w < |visited| && visited[a] && !visited[w]
          ==> pathCost[a] <= pathCost[w])
  }

  /**
   * The vertex being scanned is the last one settled; with no negative cost, the settling
   * order follows the labels.
   */
  ghost predicate Orderly(cost: seq<int>, visited: seq<bool>, pathCost: seq<int>, rank: seq<nat>, next: nat, busy: int) {
    && |rank| == |visited|
    && (0 <= busy < |visited| ==> visited[busy] && rank[busy] + 1 == next)
    && (NonNegativeSeq(cost) ==> Ordered(visited, pathCost, rank))
  }

  /** Everything the cheapest-first search keeps true between two steps. */
  ghost predicate Settling(src: int, orig: seq<int>, dest: seq<int>, residual: seq<int>, cost: seq<int>,
                           visited: seq<bool>, pathCost: seq<int>, path: seq<int>, rank: seq<nat>, next: nat,
                           queue: multiset<int>, busy: int) {
    && Labelled(src, orig, dest, residual, cost, visited, pathCost, path, rank, next)
    && Queued(queue, visited, pathCost)
    && Spread(orig, dest, residual, cost, visited, pathCost, rank, busy)
    && Orderly(cost, visited, pathCost, rank, next, busy)
  }

  /** After the reset, labelling src with 0 and queueing it starts the search. */
  lemma SettleStarts(src: int, orig: seq<int>, dest: seq<int>, residual: seq<int>, cost: seq<int>,
                     visited: seq<bool>, pathCost: seq<int>, path: seq<int>, rank: seq<nat>)
    requires |pathCost| == |visited| && |path| == |visited| && |rank| == |visited|
    requires |dest| == |orig| && |residual| == |orig| && |cost| == |orig| && 0 <= src < |visited|
    requires forall w :: 0 <= w < |visited| ==> !visited[w] && pathCost[w] == INF
    ensures Settling(src, orig, dest, residual, cost, visited, pathCost[src := 0], path, rank, 0,
                     multiset{src}, NoArc)
  {
  }

  /**
   * Settling a queued vertex x whose label is least among the queued ones: it leaves the
   * queue (`queue'`), is marked settled (`visited'`) and gets the next rank (`rank'`); it is
   * src unless src was settled before.
   */
  lemma SettlePops(src: int, orig: seq<int>, dest: seq<int>, residual: seq<int>, cost: seq<int>,
                   visited: seq<bool>, pathCost: seq<int>, path: seq<int>, rank: seq<nat>, next: nat,
                   queue: multiset<int>, x: int, visited': seq<bool>, rank': seq<nat>, queue': multiset<int>)
    requires Settling(src, orig, dest, residual, cost, visited, pathCost, path, rank, next, queue, NoArc)
    requires x in queue && forall y :: y in queue - multiset{x} ==> pathCost[x] <= pathCost[y]
    requires 0 <= x < |visited| && visited' == visited[x := true]
    requires rank' == rank[x := next] && queue' == queue - multiset{x}
    ensures !visited[x] && visited'[x] && visited'[src]
    ensures Settling(src, orig, dest, residual, cost, visited', pathCost, path, rank', next + 1, queue', x)
    ensures Unreached(visited') == Unreached(visited) - 1
  {
    assert queue[x] == 1;
    PopLabelled(src, orig, dest, residual, cost, visited, pathCost, path, rank, next, x);
    PopSpread(orig, dest, residual, cost, visited, pathCost, rank, next, x);
    PopOrderly(cost, visited, pathCost, rank, next, queue, x);
    ReachingCounts(visited, x);
  }

  /** Settling x, labelled and not settled, keeps the labels' rules with x ranked next. */
  lemma PopLabelled(src: int, orig: seq<int>, dest: seq<int>, residual: seq<int>, cost: seq<int>,
                    visited: seq<bool>, pathCost: seq<int>, path: seq<int>, rank: seq<nat>, next: nat, x: int)
    requires Labelled(src, orig, dest, residual, cost, visited, pathCost, path, rank, next)
    requires 0 <= x < |visited| && !visited[x] && pathCost[x] < INF
    ensures x == src || visited[src]
    ensures Labelled(src, orig, dest, residual, cost, visited[x := true], pathCost, path, rank[x := next], next + 1)
  {
    var visited', rank' := visited[x := true], rank[x := next];
    forall w {:trigger path[w]} | 0 <= w < |visited'| && w != src && pathCost[w] < INF
      ensures rank'[orig[path[w]]] < (if visited'[w] then rank'[w] else next + 1)
    {
      assert visited[orig[path[w]]];
    }
  }

  /** Settling x leaves every arc out of an earlier settled vertex relaxed; x is the one to scan. */
  lemma PopSpread(orig: seq<int>, dest: seq<int>, residual: seq<int>, cost: seq<int>,
                  visited: seq<bool>, pathCost: seq<int>, rank: seq<nat>, next: nat, x: int)
    requires Spread(orig, dest, residual, cost, visited, pathCost, rank, NoArc)
    requires 0 <= x < |visited| && !visited[x]
    ensures Spread(orig, dest, residual, cost, visited[x := true], pathCost, rank[x := next], x)
  {
  }

  /** Settling the least queued vertex x next keeps the settling order in step with the labels. */
  lemma PopOrderly(cost: seq<int>, visited: seq<bool>, pathCost: seq<int>, rank: seq<nat>, next: nat,
                   queue: multiset<int>, x: int)
    requires Orderly(cost, visited, pathCost, rank, next, NoArc) && Queued(queue, visited, pathCost)
    requires forall w :: 0 <= w < |visited| && visited[w] ==> rank[w] < next
    requires x in queue && forall y :: y in queue - multiset{x} ==> pathCost[x] <= pathCost[y]
    ensures Orderly(cost, visited[x := true], pathCost, rank[x := next], next + 1, x)
  {
    assert queue[x] == 1;
    var visited', rank' := visited[x := true], rank[x := next];
    if NonNegativeSeq(cost) {
      forall a, w | 0 <= a < |visited| && 0 <= w < |visited| && visited'[a] && !visited'[w]
        ensures pathCost[a] <= pathCost[w]
      {
        if a == x && pathCost[w] < INF {
          assert w in queue - multiset{x};
        }
      }
    }
  }

  /**
   * Lowering the label of a vertex w not settled yet through an arc e with residual left out
   * of a settled vertex keeps the search's rules; w joins the queue when it had no label.
   */
  lemma SettleImproves(src: int, orig: seq<int>, dest: seq<int>, residual: seq<int>, cost: seq<int>,
                       visited: seq<bool>, pathCost: seq<int>, path: seq<int>, rank: seq<nat>, next: nat,
                       queue: multiset<int>, busy: int, e: int)
    requires Settling(src, orig, dest, residual, cost, visited, pathCost, path, rank, next, queue, busy)
    requires visited[src] && 0 <= e < |orig| && orig[e] == busy && 0 <= busy < |visited| && 0 <= dest[e] < |visited|
    requires !visited[dest[e]] && residual[e] > 0
    requires pathCost[orig[e]] + cost[e] < pathCost[dest[e]]
    ensures var w, c := dest[e], pathCost[orig[e]] + cost[e];
      && (pathCost[w] == INF <==> w !in queue)
      && Settling(src, orig, dest, residual, cost, visited, pathCost[w := c], path[w := e], rank, next,
                  if pathCost[w] == INF then queue + multiset{w} else queue, busy)
  {
    var w, c := dest[e], pathCost[orig[e]] + cost[e];
    ImproveLabelled(src, orig, dest, residual, cost, visited, pathCost, path, rank, next, busy, e);
    assert c < INF;
    ImproveOrderly(cost, visited, pathCost, rank, next, busy, w, c);
  }

  /** A lower label for w through the arc e out of the settled vertex busy keeps the labels' rules. */
  lemma ImproveLabelled(src: int, orig: seq<int>, dest: seq<int>, residual: seq<int>, cost: seq<int>,
                        visited: seq<bool>, pathCost: seq<int>, path: seq<int>, rank: seq<nat>, next: nat,
                        busy: int, e: int)
    requires Labelled(src, orig, dest, residual, cost, visited, pathCost, path, rank, next)
    requires visited[src] && 0 <= e < |orig| && orig[e] == busy && 0 <= busy < |visited| && 0 <= dest[e] < |visited|
    requires visited[busy] && !visited[dest[e]] && residual[e] > 0
    requires pathCost[orig[e]] + cost[e] < pathCost[dest[e]]
    ensures Labelled(src, orig, dest, residual, cost, visited, pathCost[dest[e] := pathCost[orig[e]] + cost[e]],
                     path[dest[e] := e], rank, next)
  {
    var w, c := dest[e], pathCost[orig[e]] + cost[e];
    var pathCost', path' := pathCost[w := c], path[w := e];
    forall u {:trigger path'[u]} | 0 <= u < |visited| && u != src && pathCost'[u] < INF
      ensures 0 <= path'[u] < |orig| && dest[path'[u]] == u && 0 <= orig[path'[u]] < |visited|
      ensures visited[orig[path'[u]]] && residual[path'[u]] > 0
      ensures pathCost'[u] == pathCost'[orig[path'[u]]] + cost[path'[u]]
      ensures rank[orig[path'[u]]] < (if visited[u] then rank[u] else next)
    {
      if u != w {
        assert path'[u] == path[u] && pathCost'[u] == pathCost[u];
        assert orig[path[u]] != w;
      }
    }
  }

  /**
   * A lower label c for w, not settled, reached from the vertex busy being scanned, keeps the
   * settling order in step with the labels when no cost is negative.
   */
  lemma ImproveOrderly(cost: seq<int>, visited: seq<bool>, pathCost: seq<int>, rank: seq<nat>, next: nat,
                       busy: int, w: int, c: int)
    requires Orderly(cost, visited, pathCost, rank, next, busy)
    requires forall a :: 0 <= a < |visited| && visited[a] ==> rank[a] < next
    requires |pathCost| == |visited| && 0 <= busy < |visited| && 0 <= w < |visited| && !visited[w]
    requires NonNegativeSeq(cost) ==> pathCost[busy] <= c
    ensures Orderly(cost, visited, pathCost[w := c], rank, next, busy)
  {
    if NonNegativeSeq(cost) {
      forall a | 0 <= a < |visited| && visited[a] ensures pathCost[a] <= c {
        assert rank[a] <= rank[busy];
      }
    }
  }

  /**
   * Every arc of `arcs` with residual left was relaxed from v: its head's label is at most v's
   * label plus the arc's cost, or its head was settled no later than v.
   */
  ghost predicate Scanned(arcs: seq<int>, orig: seq<int>, dest: seq<int>, residual: seq<int>, cost: seq<int>,
                          visited: seq<bool>, pathCost: seq<int>, rank: seq<nat>, v: int) {
    && |dest| == |orig| && |residual| == |orig| && |cost| == |orig|
    && |pathCost| == |visited| && |rank| == |visited| && 0 <= v < |visited|
    && forall k :: 0 <= k < |arcs| && 0 <= arcs[k] < |orig| && 0 <= dest[arcs[k]] < |visited| && residual[arcs[k]] > 0 ==>
         pathCost[dest[arcs[k]]] <= pathCost[v] + cost[arcs[k]] ||
         (visited[dest[arcs[k]]] && rank[dest[arcs[k]]] <= rank[v])
  }

  /**
   * Relaxing the next arc of the list: labels only went down and v's stayed, so the arcs
   * relaxed before stay relaxed.
   */
  lemma ScanStep(arcs: seq<int>, j: int, orig: seq<int>, dest: seq<int>, residual: seq<int>, cost: seq<int>,
                 visited: seq<bool>, pathCost: seq<int>, pathCost': seq<int>, rank: seq<nat>, v: int)
    requires 0 <= j < |arcs| && Scanned(arcs[..j], orig, dest, residual, cost, visited, pathCost, rank, v)
    requires |pathCost'| == |pathCost| && pathCost'[v] == pathCost[v]
    requires forall u :: 0 <= u < |pathCost| ==> pathCost'[u] <= pathCost[u]
    requires var e := arcs[j]; 0 <= e < |orig| && 0 <= dest[e] < |visited| && residual[e] > 0 ==>
      pathCost'[dest[e]] <= pathCost'[v] + cost[e] || (visited[dest[e]] && rank[dest[e]] <= rank[v])
    ensures Scanned(arcs[..j + 1], orig, dest, residual, cost, visited, pathCost', rank, v)
  {
    var done, done' := arcs[..j], arcs[..j + 1];
    forall k | 0 <= k < |done'| && 0 <= done'[k] < |orig| && 0 <= dest[done'[k]] < |visited| && residual[done'[k]] > 0
      ensures pathCost'[dest[done'[k]]] <= pathCost'[v] + cost[done'[k]] ||
              (visited[dest[done'[k]]] && rank[dest[done'[k]]] <= rank[v])
    {
      if k < j {
        assert done'[k] == done[k];
      }
    }
  }

  /** Once every arc out of the busy vertex v was relaxed, v is done. */
  lemma SettleFinishes(src: int, orig: seq<int>, dest: seq<int>, residual: seq<int>, cost: seq<int>,
                       visited: seq<bool>, pathCost: seq<int>, path: seq<int>, rank: seq<nat>, next: nat,
                       queue: multiset<int>, adj: seq<seq<int>>, slot: seq<int>, v: int, scanned: seq<int>)
    requires Settling(src, orig, dest, residual, cost, visited, pathCost, path, rank, next, queue, v)
    requires Outgoing(|visited|, adj, orig, dest, slot, v) && scanned == adj[v]
    requires Scanned(scanned, orig, dest, residual, cost, visited, pathCost, rank, v)
    ensures Settling(src, orig, dest, residual, cost, visited, pathCost, path, rank, next, queue, NoArc)
  {
    forall e | 0 <= e < |orig| && orig[e] == v
      ensures 0 <= slot[e] < |adj[v]| && adj[v][slot[e]] == e
    {
    }
  }

  /**
   * No arc with residual left out of a settled vertex can lower its head's label: the head's
   * label is at most the tail's plus the arc's cost.
   */
  ghost predicate Relaxed(orig: seq<int>, dest: seq<int>, residual: seq<int>, cost: seq<int>,
                          visited: seq<bool>, pathCost: seq<int>) {
    && |dest| == |orig| && |residual| == |orig| && |cost| == |orig| && |pathCost| == |visited|
    && forall e :: 0 <= e < |orig| && 0 <= orig[e] < |visited| && 0 <= dest[e] < |visited|
         && visited[orig[e]] && residual[e] > 0
         ==> pathCost[dest[e]] <= pathCost[orig[e]] + cost[e]
  }

  /**
   * With the queue empty, src is settled, the settled vertices form a predecessor forest of
   * arcs with residual left whose labels add up arc by arc, and no arc with residual left
   * leaves the settled vertices unless its cost would take the label to INF or beyond.
   */
  lemma SettleEnds(src: int, orig: seq<int>, dest: seq<int>, residual: seq<int>, cost: seq<int>,
                   visited: seq<bool>, pathCost: seq<int>, path: seq<int>, rank: seq<nat>, next: nat)
    requires Settling(src, orig, dest, residual, cost, visited, pathCost, path, rank, next, multiset{}, NoArc)
    ensures Forest(src, orig, dest, visited, path, rank)
    ensures forall w {:trigger path[w]} :: 0 <= w < |visited| && visited[w] && w != src ==>
      0 <= path[w] < |orig| && residual[path[w]] > 0 && pathCost[w] == pathCost[orig[path[w]]] + cost[path[w]]
    ensures forall w :: 0 <= w < |visited| ==> (visited[w] <==> pathCost[w] < INF)
    ensures forall e ::
      (0 <= e < |orig| && 0 <= orig[e] < |visited| && 0 <= dest[e] < |visited| && visited[orig[e]] &&
       residual[e] > 0 && pathCost[orig[e]] + cost[e] < INF) ==> visited[dest[e]]
    ensures NonNegativeSeq(cost) ==> Relaxed(orig, dest, residual, cost, visited, pathCost)
  {
    assert multiset{}[src] == 0;
    forall w | 0 <= w < |visited| && pathCost[w] < INF ensures visited[w] {
      assert multiset{}[w] == 0;
    }
  }
}
