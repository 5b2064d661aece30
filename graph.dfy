/**
 * The residual flow graph (code/Graph.cpp, with the vertex and arc records of
 * code/VertexEdge.cpp). Vertices and arcs live in an arena: a vertex is its position in
 * `vertexSet`, an arc its position in the arc table, and -1 stands for `nullptr`.
 */
module Graphs {
  import opened Wrappers
  import opened Stations
  import opened VertexEdge
  import opened Residuals
  import opened PriorityQueues
  import opened Arenas
  import opened Searches
  import opened Labels
  import opened Components

  /** Sum of a sequence, for the flows and costs the drivers accumulate. */
  function Sum(xs: seq<int>): int {
    if xs == [] then 0 else Sum(xs[..|xs| - 1]) + xs[|xs| - 1]
  }

  /** The total cost of the arcs of a walk. */
  function CostAlong(cost: seq<int>, arcs: seq<int>): int
    requires forall i :: 0 <= i < |arcs| ==> 0 <= arcs[i] < |cost|
  {
    if arcs == [] then 0 else cost[arcs[0]] + CostAlong(cost, arcs[1..])
  }

  /** `arcs` leads from src to dst, last arc first, without repeating an arc. */
  ghost predicate Route(src: int, dst: int, orig: seq<int>, dest: seq<int>, arcs: seq<int>) {
    && |dest| == |orig| && arcs != []
    && (forall i :: 0 <= i < |arcs| ==> 0 <= arcs[i] < |orig|)
    && dest[arcs[0]] == dst && orig[arcs[|arcs| - 1]] == src
    && (forall i, j {:trigger arcs[i], arcs[j]} :: 0 <= i && j == i + 1 < |arcs| ==> orig[arcs[i]] == dest[arcs[j]])
    && Distinct(arcs)
  }

  /** The cost of a walk is its first arc's cost plus the cost of the rest. */
  lemma CostAlongCons(cost: seq<int>, e: int, rest: seq<int>)
    requires 0 <= e < |cost| && forall i :: 0 <= i < |rest| ==> 0 <= rest[i] < |cost|
    ensures CostAlong(cost, [e] + rest) == cost[e] + CostAlong(cost, rest)
  {
    assert ([e] + rest)[1..] == rest;
  }

  /**
   * `arcs` leads from src to dst over arcs with residual left, last arc first; the empty walk
   * stays at src. Arcs may repeat.
   */
  ghost predicate ResidualWalk(src: int, dst: int, orig: seq<int>, dest: seq<int>, residual: seq<int>, arcs: seq<int>)
    decreases |arcs|
  {
    if arcs == [] then dst == src
    else
      && 0 <= arcs[0] < |orig| && arcs[0] < |dest| && arcs[0] < |residual|
      && residual[arcs[0]] > 0 && dest[arcs[0]] == dst
      && ResidualWalk(src, orig[arcs[0]], orig, dest, residual, arcs[1..])
  }

  /**
   * Labels that no arc with residual left can lower, with src at 0 and no negative cost, are
   * lower bounds: every walk from src over arcs with residual left that costs less than INF
   * ends at a labelled vertex whose label is at most the walk's cost.
   */
  lemma {:induction false} LeastCost(src: int, w: int, orig: seq<int>, dest: seq<int>, residual: seq<int>,
                                     cost: seq<int>, visited: seq<bool>, pathCost: seq<int>, arcs: seq<int>)
    requires |dest| == |orig| && |pathCost| == |visited|
    requires forall e :: 0 <= e < |orig| ==> 0 <= orig[e] < |visited| && 0 <= dest[e] < |visited|
    requires 0 <= src < |visited| && visited[src] && pathCost[src] == 0
    requires NonNegativeSeq(cost) && Relaxed(orig, dest, residual, cost, visited, pathCost)
    requires forall v :: 0 <= v < |visited| ==> (visited[v] <==> pathCost[v] < INF)
    requires forall i :: 0 <= i < |arcs| ==> 0 <= arcs[i] < |orig|
    requires ResidualWalk(src, w, orig, dest, residual, arcs) && CostAlong(cost, arcs) < INF
    ensures 0 <= w < |visited| && visited[w] && pathCost[w] <= CostAlong(cost, arcs)
    decreases |arcs|
  {
    if arcs != [] {
      var e, rest := arcs[0], arcs[1..];
      assert forall i :: 0 <= i < |rest| ==> rest[i] == arcs[i + 1];
      LeastCost(src, orig[e], orig, dest, residual, cost, visited, pathCost, rest);
    }
  }

  /**
   * No walk from src to dst over arcs with residual left costs less than `price`, among the
   * walks costing less than INF.
   */
  ghost predicate LeastPrice(src: int, dst: int, orig: seq<int>, dest: seq<int>, residual: seq<int>,
                             cost: seq<int>, price: int) {
    forall arcs :: ResidualWalk(src, dst, orig, dest, residual, arcs) ==>
      (forall i :: 0 <= i < |arcs| ==> 0 <= arcs[i] < |cost|) &&
      (CostAlong(cost, arcs) < INF ==> price <= CostAlong(cost, arcs))
  }

  /** Every arc of a walk over arcs with residual left is an arc. */
  lemma {:induction false} WalkArcs(src: int, dst: int, orig: seq<int>, dest: seq<int>, residual: seq<int>, arcs: seq<int>)
    requires ResidualWalk(src, dst, orig, dest, residual, arcs)
    ensures forall i :: 0 <= i < |arcs| ==> 0 <= arcs[i] < |orig|
    decreases |arcs|
  {
    if arcs != [] {
      WalkArcs(src, orig[arcs[0]], orig, dest, residual, arcs[1..]);
      assert forall i :: 1 <= i < |arcs| ==> arcs[i] == arcs[1..][i - 1];
    }
  }

  /**
   * One round of the cheapest-path loop, on the residuals `start` it began with: it pushed
   * along `route`, a route from src to dst whose every arc had residual left, and `price` is
   * the cost of its arcs; with no negative cost, no walk over arcs with residual left is cheaper.
   */
  ghost predicate RoundOf(src: int, dst: int, orig: seq<int>, dest: seq<int>, cost: seq<int>,
                          start: seq<int>, route: seq<int>, price: int) {
    && |cost| == |orig| && |start| == |orig| && Route(src, dst, orig, dest, route)
    && (forall k :: 0 <= k < |route| ==> start[route[k]] > 0)
    && price == CostAlong(cost, route)
    && (NonNegativeSeq(cost) ==> LeastPrice(src, dst, orig, dest, start, cost, price))
  }

  /** Round i began on the residuals `starts[i]`, pushed along `routes[i]` and cost `prices[i]`. */
  ghost predicate Rounds(src: int, dst: int, orig: seq<int>, dest: seq<int>, cost: seq<int>,
                         starts: seq<seq<int>>, routes: seq<seq<int>>, prices: seq<int>) {
    && |starts| == |prices| && |routes| == |prices|
    && forall i :: 0 <= i < |routes| ==> RoundOf(src, dst, orig, dest, cost, starts[i], routes[i], prices[i])
  }

  /** One more round, and its price joins the sum. */
  lemma RoundsExtend(src: int, dst: int, orig: seq<int>, dest: seq<int>, cost: seq<int>,
                     starts: seq<seq<int>>, routes: seq<seq<int>>, prices: seq<int>,
                     start: seq<int>, route: seq<int>, price: int)
    requires Rounds(src, dst, orig, dest, cost, starts, routes, prices)
    requires RoundOf(src, dst, orig, dest, cost, start, route, price)
    ensures Rounds(src, dst, orig, dest, cost, starts + [start], routes + [route], prices + [price])
    ensures Sum(prices + [price]) == Sum(prices) + price
  {
    assert (prices + [price])[..|prices|] == prices;
  }

  /** The rounds so far, the first of them on the residuals `start`, add up to `total`. */
  ghost predicate Tally(src: int, dst: int, orig: seq<int>, dest: seq<int>, cost: seq<int>, start: seq<int>,
                        total: int, starts: seq<seq<int>>, routes: seq<seq<int>>, prices: seq<int>) {
    && total == Sum(prices) && Rounds(src, dst, orig, dest, cost, starts, routes, prices)
    && (starts != [] ==> starts[0] == start)
  }

  /** One more round, the first one on `start`, adds its price to the total. */
  lemma TallyExtends(src: int, dst: int, orig: seq<int>, dest: seq<int>, cost: seq<int>, start: seq<int>,
                     total: int, starts: seq<seq<int>>, routes: seq<seq<int>>, prices: seq<int>,
                     before: seq<int>, route: seq<int>, price: int)
    requires Tally(src, dst, orig, dest, cost, start, total, starts, routes, prices)
    requires RoundOf(src, dst, orig, dest, cost, before, route, price) && (starts == [] ==> before == start)
    ensures Tally(src, dst, orig, dest, cost, start, total + price, starts + [before], routes + [route], prices + [price])
  {
    RoundsExtend(src, dst, orig, dest, cost, starts, routes, prices, before, route, price);
  }

  /** Every entry is positive. */
  predicate Positive(xs: seq<int>) {
    forall i :: 0 <= i < |xs| ==> xs[i] > 0
  }

  /** Appending a positive amount adds it to the sum and keeps every entry positive. */
  lemma Push(xs: seq<int>, x: int)
    requires Positive(xs) && x > 0
    ensures Sum(xs + [x]) == Sum(xs) + x && Positive(xs + [x])
  {
    assert (xs + [x])[..|xs|] == xs;
  }

  class Graph {
    /** Per vertex: `id`, `station`, `adj`, `incoming`, `visited`, `pathCost`, `path`. */
    var vid: seq<int>
    var station: seq<Station>
    var adj: seq<seq<int>>
    var incoming: seq<seq<int>>
    var visited: seq<bool>
    var pathCost: seq<int>
    var path: seq<int>
    /** Per arc: `orig`, `dest`, `capacity`, `residualCapacity`, `cost`, `reverse`. */
    var orig: seq<int>
    var dest: seq<int>
    var capacity: seq<int>
    var residual: seq<int>
    var cost: seq<int>
    var reverse: seq<int>
    /** The values an arc's `cost` and `residualCapacity` hold before anything assigns them. */
    const unsetCost: int
    const unsetResidual: int
    /** Where each arc sits in its origin's `adj`. */
    ghost var slot: seq<int>
    /** The order in which the last search reached each vertex; predecessors come first. */
    ghost var rank: seq<nat>

    /** Vertex and arc tables agree in length and form an `Arena`. */
    ghost predicate Valid()
      reads this`vid, this`station, this`adj, this`incoming, this`orig, this`dest,
            this`capacity, this`cost, this`reverse, this`slot
    {
      && |station| == |vid| && |incoming| == |vid| && |capacity| == |orig| && |cost| == |orig|
      && Arena(|vid|, adj, orig, dest, reverse, slot)
    }

    /** The search fields and the residual table have one entry per vertex and per arc. */
    ghost predicate Sized()
      reads this`vid, this`orig, this`visited, this`pathCost, this`path, this`rank, this`residual
    {
      && |visited| == |vid| && |pathCost| == |vid| && |path| == |vid| && |rank| == |vid|
      && |residual| == |orig|
    }

    /** As `addEdge` builds them, arcs come in antiparallel pairs of equal capacity. */
    ghost predicate Paired()
      reads this`orig, this`dest, this`capacity, this`reverse
    {
      Antiparallel(orig, dest, capacity, reverse)
    }

    /** Every arc and its reverse hold twice their capacity between them: a flow with no leak. */
    ghost predicate Balanced()
      reads this`vid, this`station, this`adj, this`incoming, this`orig, this`dest,
            this`capacity, this`cost, this`reverse, this`slot, this`visited, this`pathCost, this`path,
            this`rank, this`residual
    {
      Level(residual, reverse, capacity)
    }

    /** The predecessor tree the last search left behind, rooted at src. */
    ghost predicate Tree(src: int)
      reads this`vid, this`orig, this`dest, this`visited, this`path, this`rank
    {
      |visited| == |vid| && Forest(src, orig, dest, visited, path, rank)
    }

    /** Every tree arc had residual left and entered a vertex other than the super source. */
    ghost predicate Usable(src: int)
      reads this`residual, this`station, this`visited, this`path
    {
      Crossed(src, residual, station, visited, path)
    }

    /** No arc the search may cross leaves the reached vertices. */
    ghost predicate Closed()
      reads this`orig, this`dest, this`residual, this`station, this`visited
    {
      ClosedBut(orig, dest, residual, station, visited, [], NoArc)
    }

    /**
     * The arcs `findMinResidualAlongPath` and `augmentFlowAlongPath` walk: from v back to src
     * along the predecessor arcs, the arc into v first and the arc out of src last.
     */
    ghost function PathArcs(src: int, v: int): (arcs: seq<int>)
      reads this`vid, this`station, this`adj, this`incoming, this`orig, this`dest,
            this`capacity, this`cost, this`reverse, this`slot, this`visited, this`pathCost, this`path, this`rank
      requires Valid() && |visited| == |vid| && |path| == |vid| && |rank| == |vid| && Tree(src)
      requires 0 <= v < |vid| && visited[v]
      ensures arcs == [] <==> v == src
      ensures forall i :: 0 <= i < |arcs| ==>
        && 0 <= arcs[i] < |orig| && dest[arcs[i]] != src && visited[dest[arcs[i]]]
        && path[dest[arcs[i]]] == arcs[i] && rank[dest[arcs[i]]] <= rank[v]
      ensures arcs != [] ==> dest[arcs[0]] == v && orig[arcs[|arcs| - 1]] == src
      ensures forall i, j {:trigger arcs[i], arcs[j]} :: 0 <= i && j == i + 1 < |arcs| ==> orig[arcs[i]] == dest[arcs[j]]
      ensures forall i, j :: 0 <= i < j < |arcs| ==> rank[dest[arcs[j]]] < rank[dest[arcs[i]]]
      decreases rank[v]
    {
      if v == src then []
      else [path[v]] + PathArcs(src, orig[path[v]])
    }

    /** A path of the tree never uses the same arc twice. */
    lemma PathArcsDistinct(src: int, v: int)
      requires Valid() && |visited| == |vid| && |path| == |vid| && |rank| == |vid| && Tree(src)
      requires 0 <= v < |vid| && visited[v]
      ensures Distinct(PathArcs(src, v))
    {
      var arcs := PathArcs(src, v);
      forall i, j | 0 <= i < j < |arcs| ensures arcs[i] != arcs[j] {
        assert rank[dest[arcs[j]]] < rank[dest[arcs[i]]];
      }
    }

    /** An empty graph; `unsetCost` and `unsetResidual` stand for never-assigned arc fields. */
    constructor (unsetCost: int, unsetResidual: int)
      ensures vid == [] && orig == []
      ensures this.unsetCost == unsetCost && this.unsetResidual == unsetResidual
      ensures Sized() && Valid()
      ensures Paired()
    {
      vid, station, adj, incoming := [], [], [], [];
      visited, pathCost, path := [], [], [];
      orig, dest, capacity, residual, cost, reverse := [], [], [], [], [], [];
      this.unsetCost := unsetCost;
      this.unsetResidual := unsetResidual;
      rank, slot := [], [];
      EmptyArena();
    }

    /** `Vertex::setVisited`. */
    method SetVisited(v: int, b: bool)
      requires 0 <= v < |visited|
      modifies this`visited
      ensures visited == old(visited)[v := b]
    {
      visited := visited[v := b];
    }

    /** `Vertex::setPath`. */
    method SetPath(v: int, e: int)
      requires 0 <= v < |path|
      modifies this`path
      ensures path == old(path)[v := e]
    {
      path := path[v := e];
    }

    /** `Vertex::setPathCost`. */
    method SetPathCost(v: int, c: int)
      requires 0 <= v < |pathCost|
      modifies this`pathCost
      ensures pathCost == old(pathCost)[v := c]
    {
      pathCost := pathCost[v := c];
    }

    /** `Edge::setResidualCapacity`. */
    method SetResidual(e: int, r: int)
      requires 0 <= e < |residual|
      modifies this`residual
      ensures residual == old(residual)[e := r]
    {
      residual := residual[e := r];
    }

    /** `Edge::setReverse`. */
    method SetReverse(e: int, r: int)
      requires 0 <= e < |reverse|
      modifies this`reverse
      ensures reverse == old(reverse)[e := r]
    {
      reverse := reverse[e := r];
    }

    /** `addVertex(id, station)`: append one vertex with no arcs and the record's defaults. */
    method AddVertex(id: int, st: Station) returns (v: int)
      requires Valid() && Sized()
      modifies this`vid, this`station, this`adj, this`incoming, this`visited, this`pathCost,
               this`path, this`rank
      ensures Valid() && Sized()
      ensures v == old(|vid|) && |vid| == old(|vid|) + 1
      ensures vid == old(vid) + [id] && station == old(station) + [st]
      ensures adj == old(adj) + [[]] && incoming == old(incoming) + [[]]
      ensures visited == old(visited) + [false] && pathCost == old(pathCost) + [0]
      ensures path == old(path) + [NoArc] && rank == old(rank) + [0]
      ensures orig == old(orig) && dest == old(dest) && capacity == old(capacity) && cost == old(cost)
      ensures reverse == old(reverse) && residual == old(residual) && slot == old(slot)
    {
      ArenaAddsVertex(|vid|, adj, orig, dest, reverse, slot);
      v := |vid|;
      vid, station := vid + [id], station + [st];
      adj, incoming := adj + [[]], incoming + [[]];
      visited, pathCost, path := visited + [false], pathCost + [0], path + [NoArc];
      rank := rank + [0];
    }

    /**
     * `Vertex::addEdge(d, capacity, service)` on vertex u: a new arc u -> d, listed in u's `adj`
     * and d's `incoming`, with no reverse yet. Its cost comes from the service tier.
     */
    method AddArc(u: int, d: int, cap: int, service: string) returns (e: int)
      requires Valid() && Sized() && 0 <= u < |vid| && 0 <= d < |vid|
      modifies this`orig, this`dest, this`capacity, this`residual, this`cost, this`reverse,
               this`adj, this`incoming, this`slot
      ensures Valid() && Sized()
      ensures e == old(|orig|)
      ensures orig == old(orig) + [u] && dest == old(dest) + [d] && capacity == old(capacity) + [cap]
      ensures residual == old(residual) + [unsetResidual] && reverse == old(reverse) + [NoArc]
      ensures cost == old(cost) + [Tariff(service).GetOr(unsetCost)]
      ensures adj == old(adj)[u := old(adj)[u] + [e]]
      ensures incoming == old(incoming)[d := old(incoming)[d] + [e]]
    {
      ArenaAddsArc(|vid|, adj, orig, dest, reverse, slot, u, d);
      e := |orig|;
      orig, dest, capacity := orig + [u], dest + [d], capacity + [cap];
      residual, reverse := residual + [unsetResidual], reverse + [NoArc];
      cost := cost + [Tariff(service).GetOr(unsetCost)];
      slot := slot + [|adj[u]|];
      adj := adj[u := adj[u] + [e]];
      incoming := incoming[d := incoming[d] + [e]];
    }

    /**
     * `addEdge(source, dest, capacity, service)`: one segment becomes two antiparallel arcs,
     * each with half the capacity, each the other's reverse.
     */
    method AddEdge(source: int, target: int, cap: int, service: string)
      requires Valid() && Sized() && Paired()
      requires 0 <= source < |vid| && 0 <= target < |vid|
      modifies this`orig, this`dest, this`capacity, this`residual, this`cost, this`reverse,
               this`adj, this`incoming, this`slot
      ensures Valid() && Sized() && Paired()
      ensures var e1, e2, c, t := old(|orig|), old(|orig|) + 1, HalfCapacity(cap), Tariff(service).GetOr(unsetCost);
        && orig == old(orig) + [source] + [target] && dest == old(dest) + [target] + [source]
        && capacity == old(capacity) + [c] + [c] && cost == old(cost) + [t] + [t]
        && residual == old(residual) + [unsetResidual] + [unsetResidual]
        && reverse == old(reverse) + [e2] + [e1]
        && var adj1 := old(adj)[source := old(adj)[source] + [e1]];
           adj == adj1[target := adj1[target] + [e2]]
      ensures var e1, e2 := old(|orig|), old(|orig|) + 1;
        var inc1 := old(incoming)[target := old(incoming)[target] + [e1]];
        incoming == inc1[source := inc1[source] + [e2]]
      ensures vid == old(vid) && station == old(station)
    {
      var e1 := AddArc(source, target, HalfCapacity(cap), service);
      var e2 := AddArc(target, source, HalfCapacity(cap), service);
      ghost var rev0 := reverse;
      SetReverse(e1, e2);
      SetReverse(e2, e1);
      ArenaSetsReverse(|vid|, adj, orig, dest, rev0, slot, e1, e2);
      ArenaSetsReverse(|vid|, adj, orig, dest, rev0[e1 := e2], slot, e2, e1);
      assert reverse == old(reverse) + [e2] + [e1];
      AntiparallelAddsPair(old(orig), old(dest), old(capacity), old(reverse), source, target, HalfCapacity(cap));
    }

    /** The reset loops of `maxFlow` and `minCost`: every arc's residual becomes its capacity. */
    method ResetResiduals()
      requires Valid() && Sized()
      modifies this`residual
      ensures Sized()
      ensures residual == capacity
    {
      var v := 0;
      while v < |vid|
        invariant 0 <= v <= |vid| && |residual| == |orig|
        invariant forall e :: 0 <= e < |orig| && orig[e] < v ==> residual[e] == capacity[e]
      {
        var i := 0;
        while i < |adj[v]|
          invariant 0 <= i <= |adj[v]| && |residual| == |orig|
          invariant forall e :: 0 <= e < |orig| && orig[e] < v ==> residual[e] == capacity[e]
          invariant forall k :: 0 <= k < i ==> residual[adj[v][k]] == capacity[adj[v][k]]
        {
          var e := adj[v][i];
          SetResidual(e, capacity[e]);
          i := i + 1;
        }
        v := v + 1;
      }
    }

    /**
     * `arcs` is the walk `findMinResidualAlongPath` and `augmentFlowAlongPath` take: starting at
     * dst, each step follows the current vertex's `path` arc back to its origin, until src.
     */
    ghost predicate Walk(src: int, dst: int, arcs: seq<int>)
      reads this`vid, this`orig, this`dest, this`reverse, this`path
    {
      Backtrack(src, dst, |vid|, orig, dest, reverse, path, arcs)
    }

    /** The tree's path to a visited vertex is a walk the two loops take. */
    lemma TreeWalk(src: int, v: int)
      requires Valid() && Sized() && Paired() && Tree(src) && 0 <= v < |vid| && visited[v]
      ensures Walk(src, v, PathArcs(src, v))
    {
      var arcs := PathArcs(src, v);
      forall i | 0 <= i < |arcs| ensures 0 <= reverse[arcs[i]] < |orig| {
        assert 0 <= arcs[i] < |orig|;
      }
    }

    /**
     * `findMinResidualAlongPath`: the bottleneck of the walk from dst back to src. It is at most
     * INF and at most every walked arc's residual, and it is INF or one of those residuals; on
     * a walk of arcs with residual left it is positive.
     */
    method FindMinResidualAlongPath(src: int, dst: int, ghost arcs: seq<int>) returns (f: int)
      requires Walk(src, dst, arcs) && |residual| == |orig|
      ensures f <= INF
      ensures forall i :: 0 <= i < |arcs| ==> f <= residual[arcs[i]]
      ensures f == INF || exists i :: 0 <= i < |arcs| && f == residual[arcs[i]]
      ensures dst != src && (forall i :: 0 <= i < |arcs| ==> residual[arcs[i]] > 0) ==> f > 0
    {
      ghost var k := 0;
      f := INF;
      var v := dst;
      while v != src
        invariant 0 <= k <= |arcs| && 0 <= v < |vid|
        invariant k < |arcs| ==> v == dest[arcs[k]]
        invariant k == |arcs| ==> v == src
        invariant f <= INF
        invariant forall i :: 0 <= i < k ==> f <= residual[arcs[i]]
        invariant f == INF || exists i :: 0 <= i < k && f == residual[arcs[i]]
        invariant (forall i :: 0 <= i < |arcs| ==> residual[arcs[i]] > 0) ==> f > 0
        decreases |arcs| - k
      {
        var e := path[v];
        f := if f <= residual[e] then f else residual[e];
        v := orig[e];
        k := k + 1;
      }
    }

    /**
     * `augmentFlowAlongPath`: push f along the walk from dst back to src. The residual table
     * becomes `Augmented` of the old one along the walked arcs; nothing else changes.
     */
    method AugmentFlowAlongPath(src: int, dst: int, f: int, ghost arcs: seq<int>)
      requires Walk(src, dst, arcs) && |residual| == |orig|
      modifies this`residual
      ensures Within(old(residual), reverse, arcs)
      ensures residual == Augmented(old(residual), reverse, arcs, |arcs|, f)
    {
      ghost var k := 0;
      var v := dst;
      while v != src
        invariant 0 <= k <= |arcs| && 0 <= v < |vid| && |residual| == |orig|
        invariant k < |arcs| ==> v == dest[arcs[k]]
        invariant k == |arcs| ==> v == src
        invariant residual == Augmented(old(residual), reverse, arcs, k, f)
        decreases |arcs| - k
      {
        var e := path[v];
        var rev := reverse[e];
        assert e == arcs[k];
        ghost var next := Step(residual, reverse, e, f);
        SetResidual(e, residual[e] - f);
        SetResidual(rev, residual[rev] + f);
        assert residual == next;
        v := orig[e];
        k := k + 1;
      }
    }

    /**
     * The search reaches w := `dest[e]` through e, an arc out of the busy vertex (`setVisited`,
     * `setPath`), and queues it, one level below the busy vertex.
     */
    method Reach(src: int, e: int, queue0: seq<int>, ghost busy: int, ghost level: nat) returns (queue: seq<int>)
      requires |visited| == |vid|
      requires Searching(src, orig, dest, residual, station, visited, path, rank, queue0, busy, level)
      requires 0 <= e < |orig| && orig[e] == busy && busy != NoArc && 0 <= dest[e] < |visited|
      requires !visited[dest[e]] && Open(dest, residual, station, e)
      modifies this`visited, this`path, this`rank
      ensures visited == old(visited)[dest[e] := true]
      ensures Searching(src, orig, dest, residual, station, visited, path, rank, queue, busy, level)
      ensures Unreached(visited) == old(Unreached(visited)) - 1 && |queue| == |queue0| + 1
    {
      var w := dest[e];
      SearchVisits(src, orig, dest, residual, station, visited, path, rank, queue0, busy, level, e);
      SetVisited(w, true);
      SetPath(w, e);
      rank := rank[w := level + 1];
      queue := queue0 + [w];
    }

    /**
     * The inner loop of `findAugmentingPath`: follow every arc out of the busy vertex v, queueing
     * each head not reached yet that the search may enter.
     */
    method ScanArcs(src: int, v: int, queue0: seq<int>, ghost level: nat) returns (queue: seq<int>)
      requires Outgoing(|vid|, adj, orig, dest, slot, v) && |visited| == |vid| && visited[v]
      requires Searching(src, orig, dest, residual, station, visited, path, rank, queue0, v, level)
      modifies this`visited, this`path, this`rank
      ensures |visited| == |vid|
      ensures Searching(src, orig, dest, residual, station, visited, path, rank, queue, NoArc, level)
      ensures Unreached(visited) <= old(Unreached(visited))
      ensures Unreached(visited) + |queue| == old(Unreached(visited)) + |queue0|
    {
      queue := queue0;
      var j := 0;
      while j < |adj[v]|
        invariant 0 <= j <= |adj[v]| && |visited| == |vid| && visited[v]
        invariant Searching(src, orig, dest, residual, station, visited, path, rank, queue, v, level)
        invariant forall k :: 0 <= k < j && Open(dest, residual, station, adj[v][k]) ==> visited[dest[adj[v][k]]]
        invariant Unreached(visited) <= old(Unreached(visited))
        invariant Unreached(visited) + |queue| == old(Unreached(visited)) + |queue0|
      {
        var e := adj[v][j];
        var w := dest[e];
        if station[w].name != SuperSource {
          if !visited[w] && residual[e] > 0 {
            queue := Reach(src, e, queue, v, level);
          }
        }
        j := j + 1;
      }
      forall e | 0 <= e < |orig| && orig[e] == v && 0 <= dest[e] < |vid| && Open(dest, residual, station, e)
        ensures visited[dest[e]]
      {
        assert adj[v][slot[e]] == e;
      }
      SearchFinishes(src, orig, dest, residual, station, visited, path, rank, queue, v, level);
    }

    /** `rank` is the depth in the predecessor tree: 0 at src, one more than the predecessor elsewhere. */
    ghost predicate Layered(src: int)
      reads this`orig, this`visited, this`path, this`rank
    {
      Layers(src, orig, visited, path, rank)
    }

    /** No walk from src to dst over arcs the search may cross is shorter than dst's depth. */
    ghost predicate Shortest(src: int, dst: int)
      reads this`orig, this`dest, this`residual, this`station, this`visited, this`rank
    {
      0 <= dst < |rank| && forall arcs :: Crossing(src, dst, orig, dest, residual, station, arcs) ==> rank[dst] <= |arcs|
    }

    /**
     * `findAugmentingPath`: a breadth-first search from src over arcs with residual left that
     * never enters the super source. It reports whether dst was reached; the reached vertices
     * form a predecessor tree of such arcs, layered by depth; when dst was reached no walk to it
     * over such arcs is shorter than its depth, and when it was not no such arc leaves the tree.
     */
    method FindAugmentingPath(src: int, dst: int) returns (found: bool)
      requires Valid() && Sized() && 0 <= src < |vid| && 0 <= dst < |vid|
      modifies this`visited, this`path, this`rank
      ensures Sized()
      ensures found == visited[dst]
      ensures Tree(src) && Usable(src) && Layered(src)
      ensures found ==> Shortest(src, dst)
      ensures !found ==> Closed()
    {
      var i := 0;
      while i < |vid|
        invariant 0 <= i <= |vid| && Sized()
        invariant forall j :: 0 <= j < i ==> !visited[j]
      {
        SetVisited(i, false);
        i := i + 1;
      }
      SetVisited(src, true);
      SearchStarts(src, orig, dest, residual, station, visited, path, rank);
      rank := rank[src := 0];
      ghost var level: nat := 0;
      var queue := [src];
      while queue != [] && !visited[dst]
        invariant Sized()
        invariant Searching(src, orig, dest, residual, station, visited, path, rank, queue, NoArc, level)
        decreases Unreached(visited), |queue|
      {
        SearchPops(src, orig, dest, residual, station, visited, path, rank, queue, level);
        var v := queue[0];
        assert Outgoing(|vid|, adj, orig, dest, slot, v);
        level := rank[v];
        queue := ScanArcs(src, v, queue[1..], level);
      }
      found := visited[dst];
      if found {
        forall arcs | Crossing(src, dst, orig, dest, residual, station, arcs) ensures rank[dst] <= |arcs| {
          Nearest(src, dst, orig, dest, residual, station, visited, path, rank, queue, level, arcs);
        }
      }
    }

    /** The tree path to a reached vertex is a crossable walk whose length is the vertex's depth. */
    lemma {:induction false} ChainDepth(src: int, v: int)
      requires Valid() && Sized() && Tree(src) && Usable(src) && Layered(src)
      requires 0 <= v < |vid| && visited[v]
      ensures Crossing(src, v, orig, dest, residual, station, PathArcs(src, v))
      ensures |PathArcs(src, v)| == rank[v]
      decreases rank[v]
    {
      if v != src {
        var e := path[v];
        ChainDepth(src, orig[e]);
        assert PathArcs(src, v)[1..] == PathArcs(src, orig[e]);
      }
    }

    /**
     * The path `findAugmentingPath` leaves to a reached dst is a shortest augmenting path: a
     * walk over arcs the search may cross, and no other such walk is shorter.
     */
    lemma ShortestChain(src: int, dst: int)
      requires Valid() && Sized() && Tree(src) && Usable(src) && Layered(src)
      requires 0 <= dst < |vid| && visited[dst] && Shortest(src, dst)
      ensures Crossing(src, dst, orig, dest, residual, station, PathArcs(src, dst))
      ensures forall arcs :: Crossing(src, dst, orig, dest, residual, station, arcs) ==> |PathArcs(src, dst)| <= |arcs|
    {
      ChainDepth(src, dst);
    }
  
    /** Every tree arc has residual left. */
    ghost predicate Carries(src: int)
      reads this`residual, this`visited, this`path
    {
      forall w {:trigger path[w]} :: 0 <= w < |visited| && visited[w] && w != src ==>
        0 <= w < |path| && 0 <= path[w] < |residual| && residual[path[w]] > 0
    }

    /** The tree path to a reached vertex is a walk of distinct arcs, each with residual left. */
    lemma TreePath(src: int, dst: int)
      requires Valid() && Sized() && Paired() && Tree(src) && Carries(src)
      requires 0 <= dst < |vid| && visited[dst]
      ensures var arcs := PathArcs(src, dst);
        && Walk(src, dst, arcs) && Distinct(arcs)
        && forall i :: 0 <= i < |arcs| ==> residual[arcs[i]] > 0
    {
      TreeWalk(src, dst);
      PathArcsDistinct(src, dst);
    }

    /**
     * Push the bottleneck of a walk of distinct arcs with residual left from dst back to src.
     * The bottleneck is positive, the source's out-residual drops by exactly that much, the
     * residuals stay level, and no residual becomes negative.
     */
    method PushAlong(src: int, dst: int, ghost arcs: seq<int>) returns (f: int)
      requires Walk(src, dst, arcs) && Distinct(arcs) && dst != src
      requires Paired() && |residual| == |orig|
      requires forall i :: 0 <= i < |arcs| ==> residual[arcs[i]] > 0
      modifies this`residual
      ensures |residual| == |orig| && f > 0
      ensures OutResidual(residual, orig, src) == old(OutResidual(residual, orig, src)) - f
      ensures old(Level(residual, reverse, capacity)) ==> Level(residual, reverse, capacity)
      ensures NonNegativeSeq(old(residual)) ==> NonNegativeSeq(residual)
    {
      f := FindMinResidualAlongPath(src, dst, arcs);
      AugmentFlowAlongPath(src, dst, f, arcs);
      AugmentRound(src, dst, |vid|, orig, dest, capacity, reverse, path, old(residual), arcs, f, residual);
    }

    /**
     * The body of the augmenting loops of `maxFlow` and `minCost`: find the bottleneck of the
     * tree path from src to dst and push it.
     */
    method AugmentTreePath(src: int, dst: int) returns (f: int)
      requires Valid() && Sized() && Paired() && Balanced() && Tree(src) && Carries(src)
      requires 0 <= dst < |vid| && visited[dst] && dst != src
      modifies this`residual
      ensures Sized() && Balanced() && f > 0
      ensures OutResidual(residual, orig, src) == old(OutResidual(residual, orig, src)) - f
      ensures NonNegativeSeq(old(residual)) ==> NonNegativeSeq(residual)
    {
      TreePath(src, dst);
      f := PushAlong(src, dst, PathArcs(src, dst));
    }

    /**
     * One round of `maxFlow`: search for a shortest augmenting path and, when there is one,
     * push its bottleneck f along it; when there is none, the residuals stay as they were.
     */
    method AugmentOnce(source: int, target: int) returns (found: bool, f: int)
      requires Valid() && Sized() && Paired() && Balanced() && source != target
      requires 0 <= source < |vid| && 0 <= target < |vid|
      modifies this`residual, this`visited, this`path, this`rank
      ensures Sized() && Balanced()
      ensures NonNegativeSeq(old(residual)) ==> NonNegativeSeq(residual)
      ensures found ==> f > 0 && OutResidual(residual, orig, source) == old(OutResidual(residual, orig, source)) - f
      ensures !found ==> residual == old(residual) && Tree(source) && !visited[target] && Closed()
    {
      found := FindAugmentingPath(source, target);
      f := 0;
      if found {
        f := AugmentTreePath(source, target);
      }
    }

    /**
     * `maxFlow(source, target)`: Edmonds–Karp. With source == target it returns 0 and touches
     * nothing. Otherwise it resets every residual to the capacity and, while the breadth-first
     * search reaches the target, pushes the bottleneck of the tree path. The flow is the sum of
     * the bottlenecks, each positive, and equals how much the source's out-residual dropped;
     * each arc and its reverse still hold twice their capacity, no residual went negative
     * unless a capacity was, and at the end no arc the search may cross leaves the vertices
     * the last search reached, which do not include the target.
     */
    method MaxFlow(source: int, target: int) returns (flow: int, ghost bottlenecks: seq<int>)
      requires Valid() && Sized() && Paired() && 0 <= source < |vid| && 0 <= target < |vid|
      modifies this`residual, this`visited, this`path, this`rank
      ensures Sized()
      ensures source == target ==> flow == 0 && residual == old(residual)
      ensures flow == Sum(bottlenecks) && Positive(bottlenecks)
      ensures source != target ==>
        && flow == OutResidual(capacity, orig, source) - OutResidual(residual, orig, source)
        && Balanced() && (NonNegativeSeq(capacity) ==> NonNegativeSeq(residual))
        && Tree(source) && !visited[target] && Closed()
    {
      bottlenecks := [];
      if source == target {
        return 0, bottlenecks;
      }
      flow := 0;
      LevelAtCapacity(orig, dest, capacity, reverse);
      ResetResiduals();
      while true
        invariant Sized() && Balanced() && (NonNegativeSeq(capacity) ==> NonNegativeSeq(residual))
        invariant flow == Sum(bottlenecks) && Positive(bottlenecks)
        invariant flow == OutResidual(capacity, orig, source) - OutResidual(residual, orig, source)
        decreases OutResidual(residual, orig, source)
      {
        var found, f := AugmentOnce(source, target);
        if !found {
          break;
        }
        Push(bottlenecks, f);
        flow := flow + f;
        bottlenecks := bottlenecks + [f];
      }
    }

    /** The labels the last cheapest-first search left: src costs 0 and each tree arc adds its cost. */
    ghost predicate Priced(src: int)
      reads this`orig, this`cost, this`visited, this`pathCost, this`path
    {
      && 0 <= src < |pathCost| && pathCost[src] == 0
      && forall w {:trigger path[w]} :: 0 <= w < |visited| && visited[w] && w != src ==>
           && w < |path| && w < |pathCost| && 0 <= path[w] < |orig| && |cost| == |orig|
           && 0 <= orig[path[w]] < |pathCost| && pathCost[w] == pathCost[orig[path[w]]] + cost[path[w]]
    }

    /** The last cheapest-first search from src ended without settling dst and nothing more is in reach. */
    ghost predicate Stuck(src: int, dst: int)
      reads this`vid, this`orig, this`dest, this`residual, this`cost, this`visited, this`path, this`pathCost, this`rank
    {
      Tree(src) && 0 <= dst < |visited| && !visited[dst] && Exhausted()
    }

    /**
     * No arc with residual left leaves the settled vertices for an unsettled one, unless its
     * cost would take the label to INF or beyond.
     */
    ghost predicate Exhausted()
      reads this`vid, this`orig, this`dest, this`residual, this`cost, this`visited, this`pathCost
    {
      && |dest| == |orig| && |residual| == |orig| && |cost| == |orig| && |visited| == |vid| && |pathCost| == |vid|
      && forall e ::
        (0 <= e < |orig| && 0 <= orig[e] < |vid| && 0 <= dest[e] < |vid| && visited[orig[e]] &&
         residual[e] > 0 && pathCost[orig[e]] + cost[e] < INF) ==> visited[dest[e]]
    }

    /** The label of a reached vertex is the total cost of its tree path. */
    lemma {:induction false} PathCostSums(src: int, v: int)
      requires Valid() && Sized() && Tree(src) && Priced(src)
      requires 0 <= v < |vid| && visited[v]
      ensures pathCost[v] == CostAlong(cost, PathArcs(src, v))
      decreases rank[v]
    {
      if v != src {
        var e := path[v];
        var u := orig[e];
        PathCostSums(src, u);
        var rest := PathArcs(src, u);
        assert PathArcs(src, v) == [e] + rest;
        CostAlongCons(cost, e, rest);
        assert pathCost[v] == pathCost[u] + cost[e];
      }
    }

    /** `setPathCost(c)` and `setPath(e)` on vertex w. */
    method Label(w: int, c: int, e: int)
      requires 0 <= w < |pathCost| && 0 <= w < |path|
      modifies this`pathCost, this`path
      ensures pathCost == old(pathCost)[w := c] && path == old(path)[w := e]
    {
      SetPathCost(w, c);
      SetPath(w, e);
    }

    /** Every vertex's `adj` lists exactly the arcs out of it. */
    ghost predicate Listing()
      reads this`vid, this`adj, this`orig, this`dest, this`slot
    {
      forall v :: 0 <= v < |vid| ==> Outgoing(|vid|, adj, orig, dest, slot, v)
    }

    /** `setVisited(true)` on vertex v, which the search settles r-th. */
    method Settle(v: int, ghost r: nat)
      requires 0 <= v < |visited| && 0 <= v < |rank|
      modifies this`visited, this`rank
      ensures visited == old(visited)[v := true] && rank == old(rank)[v := r]
    {
      SetVisited(v, true);
      rank := rank[v := r];
    }

    /** The reset loop of `findMinCostAugmentingPath`: no label, no path arc, nothing settled. */
    method ClearLabels()
      requires Sized()
      modifies this`pathCost, this`path, this`visited
      ensures Sized()
      ensures forall w :: 0 <= w < |vid| ==> pathCost[w] == INF && path[w] == NoArc && !visited[w]
    {
      var i := 0;
      while i < |vid|
        invariant 0 <= i <= |vid| && Sized()
        invariant forall w :: 0 <= w < i ==> pathCost[w] == INF && path[w] == NoArc && !visited[w]
      {
        SetPathCost(i, INF);
        SetPath(i, NoArc);
        SetVisited(i, false);
        i := i + 1;
      }
    }

    /**
     * Vertex w := `dest[e]`, not settled yet, takes the lower label c := v's label plus e's
     * cost and e as its path arc, and is queued if it had no label or moved up the queue.
     */
    method Improve(src: int, v: int, e: int, q: PriorityQueue, ghost next: nat)
      requires Sized() && q.HeapFor(pathCost)
      requires Settling(src, orig, dest, residual, cost, visited, pathCost, path, rank, next, q.Contents(), v)
      requires 0 <= v < |vid| && visited[v] && visited[src]
      requires 0 <= e < |orig| && orig[e] == v && 0 <= dest[e] < |vid|
      requires !visited[dest[e]] && residual[e] > 0 && pathCost[v] + cost[e] < pathCost[dest[e]]
      modifies this`pathCost, this`path, q
      ensures Sized() && q.HeapFor(pathCost)
      ensures Settling(src, orig, dest, residual, cost, visited, pathCost, path, rank, next, q.Contents(), v)
      ensures pathCost == old(pathCost)[dest[e] := old(pathCost[v]) + cost[e]]
    {
      var w := dest[e];
      var oldCost := pathCost[w];
      var newCost := pathCost[v] + cost[e];
      ghost var queued := q.Contents();
      SettleImproves(src, orig, dest, residual, cost, visited, pathCost, path, rank, next, queued, v, e);
      ghost var before, queued' := pathCost, if oldCost == INF then queued + multiset{w} else queued;
      Label(w, newCost, e);
      if oldCost == INF {
        q.Rekeyed(before, w, newCost);
        q.Insert(w, pathCost);
      } else {
        q.DecreaseKey(w, pathCost, before);
      }
      assert q.Contents() == queued';
    }

    /**
     * One pass of the inner loop of `findMinCostAugmentingPath`, over e, the j-th arc out of the
     * settled vertex v: when its head w is not settled, e has residual left and v's label plus
     * e's cost beats w's label, `Improve`. Only w's label can change, and only downward; the
     * first j + 1 arcs out of v are then relaxed.
     */
    method Relax(src: int, v: int, j: int, q: PriorityQueue, ghost next: nat)
      requires Outgoing(|vid|, adj, orig, dest, slot, v) && 0 <= j < |adj[v]|
      requires Scanning(src, v, j, q, next)
      requires visited[v] && visited[src]
      modifies this`pathCost, this`path, q
      ensures Scanning(src, v, j + 1, q, next)
      ensures forall u :: 0 <= u < |vid| ==> pathCost[u] <= old(pathCost[u])
      ensures forall u :: 0 <= u < |vid| && (u != dest[adj[v][j]] || visited[u]) ==> pathCost[u] == old(pathCost[u])
    {
      var e := adj[v][j];
      var w := dest[e];
      var r := residual[e];
      if !visited[w] && r > 0 {
        var oldCost := pathCost[w];
        var newCost := pathCost[v] + cost[e];
        if newCost < oldCost {
          Improve(src, v, e, q, next);
        }
      }
      ScanStep(adj[v], j, orig, dest, residual, cost, visited, old(pathCost), pathCost, rank, v);
    }

    /** While v is scanned: the search's rules hold with v busy and the first j arcs out of v are relaxed. */
    ghost predicate Scanning(src: int, v: int, j: int, q: PriorityQueue, next: nat)
      reads this`vid, this`adj, this`orig, this`dest, this`residual, this`cost, this`visited, this`pathCost
      reads this`path, this`rank, q
    {
      && Sized() && q.HeapFor(pathCost) && 0 <= v < |adj| && 0 <= j <= |adj[v]|
      && Settling(src, orig, dest, residual, cost, visited, pathCost, path, rank, next, q.Contents(), v)
      && Scanned(adj[v][..j], orig, dest, residual, cost, visited, pathCost, rank, v)
    }

    /** The inner loop of `findMinCostAugmentingPath`: relax every arc out of the settled vertex v. */
    method ScanCheaper(src: int, v: int, q: PriorityQueue, ghost next: nat)
      requires Outgoing(|vid|, adj, orig, dest, slot, v) && Sized() && q.HeapFor(pathCost)
      requires Settling(src, orig, dest, residual, cost, visited, pathCost, path, rank, next, q.Contents(), v)
      requires visited[v] && visited[src]
      modifies this`pathCost, this`path, q
      ensures Sized() && q.HeapFor(pathCost)
      ensures Settling(src, orig, dest, residual, cost, visited, pathCost, path, rank, next, q.Contents(), NoArc)
    {
      var j := 0;
      assert Scanning(src, v, j, q, next);
      while j < |adj[v]|
        invariant 0 <= j <= |adj[v]| && Scanning(src, v, j, q, next)
      {
        Relax(src, v, j, q, next);
        j := j + 1;
      }
      ScanFinishes(src, v, j, q, next);
    }

    /** Once every arc out of v is relaxed, v is no longer busy. */
    lemma ScanFinishes(src: int, v: int, j: int, q: PriorityQueue, next: nat)
      requires Outgoing(|vid|, adj, orig, dest, slot, v) && Scanning(src, v, j, q, next) && j == |adj[v]|
      ensures Sized() && q.HeapFor(pathCost)
      ensures Settling(src, orig, dest, residual, cost, visited, pathCost, path, rank, next, q.Contents(), NoArc)
    {
      assert adj[v][..j] == adj[v];
      SettleFinishes(src, orig, dest, residual, cost, visited, pathCost, path, rank, next, q.Contents(), adj, slot, v, adj[v]);
    }

    /**
     * One round of `findMinCostAugmentingPath`: settle the queued vertex with the least label
     * and relax every arc out of it.
     */
    method SettleNext(src: int, q: PriorityQueue, ghost next: nat) returns (ghost next': nat)
      requires Sized() && q.HeapFor(pathCost) && q.Contents() != multiset{}
      requires Listing()
      requires Settling(src, orig, dest, residual, cost, visited, pathCost, path, rank, next, q.Contents(), NoArc)
      modifies this`visited, this`path, this`pathCost, this`rank, q
      ensures Sized() && q.HeapFor(pathCost)
      ensures Settling(src, orig, dest, residual, cost, visited, pathCost, path, rank, next', q.Contents(), NoArc)
      ensures Unreached(visited) < old(Unreached(visited))
    {
      var v := PopNext(src, q, next);
      next' := next + 1;
      assert Outgoing(|vid|, adj, orig, dest, slot, v);
      ScanCheaper(src, v, q, next');
    }

    /** Take the vertex with the least label out of the queue and settle it (`setVisited(true)`). */
    method PopNext(src: int, q: PriorityQueue, ghost next: nat) returns (v: int)
      requires Sized() && q.HeapFor(pathCost) && q.Contents() != multiset{}
      requires Settling(src, orig, dest, residual, cost, visited, pathCost, path, rank, next, q.Contents(), NoArc)
      modifies this`visited, this`rank, q
      ensures Sized() && q.HeapFor(pathCost) && 0 <= v < |vid| && visited[v] && visited[src]
      ensures Settling(src, orig, dest, residual, cost, visited, pathCost, path, rank, next + 1, q.Contents(), v)
      ensures Unreached(visited) < old(Unreached(visited))
    {
      ghost var queued := q.Contents();
      ghost var vis, rk := visited, rank;
      v := q.ExtractMin(pathCost);
      Settle(v, next);
      SettlePops(src, orig, dest, residual, cost, vis, pathCost, path, rk, next, queued, v, visited, rank, q.Contents());
    }

    /**
     * The start of `findMinCostAugmentingPath`: clear every label, label src with 0 and
     * queue it in a new queue.
     */
    method StartSettling(src: int) returns (q: PriorityQueue)
      requires Sized() && |dest| == |orig| && |cost| == |orig| && 0 <= src < |vid|
      modifies this`visited, this`path, this`pathCost
      ensures fresh(q) && Sized() && q.HeapFor(pathCost)
      ensures Settling(src, orig, dest, residual, cost, visited, pathCost, path, rank, 0, q.Contents(), NoArc)
    {
      ClearLabels();
      SettleStarts(src, orig, dest, residual, cost, visited, pathCost, path, rank);
      SetPathCost(src, 0);
      q := new PriorityQueue();
      q.Insert(src, pathCost);
    }

    /**
     * With no negative cost, every label is the least cost of a walk from src over arcs with
     * residual left: a walk costing less than INF ends at a settled vertex whose label is at
     * most the walk's cost.
     */
    ghost predicate Cheapest(src: int)
      reads this`vid, this`orig, this`dest, this`residual, this`cost, this`visited, this`pathCost
    {
      forall w, arcs :: 0 <= w < |vid| && ResidualWalk(src, w, orig, dest, residual, arcs) ==>
        (forall i :: 0 <= i < |arcs| ==> 0 <= arcs[i] < |cost|) &&
        (CostAlong(cost, arcs) < INF ==> w < |visited| && w < |pathCost| && visited[w] && pathCost[w] <= CostAlong(cost, arcs))
    }

    /** What the cheapest-first search leaves once its queue is empty. */
    lemma Settled(src: int, next: nat)
      requires Valid() && Sized()
      requires Settling(src, orig, dest, residual, cost, visited, pathCost, path, rank, next, multiset{}, NoArc)
      ensures Tree(src) && Carries(src) && Priced(src)
      ensures forall w :: 0 <= w < |vid| ==> (visited[w] <==> pathCost[w] < INF)
      ensures Exhausted()
      ensures NonNegativeSeq(cost) ==> Cheapest(src)
    {
      SettleEnds(src, orig, dest, residual, cost, visited, pathCost, path, rank, next);
      forall w, arcs | 0 <= w < |vid| && ResidualWalk(src, w, orig, dest, residual, arcs)
        ensures forall i :: 0 <= i < |arcs| ==> 0 <= arcs[i] < |cost|
      {
        WalkArcs(src, w, orig, dest, residual, arcs);
      }
      if NonNegativeSeq(cost) {
        forall w, arcs | 0 <= w < |vid| && ResidualWalk(src, w, orig, dest, residual, arcs) && CostAlong(cost, arcs) < INF
          ensures visited[w] && pathCost[w] <= CostAlong(cost, arcs)
        {
          LeastCost(src, w, orig, dest, residual, cost, visited, pathCost, arcs);
        }
      }
    }

    /**
     * `findMinCostAugmentingPath`: a cheapest-first search from src over arcs with residual
     * left, settling the queued vertex with the least label each round. It reports whether dst
     * was settled; the settled vertices are exactly the labelled ones and form a predecessor
     * tree of arcs with residual left, each label being its tree predecessor's plus the arc's
     * cost; and no arc with residual left leaves them unless its cost would take a label to INF.
     */
    method FindMinCostAugmentingPath(src: int, dst: int) returns (found: bool)
      requires Valid() && Sized() && 0 <= src < |vid| && 0 <= dst < |vid|
      modifies this`visited, this`path, this`pathCost, this`rank
      ensures Sized()
      ensures found == visited[dst]
      ensures Tree(src) && Carries(src) && Priced(src)
      ensures forall w :: 0 <= w < |vid| ==> (visited[w] <==> pathCost[w] < INF)
      ensures Exhausted()
      ensures NonNegativeSeq(cost) ==> Cheapest(src)
    {
      ArenaOutgoing(|vid|, adj, orig, dest, reverse, slot);
      var q := StartSettling(src);
      ghost var next := SettleAll(src, q);
      Settled(src, next);
      found := visited[dst];
    }

    /** The main loop of `findMinCostAugmentingPath`: settle queued vertices until none is left. */
    method SettleAll(src: int, q: PriorityQueue) returns (ghost next: nat)
      requires Sized() && Listing() && q.HeapFor(pathCost)
      requires Settling(src, orig, dest, residual, cost, visited, pathCost, path, rank, 0, q.Contents(), NoArc)
      modifies this`visited, this`path, this`pathCost, this`rank, q
      ensures Sized()
      ensures Settling(src, orig, dest, residual, cost, visited, pathCost, path, rank, next, multiset{}, NoArc)
    {
      next := 0;
      var empty := q.Empty();
      while !empty
        invariant Sized() && q.HeapFor(pathCost) && (empty <==> q.Contents() == multiset{})
        invariant Settling(src, orig, dest, residual, cost, visited, pathCost, path, rank, next, q.Contents(), NoArc)
        decreases Unreached(visited)
      {
        next := SettleNext(src, q, next);
        empty := q.Empty();
      }
    }

    /** The cheapest-first tree's path to dst is a route whose arcs cost dst's label in all. */
    lemma CheapestRoute(src: int, dst: int)
      requires Valid() && Sized() && Tree(src) && Priced(src)
      requires 0 <= dst < |vid| && visited[dst] && dst != src
      ensures Route(src, dst, orig, dest, PathArcs(src, dst))
      ensures pathCost[dst] == CostAlong(cost, PathArcs(src, dst))
    {
      PathArcsDistinct(src, dst);
      PathCostSums(src, dst);
    }

    /** Every arc of the tree path to a reached vertex has residual left. */
    lemma TreeArcsOpen(src: int, dst: int)
      requires Valid() && Sized() && Tree(src) && Carries(src) && 0 <= dst < |vid| && visited[dst]
      ensures forall k :: 0 <= k < |PathArcs(src, dst)| ==> residual[PathArcs(src, dst)[k]] > 0
    {
      var route := PathArcs(src, dst);
      forall k | 0 <= k < |route| ensures residual[route[k]] > 0 {
        assert path[dest[route[k]]] == route[k];
      }
    }

    /**
     * What one round of `minCost` records before it pushes, on snapshots of the arc tables:
     * the tree path to dst, a route whose every arc has residual left, and dst's label, its
     * cost; with no negative cost, no walk to dst over arcs with residual left is cheaper.
     */
    lemma CheapestRound(src: int, dst: int, o: seq<int>, d: seq<int>, c: seq<int>,
                        before: seq<int>, route: seq<int>, price: int)
      requires Valid() && Sized() && Tree(src) && Priced(src) && Carries(src)
      requires NonNegativeSeq(cost) ==> Cheapest(src)
      requires 0 <= dst < |vid| && visited[dst] && dst != src
      requires o == orig && d == dest && c == cost && before == residual
      requires route == PathArcs(src, dst) && price == pathCost[dst]
      ensures RoundOf(src, dst, o, d, c, before, route, price)
    {
      if NonNegativeSeq(cost) {
        assert LeastPrice(src, dst, orig, dest, residual, cost, pathCost[dst]);
      }
      CheapestRoute(src, dst);
      TreeArcsOpen(src, dst);
    }

    /**
     * The body of the loop of `minCost` once the target was settled: push the bottleneck of
     * the tree path and return the target's label, the cost of that route, as one round on
     * the residuals before the push.
     */
    method PushCheapest(src: int, dst: int, ghost o: seq<int>, ghost d: seq<int>, ghost c: seq<int>)
      returns (price: int, ghost before: seq<int>, ghost route: seq<int>)
      requires Valid() && Sized() && Paired() && Balanced() && Tree(src) && Carries(src) && Priced(src)
      requires NonNegativeSeq(cost) ==> Cheapest(src)
      requires 0 <= dst < |vid| && visited[dst] && dst != src
      requires o == orig && d == dest && c == cost
      modifies this`residual
      ensures Sized() && Balanced()
      ensures before == old(residual) && RoundOf(src, dst, o, d, c, before, route, price)
      ensures OutResidual(residual, orig, src) < old(OutResidual(residual, orig, src))
      ensures NonNegativeSeq(old(residual)) ==> NonNegativeSeq(residual)
    {
      before, route, price := residual, PathArcs(src, dst), pathCost[dst];
      CheapestRound(src, dst, o, d, c, before, route, price);
      var f := AugmentTreePath(src, dst);
    }

    /** What the loop of `minCost` keeps: the residuals stay level, and non-negative when they started so. */
    ghost predicate Rounding(start: seq<int>)
      reads this`vid, this`station, this`adj, this`incoming, this`orig, this`dest,
            this`capacity, this`cost, this`reverse, this`slot, this`visited, this`pathCost, this`path,
            this`rank, this`residual
    {
      Sized() && Balanced() && (NonNegativeSeq(start) ==> NonNegativeSeq(residual))
    }

    /**
     * One test of the loop condition of `minCost` and, when the cheapest-first search settles
     * the target, one pass of its body: the round it makes on the residuals it began with, the
     * route pushed along and the label added to the total. When the target is not settled,
     * the residuals are left as they were and the target is out of reach.
     */
    method CostRound(src: int, dst: int, ghost start: seq<int>, ghost o: seq<int>, ghost d: seq<int>, ghost c: seq<int>,
                     total: int, ghost starts: seq<seq<int>>, ghost routes: seq<seq<int>>, ghost prices: seq<int>)
      returns (found: bool, price: int, ghost before: seq<int>, ghost route: seq<int>,
               total': int, ghost starts': seq<seq<int>>, ghost routes': seq<seq<int>>, ghost prices': seq<int>)
      requires Valid() && Paired() && 0 <= src < |vid| && 0 <= dst < |vid| && dst != src && Rounding(start)
      requires o == orig && d == dest && c == cost
      requires Tally(src, dst, o, d, c, start, total, starts, routes, prices) && (starts == [] ==> residual == start)
      modifies this`residual, this`visited, this`path, this`pathCost, this`rank
      ensures Rounding(start) && Tally(src, dst, o, d, c, start, total', starts', routes', prices')
      ensures found ==> before == old(residual) && RoundOf(src, dst, o, d, c, before, route, price)
      ensures found ==> total' == total + price && starts' == starts + [before] && routes' == routes + [route]
      ensures found ==> OutResidual(residual, orig, src) < old(OutResidual(residual, orig, src))
      ensures !found ==> residual == old(residual) && Stuck(src, dst)
      ensures !found ==> total' == total && starts' == starts && routes' == routes && prices' == prices
    {
      price, before, route := 0, [], [];
      total', starts', routes', prices' := total, starts, routes, prices;
      found := FindMinCostAugmentingPath(src, dst);
      if found {
        price, before, route := PushCheapest(src, dst, o, d, c);
        TallyExtends(src, dst, o, d, c, start, total, starts, routes, prices, before, route, price);
        total', starts', routes', prices' := total + price, starts + [before], routes + [route], prices + [price];
      }
    }

    /**
     * The loop of `minCost`: while the cheapest-first search settles dst, push along the tree
     * path and add dst's label. The total is the sum of the rounds' prices, the first round
     * on the residuals the loop began with, `start`.
     */
    method CheapestRounds(src: int, dst: int, ghost start: seq<int>, ghost o: seq<int>, ghost d: seq<int>, ghost c: seq<int>)
      returns (total: int, ghost starts: seq<seq<int>>, ghost routes: seq<seq<int>>, ghost prices: seq<int>)
      requires Valid() && Sized() && Paired() && Balanced() && 0 <= src < |vid| && 0 <= dst < |vid| && src != dst
      requires start == residual && o == orig && d == dest && c == cost
      modifies this`residual, this`visited, this`path, this`pathCost, this`rank
      ensures Rounding(start) && Stuck(src, dst)
      ensures Tally(src, dst, o, d, c, start, total, starts, routes, prices)
    {
      total, starts, routes, prices := 0, [], [], [];
      while true
        invariant Rounding(start) && Tally(src, dst, o, d, c, start, total, starts, routes, prices)
        invariant starts == [] ==> residual == start
        decreases OutResidual(residual, orig, src)
      {
        var found, price;
        ghost var before, route;
        found, price, before, route, total, starts, routes, prices :=
          CostRound(src, dst, start, o, d, c, total, starts, routes, prices);
        if !found {
          break;
        }
      }
    }

    /**
     * `minCost(source, target)`: successive cheapest paths. With source == target it returns 0
     * and touches nothing. Otherwise it resets every residual to the capacity and, while the
     * cheapest-first search settles the target, pushes the bottleneck of the tree path and adds
     * the target's label, once per round and not scaled by the amount pushed. The result is the
     * sum of one price per round: the cost of a route open at that round's start and, when no
     * arc cost is negative, the least cost of any residual walk to the target. The residuals
     * stay level and non-negative as in `maxFlow`, and at the end the target is not reachable
     * over arcs with residual left (short of labels reaching INF).
     */
    method MinCost(source: int, target: int)
      returns (total: int, ghost starts: seq<seq<int>>, ghost routes: seq<seq<int>>, ghost prices: seq<int>)
      requires Valid() && Sized() && Paired() && 0 <= source < |vid| && 0 <= target < |vid|
      modifies this`residual, this`visited, this`path, this`pathCost, this`rank
      ensures Sized()
      ensures source == target ==> total == 0 && routes == [] && residual == old(residual)
      ensures total == Sum(prices) && Rounds(source, target, orig, dest, cost, starts, routes, prices)
      ensures source != target && starts != [] ==> starts[0] == capacity
      ensures source != target ==>
        && Balanced() && (NonNegativeSeq(capacity) ==> NonNegativeSeq(residual))
        && Tree(source) && !visited[target]
        && Exhausted()
    {
      if source == target {
        return 0, [], [], [];
      }
      LevelAtCapacity(orig, dest, capacity, reverse);
      ResetResiduals();
      total, starts, routes, prices := CheapestRounds(source, target, residual, orig, dest, cost);
    }

    /** The first loop of `maxConnectedDistrict` and `maxConnectedMunicipality`: unmark every vertex. */
    method UnmarkAll()
      requires |visited| == |vid|
      modifies this`visited
      ensures |visited| == |vid| && forall u :: 0 <= u < |vid| ==> !visited[u]
    {
      var i := 0;
      while i < |vid|
        invariant 0 <= i <= |vid| && |visited| == |vid|
        invariant forall u :: 0 <= u < i ==> !visited[u]
      {
        SetVisited(i, false);
        i := i + 1;
      }
    }

    /**
     * `dfsConnectedDistrict` and `dfsConnectedMunicipality`: mark v, append its id to comp,
     * and recurse into the head of every arc out of v that is unmarked and whose station lies
     * in the area. What it appends are the ids of the vertices it marked, v first, each
     * entered from an earlier one, and every arc into the area out of them ends marked.
     */
    method DfsConnected(v: int, comp: seq<int>, area: Area, name: string)
      returns (comp': seq<int>, ghost added: seq<int>, ghost via: seq<int>)
      requires Listing() && |visited| == |vid| && |station| == |vid| && 0 <= v < |vid|
      modifies this`visited
      ensures |visited| == |vid|
      ensures Searched(adj, orig, dest, station, area, name, old(visited), visited, added, via) && added[0] == v
      ensures comp' == comp + Ids(vid, added)
      decreases Unreached(visited) + (if visited[v] then 1 else 0), 1
    {
      ghost var before := visited;
      assert Outgoing(|vid|, adj, orig, dest, slot, v);
      if !before[v] {
        ReachingCounts(before, v);
      } else {
        assert before[v := true] == before;
      }
      assert Unreached(before[v := true]) < Unreached(before) + (if before[v] then 1 else 0);
      VisitStarts(adj, orig, dest, station, area, name, before, v);
      SetVisited(v, true);
      comp', added, via := DfsArcs(v, before, comp, comp + [vid[v]], area, name);
    }

    /**
     * The loop of `dfsConnectedDistrict` and `dfsConnectedMunicipality` over the arcs out of
     * v, once v is marked: each arc into an unmarked vertex of the area starts a search there.
     */
    method DfsArcs(v: int, ghost before: seq<bool>, ghost base: seq<int>, comp: seq<int>, area: Area, name: string)
      returns (comp': seq<int>, ghost added: seq<int>, ghost via: seq<int>)
      requires Listing() && |visited| == |vid| && |station| == |vid| && 0 <= v < |vid| && |before| == |vid|
      requires visited == before[v := true] && comp == base + [vid[v]]
      requires Visit(adj, orig, dest, station, area, name, before, visited, [v], [NoArc], 0)
      modifies this`visited
      ensures |visited| == |vid|
      ensures Searched(adj, orig, dest, station, area, name, before, visited, added, via) && added[0] == v
      ensures comp' == base + Ids(vid, added)
      decreases Unreached(before[v := true]) + 1, 0
    {
      ghost var bound := Unreached(before[v := true]);
      assert Outgoing(|vid|, adj, orig, dest, slot, v);
      comp', added, via := comp, [v], [NoArc];
      var i := 0;
      while i < |adj[v]|
        invariant 0 <= i <= |adj[v]| && |visited| == |vid|
        invariant Visit(adj, orig, dest, station, area, name, before, visited, added, via, i) && added[0] == v
        invariant comp' == base + Ids(vid, added)
      {
        var e := adj[v][i];
        var w := dest[e];
        if !visited[w] && AreaOf(station[w], area) == name {
          GrownUnreached(before[v := true], visited);
          assert Unreached(visited) <= bound;
          ghost var mid := visited;
          var grown, more, via' := DfsConnected(w, comp', area, name);
          VisitJoins(adj, orig, dest, station, area, name, before, mid, visited, added, via, i, more, via');
          IdsExtend(vid, base, comp', grown, added, more);
          comp', added, via := grown, added + more, via + [e] + via'[1..];
        } else {
          VisitSkips(adj, orig, dest, station, area, name, before, visited, added, via, i);
        }
        i := i + 1;
      }
    }

    /**
     * The body of the second loop of `maxConnectedDistrict` and `maxConnectedMunicipality`
     * for an unmarked vertex v of the area: a search from v collects one more component, of
     * `size` vertices, and nothing marked before is unmarked.
     */
    method Collect(v: int, area: Area, name: string, ghost comps: seq<seq<int>>, ghost vias: seq<seq<int>>,
                   ghost owner: seq<int>)
      returns (size: nat, ghost comps': seq<seq<int>>, ghost vias': seq<seq<int>>, ghost owner': seq<int>)
      requires Listing() && |visited| == |vid| && 0 <= v < |vid| && !visited[v]
      requires InArea(station, area, name, v)
      requires Partition(adj, orig, dest, station, area, name, visited, comps, vias, owner)
      modifies this`visited
      ensures |visited| == |vid| && Grown(old(visited), visited) && visited[v]
      ensures Partition(adj, orig, dest, station, area, name, visited, comps', vias', owner')
      ensures |comps'| == |comps| + 1 && comps'[..|comps|] == comps && |comps'[|comps|]| == size
    {
      ghost var before := visited;
      var components, added, via := DfsConnected(v, [], area, name);
      size := |components|;
      PartitionGrows(adj, orig, dest, station, area, name, before, visited, comps, vias, owner, added, via);
      ghost var n := |vid|;
      owner' := seq(n, u requires 0 <= u < n => if u in added then |comps| else owner[u]);
      comps', vias' := comps + [added], vias + [via];
      assert added[0] in added;
    }

    /**
     * `maxConnectedDistrict` and `maxConnectedMunicipality`: unmark every vertex, search from
     * each vertex still unmarked whose station lies in the area, and keep the largest number
     * of vertices one search collected. The searches split the vertices of the area into
     * components (`owner` names each vertex's), and the result is the size of the largest.
     */
    method MaxConnected(area: Area, name: string)
      returns (maxSize: nat, ghost comps: seq<seq<int>>, ghost vias: seq<seq<int>>, ghost owner: seq<int>)
      requires Valid() && |visited| == |vid|
      modifies this`visited
      ensures Partition(adj, orig, dest, station, area, name, visited, comps, vias, owner)
      ensures forall u :: 0 <= u < |vid| ==> (InArea(station, area, name, u) <==> owner[u] >= 0)
      ensures maxSize == Largest(comps)
    {
      ArenaOutgoing(|vid|, adj, orig, dest, reverse, slot);
      UnmarkAll();
      PartitionStarts(adj, orig, dest, station, area, name, visited);
      maxSize, comps, vias, owner := 0, [], [], seq(|vid|, _ => -1);
      var v := 0;
      while v < |vid|
        invariant 0 <= v <= |vid| && |visited| == |vid| && Listing()
        invariant Partition(adj, orig, dest, station, area, name, visited, comps, vias, owner)
        invariant forall u :: 0 <= u < v && InArea(station, area, name, u) ==> visited[u]
        invariant maxSize == Largest(comps)
      {
        if !visited[v] && AreaOf(station[v], area) == name {
          var size;
          size, comps, vias, owner := Collect(v, area, name, comps, vias, owner);
          if size > maxSize {
            maxSize := size;
          }
        }
        v := v + 1;
      }
      forall u | 0 <= u < |vid| && owner[u] >= 0 ensures InArea(station, area, name, u) {
        var k :| 0 <= k < |comps[owner[u]]| && comps[owner[u]][k] == u;
      }
    }
  }
}
