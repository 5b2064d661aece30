/**
 * What the breadth-first search of code/Graph.cpp (`findAugmentingPath`) keeps true, stated
 * on the vertex and arc tables as plain values, with one lemma per step of the search.
 */
module Searches {
  import opened Stations
  import opened Residuals
  import opened Arenas

  /** The name of the synthetic vertex the breadth-first search never enters. */
  const SuperSource: string := "Super-Source"

  /**
   * A predecessor forest rooted at src over the reached vertices: every reached vertex w other
   * than src was entered through `path[w]`, an arc into w from a vertex reached earlier.
   */
  ghost predicate Forest(src: int, orig: seq<int>, dest: seq<int>, visited: seq<bool>, path: seq<int>, rank: seq<nat>) {
    && |path| == |visited| && |rank| == |visited| && |dest| == |orig|
    && 0 <= src < |visited| && visited[src]
    && forall w {:trigger path[w]} :: 0 <= w < |visited| && visited[w] && w != src ==>
         && 0 <= path[w] < |orig| && dest[path[w]] == w && 0 <= orig[path[w]] < |visited|
         && visited[orig[path[w]]] && rank[orig[path[w]]] < rank[w]
  }

  /**
   * The breadth-first search's entry rule held for every tree arc: it had residual left and
   * its head is not the super source.
   */
  ghost predicate Crossed(src: int, residual: seq<int>, station: seq<Station>, visited: seq<bool>, path: seq<int>) {
    && |path| == |visited| && |station| == |visited|
    && forall w {:trigger path[w]} :: 0 <= w < |visited| && visited[w] && w != src ==>
         0 <= path[w] < |residual| && residual[path[w]] > 0 && station[w].name != SuperSource
  }

  /** Arc e has residual left and its head is not the super source: the search may cross it. */
  ghost predicate Open(dest: seq<int>, residual: seq<int>, station: seq<Station>, e: int)
    requires 0 <= e < |dest| && e < |residual| && 0 <= dest[e] < |station|
  {
    residual[e] > 0 && station[dest[e]].name != SuperSource
  }

  /**
   * Every arc the search may cross out of a reached vertex that is neither waiting in `queue`
   * nor `busy` (being scanned) ends at a reached vertex.
   */
  ghost predicate ClosedBut(orig: seq<int>, dest: seq<int>, residual: seq<int>, station: seq<Station>,
                            visited: seq<bool>, queue: seq<int>, busy: int) {
    && |dest| == |orig| && |residual| == |orig| && |station| == |visited|
    && forall e :: 0 <= e < |orig| && 0 <= orig[e] < |visited| && 0 <= dest[e] < |visited|
         && visited[orig[e]] && orig[e] !in queue && orig[e] != busy && Open(dest, residual, station, e)
         ==> visited[dest[e]]
  }

  /** How many vertices the search has not reached yet. */
  function Unreached(visited: seq<bool>): (n: nat)
    ensures n <= |visited|
  {
    if visited == [] then 0
    else Unreached(visited[..|visited| - 1]) + (if visited[|visited| - 1] then 0 else 1)
  }

  /** Reaching one more vertex leaves one fewer unreached. */
  lemma {:induction false} ReachingCounts(visited: seq<bool>, w: int)
    requires 0 <= w < |visited| && !visited[w]
    ensures Unreached(visited[w := true]) == Unreached(visited) - 1
    decreases |visited|
  {
    var n := |visited| - 1;
    if w < n {
      assert visited[w := true][..n] == visited[..n][w := true];
      ReachingCounts(visited[..n], w);
    } else {
      assert visited[w := true][..n] == visited[..n];
    }
  }

  /**
   * The queue bookkeeping of the breadth-first search, with `rank` as the depth in the search
   * tree: the queue holds distinct reached vertices in non-decreasing depth, none shallower than
   * `level`, the depth of the vertex taken last; no reached vertex is deeper than `level + 1`;
   * and the busy vertex, if any, is a reached vertex of depth `level`.
   */
  ghost predicate Frontier(visited: seq<bool>, rank: seq<nat>, queue: seq<int>, busy: int, level: nat) {
    && |rank| == |visited|
    && (forall k :: 0 <= k < |queue| ==> 0 <= queue[k] < |visited| && visited[queue[k]] && level <= rank[queue[k]])
    && (forall k, l :: 0 <= k < l < |queue| ==> queue[k] != queue[l] && rank[queue[k]] <= rank[queue[l]])
    && (forall w :: 0 <= w < |visited| && visited[w] ==> rank[w] <= level + 1)
    && (busy != NoArc ==> 0 <= busy < |visited| && visited[busy] && rank[busy] == level)
  }

  /** Depth in the tree: src has depth 0 and every other reached vertex one more than its predecessor. */
  ghost predicate Layers(src: int, orig: seq<int>, visited: seq<bool>, path: seq<int>, rank: seq<nat>) {
    && |path| == |visited| && |rank| == |visited| && 0 <= src < |visited| && rank[src] == 0
    && forall w {:trigger path[w]} :: 0 <= w < |visited| && visited[w] && w != src ==>
         0 <= path[w] < |orig| && 0 <= orig[path[w]] < |visited| && rank[w] == rank[orig[path[w]]] + 1
  }

  /**
   * An arc the search may cross out of a vertex whose arcs have all been followed leads at
   * most one level deeper.
   */
  ghost predicate Graded(orig: seq<int>, dest: seq<int>, residual: seq<int>, station: seq<Station>,
                         visited: seq<bool>, rank: seq<nat>, queue: seq<int>, busy: int) {
    && |dest| == |orig| && |residual| == |orig| && |station| == |visited| && |rank| == |visited|
    && forall e :: 0 <= e < |orig| && 0 <= orig[e] < |visited| && 0 <= dest[e] < |visited|
         && visited[orig[e]] && orig[e] !in queue && orig[e] != busy && Open(dest, residual, station, e)
         ==> rank[dest[e]] <= rank[orig[e]] + 1
  }

  /** Everything the breadth-first search keeps true between two steps. */
  ghost predicate Searching(src: int, orig: seq<int>, dest: seq<int>, residual: seq<int>, station: seq<Station>,
                            visited: seq<bool>, path: seq<int>, rank: seq<nat>,
                            queue: seq<int>, busy: int, level: nat) {
    && Forest(src, orig, dest, visited, path, rank) && Crossed(src, residual, station, visited, path)
    && Layers(src, orig, visited, path, rank)
    && ClosedBut(orig, dest, residual, station, visited, queue, busy)
    && Graded(orig, dest, residual, station, visited, rank, queue, busy)
    && Frontier(visited, rank, queue, busy, level)
  }

  /** The search starts with only src reached, at depth 0, and queued. */
  lemma SearchStarts(src: int, orig: seq<int>, dest: seq<int>, residual: seq<int>, station: seq<Station>,
                     visited: seq<bool>, path: seq<int>, rank: seq<nat>)
    requires |path| == |visited| && |rank| == |visited| && |station| == |visited|
    requires |dest| == |orig| && |residual| == |orig| && 0 <= src < |visited|
    requires forall w :: 0 <= w < |visited| ==> (visited[w] <==> w == src)
    ensures Searching(src, orig, dest, residual, station, visited, path, rank[src := 0], [src], NoArc, 0)
  {
  }

  /** Taking the head of the queue makes it the busy vertex, and its depth the level. */
  lemma SearchPops(src: int, orig: seq<int>, dest: seq<int>, residual: seq<int>, station: seq<Station>,
                   visited: seq<bool>, path: seq<int>, rank: seq<nat>, queue: seq<int>, level: nat)
    requires Searching(src, orig, dest, residual, station, visited, path, rank, queue, NoArc, level)
    requires queue != []
    ensures 0 <= queue[0] < |visited| && visited[queue[0]] && queue[0] !in queue[1..]
    ensures Searching(src, orig, dest, residual, station, visited, path, rank, queue[1..], queue[0], rank[queue[0]])
  {
    var v := queue[0];
    forall k | 0 <= k < |queue| - 1 ensures queue[1..][k] != v && rank[v] <= rank[queue[1..][k]] {
      assert queue[1..][k] == queue[k + 1];
    }
  }

  /** Once every arc the search may cross out of the busy vertex has been followed, it is done. */
  lemma SearchFinishes(src: int, orig: seq<int>, dest: seq<int>, residual: seq<int>, station: seq<Station>,
                       visited: seq<bool>, path: seq<int>, rank: seq<nat>, queue: seq<int>, v: int,
                       level: nat)
    requires Searching(src, orig, dest, residual, station, visited, path, rank, queue, v, level)
    requires forall e :: 0 <= e < |orig| && orig[e] == v && 0 <= dest[e] < |visited| && Open(dest, residual, station, e) ==>
               visited[dest[e]]
    ensures Searching(src, orig, dest, residual, station, visited, path, rank, queue, NoArc, level)
  {
  }

  /**
   * Reaching w through an arc e out of the busy vertex that the search may cross keeps every
   * rule of the search; w gets depth `level + 1` and joins the back of the queue.
   */
  lemma SearchVisits(src: int, orig: seq<int>, dest: seq<int>, residual: seq<int>, station: seq<Station>,
                     visited: seq<bool>, path: seq<int>, rank: seq<nat>, queue: seq<int>, busy: int,
                     level: nat, e: int)
    requires Searching(src, orig, dest, residual, station, visited, path, rank, queue, busy, level)
    requires 0 <= e < |orig| && orig[e] == busy && busy != NoArc && 0 <= dest[e] < |visited|
    requires !visited[dest[e]] && Open(dest, residual, station, e)
    ensures var w := dest[e];
      && Searching(src, orig, dest, residual, station, visited[w := true], path[w := e], rank[w := level + 1],
                   queue + [w], busy, level)
      && Unreached(visited[w := true]) == Unreached(visited) - 1
  {
    var w := dest[e];
    var visited', path', rank' := visited[w := true], path[w := e], rank[w := level + 1];
    forall u {:trigger path'[u]} | 0 <= u < |visited'| && visited'[u] && u != src
      ensures 0 <= path'[u] < |orig| && dest[path'[u]] == u && 0 <= orig[path'[u]] < |visited'|
      ensures visited'[orig[path'[u]]] && rank'[orig[path'[u]]] < rank'[u]
      ensures rank'[u] == rank'[orig[path'[u]]] + 1
      ensures residual[path'[u]] > 0 && station[u].name != SuperSource
    {
      if u != w {
        assert path'[u] == path[u] && visited[u];
      } else {
        assert residual[e] > 0 && station[w].name != SuperSource;
      }
    }
    assert Forest(src, orig, dest, visited', path', rank');
    assert Crossed(src, residual, station, visited', path');
    assert Layers(src, orig, visited', path', rank');
    var queue' := queue + [w];
    forall k | 0 <= k < |queue'| ensures 0 <= queue'[k] < |visited'| && visited'[queue'[k]] && level <= rank'[queue'[k]] {
      if k < |queue| {
        assert queue'[k] == queue[k];
      }
    }
    forall k, l | 0 <= k < l < |queue'| ensures queue'[k] != queue'[l] && rank'[queue'[k]] <= rank'[queue'[l]] {
      if l < |queue| {
        assert queue'[k] == queue[k] && queue'[l] == queue[l];
      } else {
        assert queue'[k] == queue[k];
      }
    }
    assert Frontier(visited', rank', queue', busy, level);
    ReachingCounts(visited, w);
  }

  /**
   * `arcs` is a walk from src to w over arcs the search may cross, listed from the arc into w
   * back to the arc out of src.
   */
  ghost predicate Crossing(src: int, w: int, orig: seq<int>, dest: seq<int>, residual: seq<int>,
                           station: seq<Station>, arcs: seq<int>)
    decreases |arcs|
  {
    if arcs == [] then w == src
    else
      && |dest| == |orig| && |residual| == |orig| && 0 <= arcs[0] < |orig| && 0 <= dest[arcs[0]] < |station|
      && dest[arcs[0]] == w && Open(dest, residual, station, arcs[0])
      && Crossing(src, orig[arcs[0]], orig, dest, residual, station, arcs[1..])
  }

  /** The end of a crossable walk no longer than the level is reached, at depth at most its length. */
  lemma {:induction false} WithinLevel(src: int, w: int, orig: seq<int>, dest: seq<int>, residual: seq<int>,
                                       station: seq<Station>, visited: seq<bool>, path: seq<int>, rank: seq<nat>,
                                       queue: seq<int>, level: nat, arcs: seq<int>)
    requires Searching(src, orig, dest, residual, station, visited, path, rank, queue, NoArc, level)
    requires Crossing(src, w, orig, dest, residual, station, arcs) && |arcs| <= level
    ensures 0 <= w < |visited| && visited[w] && rank[w] <= |arcs|
    decreases |arcs|
  {
    if arcs != [] {
      var e := arcs[0];
      var u := orig[e];
      WithinLevel(src, u, orig, dest, residual, station, visited, path, rank, queue, level, arcs[1..]);
      assert rank[u] < level;
      assert u !in queue;
    }
  }

  /** No crossable walk to a reached vertex is shorter than its depth. */
  lemma Nearest(src: int, w: int, orig: seq<int>, dest: seq<int>, residual: seq<int>,
                station: seq<Station>, visited: seq<bool>, path: seq<int>, rank: seq<nat>,
                queue: seq<int>, level: nat, arcs: seq<int>)
    requires Searching(src, orig, dest, residual, station, visited, path, rank, queue, NoArc, level)
    requires Crossing(src, w, orig, dest, residual, station, arcs) && 0 <= w < |visited| && visited[w]
    ensures rank[w] <= |arcs|
  {
    if |arcs| <= level {
      WithinLevel(src, w, orig, dest, residual, station, visited, path, rank, queue, level, arcs);
    }
  }

  /**
   * `arcs` is the walk `findMinResidualAlongPath` and `augmentFlowAlongPath` take: starting at
   * dst, each step follows the current vertex's `path` arc back to its origin, until src.
   */
  ghost predicate Backtrack(src: int, dst: int, nv: int, orig: seq<int>, dest: seq<int>, reverse: seq<int>,
                            path: seq<int>, arcs: seq<int>) {
    && |dest| == |orig| && |reverse| == |orig| && |path| == nv && 0 <= dst < nv
    && (arcs == [] <==> dst == src)
    && (forall i :: 0 <= i < |arcs| ==>
          && 0 <= arcs[i] < |orig| && 0 <= reverse[arcs[i]] < |orig|
          && 0 <= orig[arcs[i]] < nv && 0 <= dest[arcs[i]] < nv
          && dest[arcs[i]] != src && path[dest[arcs[i]]] == arcs[i])
    && (arcs != [] ==> dest[arcs[0]] == dst && orig[arcs[|arcs| - 1]] == src)
    && (forall i, j {:trigger arcs[i], arcs[j]} :: 0 <= i && j == i + 1 < |arcs| ==> orig[arcs[i]] == dest[arcs[j]])
  }

  /** No entry is negative. */
  ghost predicate NonNegativeSeq(t: seq<int>) {
    forall e :: 0 <= e < |t| ==> t[e] >= 0
  }

  /** Every arc and its reverse hold twice the arc's capacity between them: a flow with no leak. */
  ghost predicate Level(res: seq<int>, reverse: seq<int>, capacity: seq<int>) {
    && |reverse| == |res| && |capacity| == |res|
    && forall e {:trigger reverse[e]} :: 0 <= e < |res| ==>
         0 <= reverse[e] < |res| && res[e] + res[reverse[e]] == 2 * capacity[e]
  }

  /** Residuals reset to the capacities are level, since an arc and its reverse share a capacity. */
  lemma LevelAtCapacity(orig: seq<int>, dest: seq<int>, capacity: seq<int>, reverse: seq<int>)
    requires Antiparallel(orig, dest, capacity, reverse)
    ensures Level(capacity, reverse, capacity)
  {
    forall e | 0 <= e < |capacity| ensures 0 <= reverse[e] < |capacity| && capacity[reverse[e]] == capacity[e] {
      assert 0 <= reverse[e] < |orig|;
    }
  }

  /**
   * One round of the augmenting loops of `maxFlow` and `minCost`, pushing f > 0 along the walk
   * from dst back to src when every walked arc can carry f: the out-residual of src drops by
   * exactly f, every arc keeps the sum of its residual and its reverse's, and no residual
   * becomes negative.
   */
  lemma AugmentRound(src: int, dst: int, nv: int, orig: seq<int>, dest: seq<int>, capacity: seq<int>,
                     reverse: seq<int>, path: seq<int>, res: seq<int>, arcs: seq<int>, f: int, r: seq<int>)
    requires Backtrack(src, dst, nv, orig, dest, reverse, path, arcs) && dst != src
    requires Antiparallel(orig, dest, capacity, reverse) && |res| == |orig| && Distinct(arcs)
    requires 0 < f && forall i :: 0 <= i < |arcs| ==> f <= res[arcs[i]]
    requires Within(res, reverse, arcs) && r == Augmented(res, reverse, arcs, |arcs|, f)
    ensures OutResidual(r, orig, src) == OutResidual(res, orig, src) - f
    ensures Level(res, reverse, capacity) ==> Level(r, reverse, capacity)
    ensures NonNegativeSeq(res) ==> NonNegativeSeq(r)
  {
    var n := |arcs| - 1;
    forall i | 0 <= i < |arcs| ensures orig[reverse[arcs[i]]] != src {
      assert orig[reverse[arcs[i]]] == dest[arcs[i]];
    }
    forall i | 0 <= i < n ensures orig[arcs[i]] != src {
      assert orig[arcs[i]] == dest[arcs[i + 1]];
    }
    Drains(res, reverse, orig, src, arcs, f);
    Conserves(res, reverse, arcs, |arcs|, f);
    if forall e :: 0 <= e < |res| ==> res[e] >= 0 {
      Bounds(res, reverse, arcs, |arcs|, f);
    }
  }
}
