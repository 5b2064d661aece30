/**
 * The arc tables of the residual graph as plain values (code/Graph.cpp, code/VertexEdge.cpp):
 * which arcs join which vertices, where each arc is listed, and how arcs pair with their
 * reverse arcs.
 */
module Arenas {
  import opened Residuals

  /** `nullptr` where an arc is expected (`Vertex::path`, `Edge::reverse`). */
  const NoArc: int := -1

  /**
   * The shape of the arc tables over nv vertices: arcs join existing vertices, every arc is
   * listed in its origin's `adj` (at position `slot`), `adj[v]` lists only arcs out of v, each
   * once (the entry at position i is the arc whose slot is i), and `reverse` names an arc or is
   * `nullptr`.
   */
  ghost predicate Arena(nv: int, adj: seq<seq<int>>, orig: seq<int>, dest: seq<int>, reverse: seq<int>, slot: seq<int>) {
    && |adj| == nv && |dest| == |orig| && |reverse| == |orig| && |slot| == |orig|
    && (forall e :: 0 <= e < |orig| ==>
          && 0 <= orig[e] < nv && 0 <= dest[e] < nv && NoArc <= reverse[e] < |orig|
          && 0 <= slot[e] < |adj[orig[e]]| && adj[orig[e]][slot[e]] == e)
    && (forall v, i :: 0 <= v < nv && 0 <= i < |adj[v]| ==>
          0 <= adj[v][i] < |orig| && orig[adj[v][i]] == v && slot[adj[v][i]] == i)
  }

  /** The arcs out of v. */
  ghost function ArcsOut(orig: seq<int>, v: int): set<int> {
    set e | 0 <= e < |orig| && orig[e] == v
  }

  /** The arcs the first k entries of a list name. */
  ghost function Listed(arcs: seq<int>, k: nat): set<int>
    requires k <= |arcs|
  {
    set i | 0 <= i < k :: arcs[i]
  }

  /** A list whose entry at position i always has slot i names as many arcs as it has entries. */
  lemma {:induction false} ListedCount(arcs: seq<int>, slot: seq<int>, k: nat)
    requires k <= |arcs|
    requires forall i :: 0 <= i < |arcs| ==> 0 <= arcs[i] < |slot| && slot[arcs[i]] == i
    ensures |Listed(arcs, k)| == k
  {
    if k > 0 {
      ListedCount(arcs, slot, k - 1);
      assert Listed(arcs, k) == Listed(arcs, k - 1) + {arcs[k - 1]};
      assert arcs[k - 1] !in Listed(arcs, k - 1) by {
        forall i | 0 <= i < k - 1 ensures arcs[i] != arcs[k - 1] {
          assert slot[arcs[i]] == i && slot[arcs[k - 1]] == k - 1;
        }
      }
    }
  }

  /**
   * In an arena, `adj[v].size()` is the number of arcs out of v: the list names every one of
   * them and none twice.
   */
  lemma AdjCounts(nv: int, adj: seq<seq<int>>, orig: seq<int>, dest: seq<int>, reverse: seq<int>, slot: seq<int>, v: int)
    requires Arena(nv, adj, orig, dest, reverse, slot) && 0 <= v < nv
    ensures |adj[v]| == |ArcsOut(orig, v)|
  {
    ListedCount(adj[v], slot, |adj[v]|);
    assert Listed(adj[v], |adj[v]|) == ArcsOut(orig, v) by {
      forall e | e in ArcsOut(orig, v) ensures e in Listed(adj[v], |adj[v]|) {
        assert adj[v][slot[e]] == e;
      }
    }
  }

  /** `adj[v]` lists exactly the arcs out of v, and their heads are vertices. */
  ghost predicate Outgoing(nv: int, adj: seq<seq<int>>, orig: seq<int>, dest: seq<int>, slot: seq<int>, v: int) {
    && |adj| == nv && 0 <= v < nv && |dest| == |orig| && |slot| == |orig|
    && (forall i :: 0 <= i < |adj[v]| ==> 0 <= adj[v][i] < |orig| && orig[adj[v][i]] == v && 0 <= dest[adj[v][i]] < nv)
    && (forall e :: 0 <= e < |orig| && orig[e] == v ==> 0 <= slot[e] < |adj[v]| && adj[v][slot[e]] == e)
  }

  /** In an arena, the `adj` list of every vertex lists exactly the arcs out of it. */
  lemma ArenaOutgoing(nv: int, adj: seq<seq<int>>, orig: seq<int>, dest: seq<int>, reverse: seq<int>, slot: seq<int>)
    requires Arena(nv, adj, orig, dest, reverse, slot)
    ensures forall v :: 0 <= v < nv ==> Outgoing(nv, adj, orig, dest, slot, v)
  {
  }

  /** The empty tables form an arena whose arcs are all paired. */
  lemma EmptyArena()
    ensures Arena(0, [], [], [], [], []) && Antiparallel([], [], [], [])
  {
  }

  /** A new vertex without arcs keeps the arena's shape. */
  lemma ArenaAddsVertex(nv: int, adj: seq<seq<int>>, orig: seq<int>, dest: seq<int>, reverse: seq<int>, slot: seq<int>)
    requires Arena(nv, adj, orig, dest, reverse, slot)
    ensures Arena(nv + 1, adj + [[]], orig, dest, reverse, slot)
  {
    var adj' := adj + [[]];
    assert forall v :: 0 <= v < nv ==> adj'[v] == adj[v];
  }

  /** A new arc u -> d, appended to u's `adj` and without a reverse, keeps the arena's shape. */
  lemma ArenaAddsArc(nv: int, adj: seq<seq<int>>, orig: seq<int>, dest: seq<int>, reverse: seq<int>, slot: seq<int>, u: int, d: int)
    requires Arena(nv, adj, orig, dest, reverse, slot) && 0 <= u < nv && 0 <= d < nv
    ensures Arena(nv, adj[u := adj[u] + [|orig|]], orig + [u], dest + [d], reverse + [NoArc], slot + [|adj[u]|])
  {
    var e := |orig|;
    var adj', orig', slot' := adj[u := adj[u] + [e]], orig + [u], slot + [|adj[u]|];
    assert forall a :: 0 <= a < e ==> orig'[a] == orig[a] && slot'[a] == slot[a];
    assert forall v, i :: 0 <= v < nv && 0 <= i < |adj[v]| ==> adj'[v][i] == adj[v][i];
    assert adj'[u][|adj[u]|] == e && slot'[e] == |adj[u]|;
  }

  /** Naming an existing arc as some arc's reverse keeps the arena's shape. */
  lemma ArenaSetsReverse(nv: int, adj: seq<seq<int>>, orig: seq<int>, dest: seq<int>, reverse: seq<int>, slot: seq<int>, e: int, r: int)
    requires Arena(nv, adj, orig, dest, reverse, slot) && 0 <= e < |orig| && 0 <= r < |orig|
    ensures Arena(nv, adj, orig, dest, reverse[e := r], slot)
  {
  }

  /** Each arc's reverse runs the other way and has the same capacity. */
  ghost predicate Antiparallel(orig: seq<int>, dest: seq<int>, capacity: seq<int>, reverse: seq<int>) {
    && |reverse| == |orig| && |dest| == |orig| && |capacity| == |orig|
    && Pairing(reverse)
    && forall e {:trigger reverse[e]} :: 0 <= e < |orig| ==>
         orig[reverse[e]] == dest[e] && dest[reverse[e]] == orig[e] && capacity[reverse[e]] == capacity[e]
  }

  /** Two new arcs s -> t and t -> s of equal capacity, each the other's reverse, keep the pairing. */
  lemma AntiparallelAddsPair(orig: seq<int>, dest: seq<int>, capacity: seq<int>, reverse: seq<int>, s: int, t: int, c: int)
    requires Antiparallel(orig, dest, capacity, reverse)
    ensures var n := |orig|;
      Antiparallel(orig + [s] + [t], dest + [t] + [s], capacity + [c] + [c], reverse + [n + 1] + [n])
  {
    var n := |orig|;
    var orig', dest', capacity', reverse' := orig + [s] + [t], dest + [t] + [s], capacity + [c] + [c], reverse + [n + 1] + [n];
    forall e | 0 <= e < n
      ensures reverse'[e] == reverse[e] && orig'[e] == orig[e] && dest'[e] == dest[e] && capacity'[e] == capacity[e]
      ensures orig'[reverse'[e]] == orig[reverse[e]] && dest'[reverse'[e]] == dest[reverse[e]]
      ensures capacity'[reverse'[e]] == capacity[reverse[e]]
    {
    }
    forall e, f | 0 <= e < |reverse'| && 0 <= f < |reverse'| && reverse'[e] == f
      ensures reverse'[f] == e
    {
      if e < n && f < n {
        assert reverse[e] == f;
      }
    }
  }
}
