/**
 * The arc table the graph builders of code/Supervisor.cpp leave behind, as values: the pair of
 * antiparallel arcs each `addEdge` appends, the arcs of the kept rows, and the spokes that join
 * a super vertex to the stations it serves.
 */
module ArcTables {
  import opened Wrappers
  import opened VertexEdge
  import opened Failures
  import opened Graphs
  import opened Numbering

  /** The arc table of a graph, as values. */
  datatype Arcs = Arcs(orig: seq<int>, dest: seq<int>, capacity: seq<int>, cost: seq<int>, reverse: seq<int>)

  function Table(g: Graph): Arcs
    reads g`orig, g`dest, g`capacity, g`cost, g`reverse
  {
    Arcs(g.orig, g.dest, g.capacity, g.cost, g.reverse)
  }

  /** What `addEdge(s, d, ...)` appends: arc s -> d and its reverse, each the other's reverse. */
  function Append(t: Arcs, s: int, d: int, capacity: int, cost: int): Arcs {
    var e := |t.orig|;
    Arcs(t.orig + [s] + [d], t.dest + [d] + [s], t.capacity + [capacity] + [capacity],
         t.cost + [cost] + [cost], t.reverse + [e + 1] + [e])
  }

  /** Equal-length columns: one entry per arc in each. */
  ghost predicate Shaped(t: Arcs) {
    |t.dest| == |t.orig| && |t.capacity| == |t.orig| && |t.cost| == |t.orig| && |t.reverse| == |t.orig|
  }

  /** t' keeps every arc of t as it was, and may have more. */
  ghost predicate Prefix(t: Arcs, t': Arcs) {
    && Shaped(t) && Shaped(t') && |t.orig| <= |t'.orig|
    && forall e :: 0 <= e < |t.orig| ==>
         && t'.orig[e] == t.orig[e] && t'.dest[e] == t.dest[e] && t'.capacity[e] == t.capacity[e]
         && t'.cost[e] == t.cost[e] && t'.reverse[e] == t.reverse[e]
  }

  /**
   * Arcs e and e + 1 are s -> d and d -> s, each the other's reverse, with the same capacity
   * and cost: what one `addEdge(s, d, ...)` made.
   */
  ghost predicate ArcPair(t: Arcs, e: int, s: int, d: int, capacity: int, cost: int) {
    && Shaped(t) && 0 <= e && e + 1 < |t.orig|
    && t.orig[e] == s && t.dest[e] == d && t.orig[e + 1] == d && t.dest[e + 1] == s
    && t.capacity[e] == capacity && t.capacity[e + 1] == capacity && t.cost[e] == cost && t.cost[e + 1] == cost
    && t.reverse[e] == e + 1 && t.reverse[e + 1] == e
  }

  lemma AppendGrows(t: Arcs, s: int, d: int, capacity: int, cost: int)
    requires Shaped(t)
    ensures var t' := Append(t, s, d, capacity, cost);
      Prefix(t, t') && |t'.orig| == |t.orig| + 2 && ArcPair(t', |t.orig|, s, d, capacity, cost)
  {
  }

  lemma PairKept(t: Arcs, t': Arcs, e: int, s: int, d: int, capacity: int, cost: int)
    requires Prefix(t, t') && ArcPair(t, e, s, d, capacity, cost)
    ensures ArcPair(t', e, s, d, capacity, cost)
  {
  }

  lemma PrefixTrans(t: Arcs, t': Arcs, t'': Arcs)
    requires Prefix(t, t') && Prefix(t', t'')
    ensures Prefix(t, t'')
  {
  }

  /**
   * The arcs the row loop adds for rows: row k became arcs 2k and 2k + 1, from the source's
   * id to the target's and back, each with half the row's capacity and the cost of its service.
   */
  ghost predicate Carries(t: Arcs, ids: map<string, int>, rows: seq<Segment>, unsetCost: int) {
    && Shaped(t) && 2 * |rows| <= |t.orig|
    && forall k :: 0 <= k < |rows| ==>
         && rows[k].source in ids && rows[k].target in ids
         && ArcPair(t, 2 * k, ids[rows[k].source], ids[rows[k].target], HalfCapacity(rows[k].capacity), Tariff(rows[k].service).GetOr(unsetCost))
  }

  /**
   * One more `addEdge` for one more row keeps the table carrying the rows, under an id map
   * that only gave ids to new names.
   */
  lemma CarriesAppend(t: Arcs, ids: map<string, int>, ids': map<string, int>, rows: seq<Segment>, row: Segment, unsetCost: int)
    requires Carries(t, ids, rows, unsetCost) && |t.orig| == 2 * |rows| && Extends(ids, ids')
    requires row.source in ids' && row.target in ids'
    ensures var t' := Append(t, ids'[row.source], ids'[row.target], HalfCapacity(row.capacity), Tariff(row.service).GetOr(unsetCost));
      Carries(t', ids', rows + [row], unsetCost) && |t'.orig| == 2 * |rows + [row]|
  {
    var t' := Append(t, ids'[row.source], ids'[row.target], HalfCapacity(row.capacity), Tariff(row.service).GetOr(unsetCost));
    var rows' := rows + [row];
    AppendGrows(t, ids'[row.source], ids'[row.target], HalfCapacity(row.capacity), Tariff(row.service).GetOr(unsetCost));
    forall k | 0 <= k < |rows'|
      ensures rows'[k].source in ids' && rows'[k].target in ids'
      ensures ArcPair(t', 2 * k, ids'[rows'[k].source], ids'[rows'[k].target], HalfCapacity(rows'[k].capacity), Tariff(rows'[k].service).GetOr(unsetCost))
    {
      if k < |rows| {
        assert rows'[k] == rows[k];
        PairKept(t, t', 2 * k, ids[rows[k].source], ids[rows[k].target], HalfCapacity(rows[k].capacity), Tariff(rows[k].service).GetOr(unsetCost));
      }
    }
  }

  /** Arcs added after the rows' arcs leave those arcs in place. */
  lemma CarriesKept(t: Arcs, t': Arcs, ids: map<string, int>, rows: seq<Segment>, unsetCost: int)
    requires Carries(t, ids, rows, unsetCost) && Prefix(t, t')
    ensures Carries(t', ids, rows, unsetCost)
  {
    forall k | 0 <= k < |rows|
      ensures ArcPair(t', 2 * k, ids[rows[k].source], ids[rows[k].target], HalfCapacity(rows[k].capacity), Tariff(rows[k].service).GetOr(unsetCost))
    {
      PairKept(t, t', 2 * k, ids[rows[k].source], ids[rows[k].target], HalfCapacity(rows[k].capacity), Tariff(rows[k].service).GetOr(unsetCost));
    }
  }

  /**
   * From arc m on, the k-th end is joined to the hub by arcs m + 2k and m + 2k + 1, the first
   * leaving the hub (outward, a super source) or entering it (inward, a super sink), both of
   * capacity INF / 2: what `addEdge(hub, i, INF, "")` or `addEdge(i, hub, INF, "")` made.
   */
  ghost predicate Wired(t: Arcs, m: int, hub: int, ends: seq<int>, outward: bool, unsetCost: int) {
    && Shaped(t) && 0 <= m && m + 2 * |ends| <= |t.orig|
    && forall k :: 0 <= k < |ends| ==>
         if outward then ArcPair(t, m + 2 * k, hub, ends[k], HalfCapacity(INF), Tariff("").GetOr(unsetCost))
         else ArcPair(t, m + 2 * k, ends[k], hub, HalfCapacity(INF), Tariff("").GetOr(unsetCost))
  }

  /** Wiring one more end appends its two arcs after the others. */
  lemma WiredAppend(t: Arcs, m: int, hub: int, ends: seq<int>, end: int, outward: bool, unsetCost: int)
    requires Wired(t, m, hub, ends, outward, unsetCost) && |t.orig| == m + 2 * |ends|
    ensures var s, d := if outward then hub else end, if outward then end else hub;
      var t' := Append(t, s, d, HalfCapacity(INF), Tariff("").GetOr(unsetCost));
      Prefix(t, t') && Wired(t', m, hub, ends + [end], outward, unsetCost) && |t'.orig| == m + 2 * |ends + [end]|
  {
    var s, d := if outward then hub else end, if outward then end else hub;
    var cost := Tariff("").GetOr(unsetCost);
    var t' := Append(t, s, d, HalfCapacity(INF), cost);
    var ends' := ends + [end];
    AppendGrows(t, s, d, HalfCapacity(INF), cost);
    forall k | 0 <= k < |ends'|
      ensures if outward then ArcPair(t', m + 2 * k, hub, ends'[k], HalfCapacity(INF), cost)
        else ArcPair(t', m + 2 * k, ends'[k], hub, HalfCapacity(INF), cost)
    {
      if k < |ends| {
        assert ends'[k] == ends[k];
        if outward {
          PairKept(t, t', m + 2 * k, hub, ends[k], HalfCapacity(INF), cost);
        } else {
          PairKept(t, t', m + 2 * k, ends[k], hub, HalfCapacity(INF), cost);
        }
      }
    }
  }

  /** Arcs added after the spokes leave the spokes in place. */
  lemma WiredKept(t: Arcs, t': Arcs, m: int, hub: int, ends: seq<int>, outward: bool, unsetCost: int)
    requires Wired(t, m, hub, ends, outward, unsetCost) && Prefix(t, t')
    ensures Wired(t', m, hub, ends, outward, unsetCost)
  {
    var cost := Tariff("").GetOr(unsetCost);
    forall k | 0 <= k < |ends|
      ensures if outward then ArcPair(t', m + 2 * k, hub, ends[k], HalfCapacity(INF), cost)
        else ArcPair(t', m + 2 * k, ends[k], hub, HalfCapacity(INF), cost)
    {
      if outward {
        PairKept(t, t', m + 2 * k, hub, ends[k], HalfCapacity(INF), cost);
      } else {
        PairKept(t, t', m + 2 * k, ends[k], hub, HalfCapacity(INF), cost);
      }
    }
  }
}
