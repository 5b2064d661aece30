/**
 * The graph builders of code/Supervisor.cpp: `makeVertex` numbers stations densely in the
 * order the network rows first name them, the row loop of `createGraph` and of the three
 * `createSubgraph`s keeps the rows a failure test lets through, and the super-source and
 * super-sink wiring of `createSuperGraph` and `createSuperSourceGraph` joins a new vertex to
 * the chosen stations with arcs of capacity INF.
 */
module Supervisors {
  import opened Wrappers
  import opened Stations
  import opened VertexEdge
  import opened Arenas
  import opened Failures
  import opened Graphs
  import opened Numbering
  import opened ArcTables
  import opened Hubs

  /** An empty graph; the builders replace it before it is used. */
  method Blank(unsetCost: int, unsetResidual: int) returns (g: Graph)
    ensures fresh(g)
  {
    g := new Graph(unsetCost, unsetResidual);
  }

  /** A graph built by the row loop: the kept rows, numbered by `makeVertex`, joined by `addEdge`. */
  ghost predicate Loaded(stations: StationH, g: Graph, ids: map<string, int>, id: int, kept: seq<Segment>)
    reads g
  {
    Formed(g) && Holds(stations, g, ids, id, kept)
  }

  /** The arena invariants `addVertex` and `addEdge` keep. */
  ghost predicate Formed(g: Graph)
    reads g
  {
    g.Valid() && g.Sized() && g.Paired()
  }

  /** The vertices are the kept rows' names, numbered in order, and the arcs are the kept rows. */
  ghost predicate Holds(stations: StationH, g: Graph, ids: map<string, int>, id: int, kept: seq<Segment>)
    reads g
  {
    && Numbered(stations, g.vid, g.station, ids, Order(kept)) && id == |g.vid|
    && Carries(Table(g), ids, kept, g.unsetCost) && |g.orig| == 2 * |kept|
  }

  /** With no failure the row loop loads every row. */
  lemma LoadedAll(stations: StationH, g: Graph, ids: map<string, int>, net: seq<Segment>)
    requires Known(stations, net, None) && Loaded(stations, g, ids, |g.vid|, Kept(stations, net, None))
    ensures Loaded(stations, g, ids, |g.vid|, net)
  {
    KeptAll(stations, net);
  }

  lemma EmptyLoaded(stations: StationH, g: Graph)
    requires g.Valid() && g.Sized() && g.Paired() && g.vid == [] && g.orig == []
    ensures Loaded(stations, g, map[], 0, [])
  {
  }

  /**
   * `makeVertex(g, ids, name, id)`: a name not yet in ids becomes a vertex with the counter
   * as its id, and the counter moves on by one; a known name only yields its stored id.
   */
  method MakeVertex(stations: StationH, g: Graph, ids: map<string, int>, name: string, id: int, ghost order: seq<string>)
    returns (stationId: int, ids': map<string, int>, id': int, ghost order': seq<string>)
    requires g.Valid() && g.Sized() && Numbered(stations, g.vid, g.station, ids, order) && id == |g.vid|
    requires name in stations
    modifies g`vid, g`station, g`adj, g`incoming, g`visited, g`pathCost, g`path, g`rank
    ensures g.Valid() && g.Sized()
    ensures order' == Appear(order, name) && Numbered(stations, g.vid, g.station, ids', order') && id' == |g.vid|
    ensures Extends(ids, ids') && name in ids' && stationId == ids'[name]
    ensures name in ids ==> stationId == ids[name] && ids' == ids && id' == id
    ensures name in ids ==> unchanged(g`vid, g`station, g`adj, g`incoming, g`visited, g`pathCost, g`path, g`rank)
    ensures name !in ids ==> stationId == id && ids' == ids[name := id] && id' == id + 1
    ensures name !in ids ==> g.vid == old(g.vid) + [id] && g.station == old(g.station) + [stations[name]]
    ensures name !in ids ==> g.adj == old(g.adj) + [[]] && g.incoming == old(g.incoming) + [[]]
    ensures name !in ids ==> g.visited == old(g.visited) + [false] && g.pathCost == old(g.pathCost) + [0]
    ensures name !in ids ==> g.path == old(g.path) + [NoArc] && g.rank == old(g.rank) + [0]
  {
    if name !in ids {
      stationId, id' := id, id + 1;
      NumberedAdds(stations, g.vid, g.station, ids, order, name);
      var v := g.AddVertex(stationId, stations[name]);
      ids' := ids[name := stationId];
      order' := order + [name];
    } else {
      assert order[ids[name]] == name;
      stationId, ids', id', order' := ids[name], ids, id, order;
    }
  }

  /** The two `makeVertex` calls of a kept row: its source, then its target. */
  method MakeEnds(stations: StationH, g: Graph, ids: map<string, int>, id: int, row: Segment, ghost kept: seq<Segment>)
    returns (idA: int, idB: int, ids': map<string, int>, id': int)
    requires g.Valid() && g.Sized() && row.source in stations && row.target in stations
    requires Numbered(stations, g.vid, g.station, ids, Order(kept)) && id == |g.vid|
    modifies g`vid, g`station, g`adj, g`incoming, g`visited, g`pathCost, g`path, g`rank
    ensures g.Valid() && g.Sized()
    ensures Numbered(stations, g.vid, g.station, ids', Order(kept + [row])) && id' == |g.vid|
    ensures Extends(ids, ids') && row.source in ids' && row.target in ids'
    ensures idA == ids'[row.source] && idB == ids'[row.target]
  {
    ghost var o1, o2;
    idA, ids', id', o1 := MakeVertex(stations, g, ids, row.source, id, Order(kept));
    idB, ids', id', o2 := MakeVertex(stations, g, ids', row.target, id', o1);
    assert (kept + [row])[..|kept|] == kept;
  }

  /** The `addEdge` call of a kept row, between the ids its two ends were given. */
  method AddRow(g: Graph, ids: map<string, int>, ids': map<string, int>, row: Segment, ghost kept: seq<Segment>)
    requires g.Valid() && g.Sized() && g.Paired()
    requires Carries(Table(g), ids, kept, g.unsetCost) && |g.orig| == 2 * |kept|
    requires Extends(ids, ids') && row.source in ids' && row.target in ids'
    requires 0 <= ids'[row.source] < |g.vid| && 0 <= ids'[row.target] < |g.vid|
    modifies g`orig, g`dest, g`capacity, g`residual, g`cost, g`reverse, g`adj, g`incoming, g`slot
    ensures g.Valid() && g.Sized() && g.Paired()
    ensures Carries(Table(g), ids', kept + [row], g.unsetCost) && |g.orig| == 2 * |kept + [row]|
    ensures g.vid == old(g.vid) && g.station == old(g.station)
  {
    ghost var t := Table(g);
    CarriesAppend(t, ids, ids', kept, row, g.unsetCost);
    g.AddEdge(ids'[row.source], ids'[row.target], row.capacity, row.service);
    assert Table(g) == Append(t, ids'[row.source], ids'[row.target], HalfCapacity(row.capacity), Tariff(row.service).GetOr(g.unsetCost));
  }

  /** One kept row: `makeVertex` for both ends, then `addEdge` between them. */
  method Keep(stations: StationH, g: Graph, ids: map<string, int>, id: int, row: Segment, ghost kept: seq<Segment>)
    returns (ids': map<string, int>, id': int)
    requires g.Valid() && g.Sized() && g.Paired() && row.source in stations && row.target in stations
    requires Numbered(stations, g.vid, g.station, ids, Order(kept)) && id == |g.vid|
    requires Carries(Table(g), ids, kept, g.unsetCost) && |g.orig| == 2 * |kept|
    modifies g
    ensures g.Valid() && g.Sized() && g.Paired()
    ensures Numbered(stations, g.vid, g.station, ids', Order(kept + [row])) && id' == |g.vid|
    ensures Carries(Table(g), ids', kept + [row], g.unsetCost) && |g.orig| == 2 * |kept + [row]|
  {
    var idA, idB;
    idA, idB, ids', id' := MakeEnds(stations, g, ids, id, row, kept);
    AddRow(g, ids, ids', row, kept);
  }

  /** The row loop after i rows: the graph holds the first i rows' survivors. */
  ghost predicate Progress(stations: StationH, g: Graph, ids: map<string, int>, id: int, net: seq<Segment>, f: Option<Failure>, i: int)
    requires 0 <= i <= |net|
    reads g
  {
    Known(stations, net[..i], f) && Loaded(stations, g, ids, id, Kept(stations, net[..i], f))
  }

  /** The body of a builder's row loop: row i is kept unless the failure test rejects it. */
  method Admit(stations: StationH, g: Graph, ids: map<string, int>, id: int, net: seq<Segment>, f: Option<Failure>, i: int)
    returns (ids': map<string, int>, id': int)
    requires Known(stations, net, f) && 0 <= i < |net| && Progress(stations, g, ids, id, net, f, i)
    modifies g
    ensures Progress(stations, g, ids', id', net, f, i + 1)
  {
    KeptPrefix(stations, net, f, i);
    ghost var kept := Kept(stations, net[..i], f);
    var row := net[i];
    if !Fails(stations, f, row.source, row.target) {
      ids', id' := Keep(stations, g, ids, id, row, kept);
    } else {
      ids', id' := ids, id;
      assert kept + [] == kept;
    }
  }

  /**
   * The row loop shared by `createGraph`, the three `createSubgraph`s, `createSuperGraph`
   * and `createSuperSourceGraph`, on an empty graph: every row the failure test lets through
   * is added with `makeVertex` and `addEdge`.
   */
  method Load(stations: StationH, g: Graph, net: seq<Segment>, f: Option<Failure>) returns (ids: map<string, int>, id: int)
    requires Known(stations, net, f)
    requires Loaded(stations, g, map[], 0, [])
    modifies g
    ensures Loaded(stations, g, ids, id, Kept(stations, net, f))
  {
    ids, id := map[], 0;
    KeptPrefix(stations, net, f, 0);
    for i := 0 to |net|
      invariant Progress(stations, g, ids, id, net, f, i)
    {
      ids, id := Admit(stations, g, ids, id, net, f, i);
    }
    assert net[..|net|] == net;
  }

  /** A new graph holding the rows the failure test lets through, and the names of its vertices. */
  method Build(stations: StationH, net: seq<Segment>, f: Option<Failure>, unsetCost: int, unsetResidual: int)
    returns (g: Graph, ids: map<string, int>)
    requires Known(stations, net, f)
    ensures fresh(g) && g.unsetCost == unsetCost
    ensures Loaded(stations, g, ids, |g.vid|, Kept(stations, net, f))
  {
    g := new Graph(unsetCost, unsetResidual);
    EmptyLoaded(stations, g);
    var id;
    ids, id := Load(stations, g, net, f);
  }

  /** The loop `for (auto v : g.getVertexSet())` collecting the ids of the wanted vertices. */
  method Scan(g: Graph, want: Want) returns (chosen: seq<int>)
    requires |g.station| == |g.vid| && |g.adj| == |g.vid|
    ensures chosen == Chosen(want, g.vid, g.station, g.adj)
  {
    chosen := [];
    for v := 0 to |g.vid|
      invariant chosen == Chosen(want, g.vid[..v], g.station[..v], g.adj[..v])
    {
      assert g.vid[..v + 1][..v] == g.vid[..v] && g.station[..v + 1][..v] == g.station[..v];
      assert g.adj[..v + 1][..v] == g.adj[..v];
      if Wanted(want, g.vid[v], g.station[v], |g.adj[v]|) {
        chosen := chosen + [g.vid[v]];
      }
    }
    assert g.vid[..|g.vid|] == g.vid && g.station[..|g.vid|] == g.station && g.adj[..|g.vid|] == g.adj;
  }

  /** t extends t0 by one `addEdge` per end, in order, joining hub to each of ends. */
  ghost predicate Joins(t0: Arcs, t: Arcs, hub: int, ends: seq<int>, outward: bool, unsetCost: int) {
    && Prefix(t0, t) && |t.orig| == |t0.orig| + 2 * |ends|
    && Wired(t, |t0.orig|, hub, ends, outward, unsetCost)
  }

  /** A well-formed graph whose arcs extend t0 by the wiring of hub to ends. */
  ghost predicate Wiring(g: Graph, t0: Arcs, hub: int, ends: seq<int>, outward: bool)
    reads g
  {
    g.Valid() && g.Sized() && g.Paired() && Joins(t0, Table(g), hub, ends, outward, g.unsetCost)
  }

  /** One `addEdge` of the wiring loop: hub to end, or end to hub, with capacity INF. */
  method WireEnd(g: Graph, hub: int, end: int, outward: bool, ghost t0: Arcs, ghost ends: seq<int>)
    requires Wiring(g, t0, hub, ends, outward) && 0 <= hub < |g.vid| && 0 <= end < |g.vid|
    modifies g`orig, g`dest, g`capacity, g`residual, g`cost, g`reverse, g`adj, g`incoming, g`slot
    ensures Wiring(g, t0, hub, ends + [end], outward) && g.vid == old(g.vid) && g.station == old(g.station)
  {
    ghost var t, c := Table(g), Tariff("").GetOr(g.unsetCost);
    WiredAppend(t, |t0.orig|, hub, ends, end, outward, g.unsetCost);
    if outward {
      g.AddEdge(hub, end, INF, "");
      assert Table(g) == Append(t, hub, end, HalfCapacity(INF), c);
    } else {
      g.AddEdge(end, hub, INF, "");
      assert Table(g) == Append(t, end, hub, HalfCapacity(INF), c);
    }
    PrefixTrans(t0, t, Table(g));
  }

  /** The loop `for (auto i : ends) addEdge(...)` joining hub to every end with an INF arc. */
  method Wire(g: Graph, hub: int, ends: seq<int>, outward: bool)
    requires g.Valid() && g.Sized() && g.Paired() && 0 <= hub < |g.vid|
    requires forall k :: 0 <= k < |ends| ==> 0 <= ends[k] < |g.vid|
    modifies g`orig, g`dest, g`capacity, g`residual, g`cost, g`reverse, g`adj, g`incoming, g`slot
    ensures Wiring(g, old(Table(g)), hub, ends, outward)
    ensures g.vid == old(g.vid) && g.station == old(g.station)
  {
    ghost var t0 := Table(g);
    assert Wiring(g, t0, hub, [], outward);
    for i := 0 to |ends|
      invariant Wiring(g, t0, hub, ends[..i], outward) && g.vid == old(g.vid) && g.station == old(g.station)
    {
      WireEnd(g, hub, ends[i], outward, t0, ends[..i]);
      assert ends[..i] + [ends[i]] == ends[..i + 1];
    }
    assert ends[..|ends|] == ends;
  }

  /** A super vertex: `addVertex(id, Station(name))`, then the wiring loop joining it to ends. */
  method AddHub(g: Graph, id: int, name: string, ends: seq<int>, outward: bool)
    requires g.Valid() && g.Sized() && g.Paired() && id == |g.vid|
    requires forall k :: 0 <= k < |ends| ==> 0 <= ends[k] < id
    modifies g
    ensures g.vid == old(g.vid) + [id] && g.station == old(g.station) + [NamedStation(name)]
    ensures Wiring(g, old(Table(g)), id, ends, outward)
  {
    var v := g.AddVertex(id, NamedStation(name));
    Wire(g, id, ends, outward);
  }

  /** The ids a scan picks are ids of the scanned table, so below any bound on those. */
  lemma ChosenBelow(want: Want, vid: seq<int>, station: seq<Station>, adj: seq<seq<int>>, id: int)
    requires |station| == |vid| && |adj| == |vid|
    requires forall v :: 0 <= v < |vid| ==> 0 <= vid[v] < id
    ensures var c := Chosen(want, vid, station, adj);
      forall k :: 0 <= k < |c| ==> 0 <= c[k] < id
  {
    var c := Chosen(want, vid, station, adj);
    forall k | 0 <= k < |c| ensures 0 <= c[k] < id {
      ChosenIff(want, vid, station, adj, c[k]);
    }
  }

  /** Two wirings in a row: the first one's arcs stay where they were. */
  lemma JoinsTwice(t0: Arcs, t1: Arcs, t: Arcs, hub1: int, ends1: seq<int>, out1: bool,
                   hub2: int, ends2: seq<int>, out2: bool, unsetCost: int)
    requires Joins(t0, t1, hub1, ends1, out1, unsetCost) && Joins(t1, t, hub2, ends2, out2, unsetCost)
    ensures Prefix(t0, t) && |t.orig| == |t0.orig| + 2 * |ends1| + 2 * |ends2|
    ensures Wired(t, |t0.orig|, hub1, ends1, out1, unsetCost)
    ensures Wired(t, |t0.orig| + 2 * |ends1|, hub2, ends2, out2, unsetCost)
  {
    PrefixTrans(t0, t1, t);
    WiredKept(t1, t, |t0.orig|, hub1, ends1, out1, unsetCost);
  }

  /**
   * The vertex table of a super graph: the stations numbered as the row loop numbers them,
   * then one vertex per hub, named in order, with the next ids.
   */
  ghost predicate HubVertices(stations: StationH, net: seq<Segment>, ids: map<string, int>,
                              vid: seq<int>, station: seq<Station>, hubs: seq<string>)
  {
    var n := |Order(net)|;
    && |vid| == n + |hubs| && |station| == n + |hubs|
    && Numbered(stations, vid[..n], station[..n], ids, Order(net))
    && forall j :: 0 <= j < |hubs| ==> vid[n + j] == n + j && station[n + j] == NamedStation(hubs[j])
  }

  /** `addVertex` for one hub after the stations. */
  lemma OneHub(stations: StationH, net: seq<Segment>, ids: map<string, int>,
               vid0: seq<int>, station0: seq<Station>, hub: string)
    requires Numbered(stations, vid0, station0, ids, Order(net))
    ensures HubVertices(stations, net, ids, vid0 + [|vid0|], station0 + [NamedStation(hub)], [hub])
  {
    var vid, station := vid0 + [|vid0|], station0 + [NamedStation(hub)];
    assert vid[..|vid0|] == vid0 && station[..|vid0|] == station0;
  }

  /** `addVertex` for two hubs after the stations. */
  lemma TwoHubs(stations: StationH, net: seq<Segment>, ids: map<string, int>,
                vid0: seq<int>, station0: seq<Station>, hub1: string, hub2: string)
    requires Numbered(stations, vid0, station0, ids, Order(net))
    ensures HubVertices(stations, net, ids, vid0 + [|vid0|] + [|vid0| + 1],
                        station0 + [NamedStation(hub1)] + [NamedStation(hub2)], [hub1, hub2])
  {
    var vid, station := vid0 + [|vid0|] + [|vid0| + 1], station0 + [NamedStation(hub1)] + [NamedStation(hub2)];
    assert vid[..|vid0|] == vid0 && station[..|vid0|] == station0;
  }

  /**
   * The graph `createSuperSourceGraph` builds, as its tables: the rows, numbered as the row
   * loop numbers them, then vertex n "Super-Source" with an INF arc to each of sources, the
   * vertices other than dest that have exactly one outgoing arc in the table as loaded
   * (t0, with adjacency lists adj0 and slots slot0).
   */
  ghost predicate SuperSourceGraph(stations: StationH, net: seq<Segment>, dest: int, unsetCost: int,
                                   vid: seq<int>, station: seq<Station>, t: Arcs, gids: map<string, int>,
                                   ids: map<string, int>, sources: seq<int>, t0: Arcs, adj0: seq<seq<int>>, slot0: seq<int>)
  {
    var n, m := |Order(net)|, 2 * |net|;
    && HubVertices(stations, net, ids, vid, station, ["Super-Source"])
    && gids == ids["Super-Source" := n]
    && Prefix(t0, t) && |t0.orig| == m && Arena(n, adj0, t0.orig, t0.dest, t0.reverse, slot0)
    && sources == Chosen(SourcesBut(dest), vid[..n], station[..n], adj0)
    && (forall v :: 0 <= v < n ==> (v in sources <==> v != dest && |ArcsOut(t0.orig, v)| == 1))
    && dest !in sources
    && |t.orig| == m + 2 * |sources|
    && Carries(t, ids, net, unsetCost)
    && Wired(t, m, n, sources, true, unsetCost)
  }

  /**
   * The graph `createSuperGraph` builds, as its tables: the rows, numbered as the row loop
   * numbers them, then vertex n "Super-Source" with an INF arc to each of sources and vertex
   * n + 1 "Super-Sink" with an INF arc into it from each of sinks.
   */
  ghost predicate SuperGraph(stations: StationH, net: seq<Segment>, unsetCost: int,
                             vid: seq<int>, station: seq<Station>, t: Arcs, gids: map<string, int>,
                             ids: map<string, int>, sources: seq<int>, sinks: seq<int>)
  {
    var n, m := |Order(net)|, 2 * |net|;
    && HubVertices(stations, net, ids, vid, station, ["Super-Source", "Super-Sink"])
    && gids == ids["Super-Source" := n]["Super-Sink" := n + 1]
    && |t.orig| == m + 2 * |sources| + 2 * |sinks|
    && Carries(t, ids, net, unsetCost)
    && Wired(t, m, n, sources, true, unsetCost)
    && Wired(t, m + 2 * |sources|, n + 1, sinks, false, unsetCost)
  }

  /** The rows, then the super source wired after them, then the super sink wired after that. */
  lemma {:induction false} SuperGraphOf(stations: StationH, net: seq<Segment>, unsetCost: int, vid0: seq<int>, station0: seq<Station>,
                     t0: Arcs, t1: Arcs, vid: seq<int>, station: seq<Station>, t: Arcs, gids: map<string, int>,
                     ids: map<string, int>, sources: seq<int>, sinks: seq<int>)
    requires Numbered(stations, vid0, station0, ids, Order(net))
    requires vid == vid0 + [|vid0|] + [|vid0| + 1]
    requires station == station0 + [NamedStation("Super-Source")] + [NamedStation("Super-Sink")]
    requires gids == ids["Super-Source" := |vid0|]["Super-Sink" := |vid0| + 1]
    requires Carries(t0, ids, net, unsetCost) && |t0.orig| == 2 * |net|
    requires Joins(t0, t1, |vid0|, sources, true, unsetCost) && Joins(t1, t, |vid0| + 1, sinks, false, unsetCost)
    ensures SuperGraph(stations, net, unsetCost, vid, station, t, gids, ids, sources, sinks)
  {
    assert |Order(net)| == |vid0|;
    TwoHubs(stations, net, ids, vid0, station0, "Super-Source", "Super-Sink");
    SuperArcs(net, unsetCost, t0, t1, t, ids, |vid0|, sources, sinks);
  }

  /** The arc tables of a super graph: the rows' pairs kept, then the two hubs' wiring. */
  lemma SuperArcs(net: seq<Segment>, unsetCost: int, t0: Arcs, t1: Arcs, t: Arcs, ids: map<string, int>,
                  n: int, sources: seq<int>, sinks: seq<int>)
    requires Carries(t0, ids, net, unsetCost) && |t0.orig| == 2 * |net|
    requires Joins(t0, t1, n, sources, true, unsetCost) && Joins(t1, t, n + 1, sinks, false, unsetCost)
    ensures |t.orig| == 2 * |net| + 2 * |sources| + 2 * |sinks| && Carries(t, ids, net, unsetCost)
    ensures Wired(t, 2 * |net|, n, sources, true, unsetCost)
    ensures Wired(t, 2 * |net| + 2 * |sources|, n + 1, sinks, false, unsetCost)
  {
    JoinsTwice(t0, t1, t, n, sources, true, n + 1, sinks, false, unsetCost);
    CarriesKept(t0, t, ids, net, unsetCost);
  }

  /** The scan of `createSuperSourceGraph` picks vertices of the loaded graph, never dest. */
  lemma ScanBut(vid: seq<int>, station: seq<Station>, adj: seq<seq<int>>, dest: int)
    requires |station| == |vid| && |adj| == |vid| && forall v :: 0 <= v < |vid| ==> vid[v] == v
    ensures var c := Chosen(SourcesBut(dest), vid, station, adj);
      dest !in c && forall k :: 0 <= k < |c| ==> 0 <= c[k] < |vid|
  {
    var c := Chosen(SourcesBut(dest), vid, station, adj);
    ChosenIff(SourcesBut(dest), vid, station, adj, dest);
    forall k | 0 <= k < |c| ensures 0 <= c[k] < |vid| {
      ChosenIff(SourcesBut(dest), vid, station, adj, c[k]);
    }
  }

  /**
   * Over the `adj` lists of an arena whose vertex v has id v, the scan of
   * `createSuperSourceGraph` picks exactly the vertices other than dest with one outgoing arc.
   */
  lemma ScanButCounts(vid: seq<int>, station: seq<Station>, adj: seq<seq<int>>,
                      orig: seq<int>, heads: seq<int>, reverse: seq<int>, slot: seq<int>, dest: int)
    requires |station| == |vid| && Arena(|vid|, adj, orig, heads, reverse, slot)
    requires forall v :: 0 <= v < |vid| ==> vid[v] == v
    ensures forall v :: 0 <= v < |vid| ==>
      (v in Chosen(SourcesBut(dest), vid, station, adj) <==> v != dest && |ArcsOut(orig, v)| == 1)
  {
    forall v | 0 <= v < |vid|
      ensures v in Chosen(SourcesBut(dest), vid, station, adj) <==> v != dest && |ArcsOut(orig, v)| == 1
    {
      ChosenByArcs(SourcesBut(dest), vid, station, adj, orig, heads, reverse, slot, v);
      assert vid[v] == v;
    }
  }

  /**
   * Over the `adj` lists of an arena, the scan of `createSuperSource` picks the ids of exactly
   * the stations that are not targets and have one outgoing arc.
   */
  lemma ScanCounts(targets: StationH, vid: seq<int>, station: seq<Station>, adj: seq<seq<int>>,
                   orig: seq<int>, heads: seq<int>, reverse: seq<int>, slot: seq<int>)
    requires |station| == |vid| && Arena(|vid|, adj, orig, heads, reverse, slot)
    ensures forall x :: x in Chosen(Sources(targets), vid, station, adj) <==>
      exists v :: 0 <= v < |vid| && vid[v] == x && !Contains(targets, station[v].name) && |ArcsOut(orig, v)| == 1
  {
    forall x
      ensures x in Chosen(Sources(targets), vid, station, adj) <==>
        exists v :: 0 <= v < |vid| && vid[v] == x && !Contains(targets, station[v].name) && |ArcsOut(orig, v)| == 1
    {
      ChosenByArcs(Sources(targets), vid, station, adj, orig, heads, reverse, slot, x);
    }
  }

  /** The body of `createSuperSourceGraph`, on a graph of its own. */
  method BuildSuperSourceGraph(stations: StationH, net: seq<Segment>, dest: int, unsetCost: int, unsetResidual: int)
    returns (g: Graph, gids: map<string, int>, ghost ids: map<string, int>, ghost sources: seq<int>,
             ghost t0: Arcs, ghost adj0: seq<seq<int>>, ghost slot0: seq<int>)
    requires Known(stations, net, None)
    ensures fresh(g) && g.Valid() && g.Sized() && g.Paired() && g.unsetCost == unsetCost
    ensures SuperSourceGraph(stations, net, dest, unsetCost, g.vid, g.station, Table(g), gids, ids, sources, t0, adj0, slot0)
  {
    var loaded;
    g, loaded := Build(stations, net, None, unsetCost, unsetResidual);
    LoadedAll(stations, g, loaded, net);
    ids, adj0, slot0 := loaded, g.adj, g.slot;
    ghost var vid0, station0 := g.vid, g.station;
    t0 := Table(g);
    assert Arena(|vid0|, adj0, t0.orig, t0.dest, t0.reverse, slot0);
    var id := |g.vid|;
    var found := Scan(g, SourcesBut(dest));
    sources := found;
    ScanBut(vid0, station0, adj0, dest);
    ScanButCounts(vid0, station0, adj0, t0.orig, t0.dest, t0.reverse, slot0, dest);
    var v := g.AddVertex(id, NamedStation("Super-Source"));
    Wire(g, id, found, true);
    gids := loaded["Super-Source" := id];
    OneHub(stations, net, ids, vid0, station0, "Super-Source");
    CarriesKept(t0, Table(g), ids, net, unsetCost);
    assert g.vid[..id] == vid0 && g.station[..id] == station0;
  }

  /** Numbered vertices are numbered 0 .. n-1 in place. */
  lemma NumberedBelow(stations: StationH, vid: seq<int>, station: seq<Station>, ids: map<string, int>, order: seq<string>)
    requires Numbered(stations, vid, station, ids, order)
    ensures |vid| == |order| && |station| == |vid|
    ensures forall v :: 0 <= v < |vid| ==> 0 <= vid[v] < |vid|
  {
    forall v | 0 <= v < |vid| ensures 0 <= vid[v] < |vid| {
      assert order[v] in ids;
    }
  }

  /**
   * The two hubs of `createSuperGraph`, after the stations of g: the super source wired to
   * what a scan of main picks as sources, then the super sink wired from what it picks as sinks.
   */
  method AddHubs(g: Graph, main: Graph, targets: StationH) returns (ghost t1: Arcs)
    requires g != main && g.Valid() && g.Sized() && g.Paired()
    requires |main.station| == |main.vid| && |main.adj| == |main.vid|
    requires forall v :: 0 <= v < |main.vid| ==> 0 <= main.vid[v] < |g.vid|
    modifies g
    ensures g.Valid() && g.Sized() && g.Paired()
    ensures g.vid == old(g.vid) + [|old(g.vid)|] + [|old(g.vid)| + 1]
    ensures g.station == old(g.station) + [NamedStation("Super-Source")] + [NamedStation("Super-Sink")]
    ensures Joins(old(Table(g)), t1, |old(g.vid)|, Chosen(Sources(targets), main.vid, main.station, main.adj), true, g.unsetCost)
    ensures Joins(t1, Table(g), |old(g.vid)| + 1, Chosen(Sinks(targets), main.vid, main.station, main.adj), false, g.unsetCost)
  {
    var id := |g.vid|;
    var sources := Scan(main, Sources(targets));
    ChosenBelow(Sources(targets), main.vid, main.station, main.adj, id);
    AddHub(g, id, "Super-Source", sources, true);
    t1 := Table(g);
    var sinks := Scan(main, Sinks(targets));
    ChosenBelow(Sinks(targets), main.vid, main.station, main.adj, id + 1);
    AddHub(g, id + 1, "Super-Sink", sinks, false);
  }

  /**
   * The body of `createSuperGraph`, on a graph of its own: the rows, then the super source
   * and the super sink, wired to the vertices a scan of the main graph picks.
   */
  method BuildSuperGraph(stations: StationH, net: seq<Segment>, targets: StationH, main: Graph, unsetCost: int, unsetResidual: int)
    returns (g: Graph, gids: map<string, int>, ghost ids: map<string, int>)
    requires Known(stations, net, None)
    requires |main.vid| == |Order(net)| && |main.station| == |main.vid| && |main.adj| == |main.vid|
    requires forall v :: 0 <= v < |main.vid| ==> 0 <= main.vid[v] < |main.vid|
    ensures fresh(g) && g.Valid() && g.Sized() && g.Paired() && g.unsetCost == unsetCost
    ensures SuperGraph(stations, net, unsetCost, g.vid, g.station, Table(g), gids, ids,
                       Chosen(Sources(targets), main.vid, main.station, main.adj), Chosen(Sinks(targets), main.vid, main.station, main.adj))
  {
    var loaded;
    g, loaded := Build(stations, net, None, unsetCost, unsetResidual);
    LoadedAll(stations, g, loaded, net);
    ids := loaded;
    gids := AddSuperHubs(stations, net, targets, main, g, loaded);
  }

  /** The super source and the super sink joined to a graph that holds every row. */
  method AddSuperHubs(stations: StationH, net: seq<Segment>, targets: StationH, main: Graph, g: Graph, ids: map<string, int>)
    returns (gids: map<string, int>)
    requires g != main && Loaded(stations, g, ids, |g.vid|, net)
    requires |main.station| == |main.vid| && |main.adj| == |main.vid|
    requires forall v :: 0 <= v < |main.vid| ==> 0 <= main.vid[v] < |g.vid|
    modifies g
    ensures g.Valid() && g.Sized() && g.Paired()
    ensures SuperGraph(stations, net, g.unsetCost, g.vid, g.station, Table(g), gids, ids,
                       Chosen(Sources(targets), main.vid, main.station, main.adj), Chosen(Sinks(targets), main.vid, main.station, main.adj))
  {
    var id := |g.vid|;
    ghost var vid0, station0, t0 := g.vid, g.station, Table(g);
    ghost var t1 := AddHubs(g, main, targets);
    gids := ids["Super-Source" := id]["Super-Sink" := id + 1];
    SuperGraphOf(stations, net, g.unsetCost, vid0, station0, t0, t1, g.vid, g.station, Table(g), gids, ids,
                 Chosen(Sources(targets), main.vid, main.station, main.adj), Chosen(Sinks(targets), main.vid, main.station, main.adj));
  }

  class Supervisor {
    /** The stations read from stations.csv, stored under their names. */
    const stations: StationH
    /** The values a new graph's arcs hold in `cost` and `residualCapacity` before anything assigns them. */
    const unsetCost: int
    const unsetResidual: int
    /** The whole network, and the names of its vertices. */
    var graph: Graph
    var idStations: map<string, int>
    /** The network after a failure, and the names of its vertices. */
    var subGraph: Graph
    var subGraphStations: map<string, int>
    /** The network with a super source (and a super sink), and the names of its vertices. */
    var superGraph: Graph
    var superGraphStations: map<string, int>

    /**
     * `Supervisor()`: `createGraph` adds every row of the network to the main graph. The
     * stations and the rows are given (reading stations.csv and network.csv is not modelled).
     */
    constructor (stations: StationH, net: seq<Segment>, unsetCost: int, unsetResidual: int)
      requires Known(stations, net, None)
      ensures this.stations == stations && this.unsetCost == unsetCost && this.unsetResidual == unsetResidual
      ensures fresh(graph) && graph.unsetCost == unsetCost && Loaded(stations, graph, idStations, |graph.vid|, net)
    {
      this.stations, this.unsetCost, this.unsetResidual := stations, unsetCost, unsetResidual;
      var g0 := Blank(unsetCost, unsetResidual);
      var g1 := Blank(unsetCost, unsetResidual);
      var g2 := Blank(unsetCost, unsetResidual);
      graph, subGraph, superGraph := g0, g1, g2;
      idStations, subGraphStations, superGraphStations := map[], map[], map[];
      new;
      var g, ids := Build(stations, net, None, unsetCost, unsetResidual);
      LoadedAll(stations, g, ids, net);
      graph, idStations := g, ids;
    }

    /**
     * `createSubgraph(failedLines)`, `createSubgraph(failedStations)` and
     * `createSubgraph(failedSegments)`: a new graph and id map holding exactly the rows the
     * failure leaves standing, numbered from 0.
     */
    method CreateSubgraph(net: seq<Segment>, f: Failure)
      requires Known(stations, net, Some(f))
      modifies this`subGraph, this`subGraphStations
      ensures fresh(subGraph) && subGraph.unsetCost == unsetCost
      ensures Loaded(stations, subGraph, subGraphStations, |subGraph.vid|, Kept(stations, net, Some(f)))
    {
      var g, ids := Build(stations, net, Some(f), unsetCost, unsetResidual);
      subGraph, subGraphStations := g, ids;
    }

    /**
     * `createSuperSource(id, targetStations)`: vertex id "Super-Source" with an INF arc to
     * every vertex of the main graph that is not a target and has exactly one outgoing arc.
     */
    method CreateSuperSource(id: int, targets: StationH)
      requires superGraph != graph
      requires superGraph.Valid() && superGraph.Sized() && superGraph.Paired() && id == |superGraph.vid|
      requires graph.Valid()
      requires forall v :: 0 <= v < |graph.vid| ==> 0 <= graph.vid[v] < id
      modifies superGraph, this`superGraphStations
      ensures superGraph.vid == old(superGraph.vid) + [id]
      ensures superGraph.station == old(superGraph.station) + [NamedStation("Super-Source")]
      ensures superGraphStations == old(superGraphStations)["Super-Source" := id]
      ensures Wiring(superGraph, old(Table(superGraph)), id, Chosen(Sources(targets), graph.vid, graph.station, graph.adj), true)
      ensures forall x :: x in Chosen(Sources(targets), graph.vid, graph.station, graph.adj) <==>
        exists v :: 0 <= v < |graph.vid| && graph.vid[v] == x &&
          !Contains(targets, graph.station[v].name) && |ArcsOut(graph.orig, v)| == 1
    {
      ScanCounts(targets, graph.vid, graph.station, graph.adj, graph.orig, graph.dest, graph.reverse, graph.slot);
      var sources := Scan(graph, Sources(targets));
      ChosenBelow(Sources(targets), graph.vid, graph.station, graph.adj, id);
      AddHub(superGraph, id, "Super-Source", sources, true);
      superGraphStations := superGraphStations["Super-Source" := id];
    }

    /** `createSuperSink(id, targetStations)`: vertex id "Super-Sink" with an INF arc into it from every target. */
    method CreateSuperSink(id: int, targets: StationH)
      requires superGraph != graph
      requires superGraph.Valid() && superGraph.Sized() && superGraph.Paired() && id == |superGraph.vid|
      requires |graph.station| == |graph.vid| && |graph.adj| == |graph.vid|
      requires forall v :: 0 <= v < |graph.vid| ==> 0 <= graph.vid[v] < id
      modifies superGraph, this`superGraphStations
      ensures superGraph.vid == old(superGraph.vid) + [id]
      ensures superGraph.station == old(superGraph.station) + [NamedStation("Super-Sink")]
      ensures superGraphStations == old(superGraphStations)["Super-Sink" := id]
      ensures Wiring(superGraph, old(Table(superGraph)), id, Chosen(Sinks(targets), graph.vid, graph.station, graph.adj), false)
    {
      var sinks := Scan(graph, Sinks(targets));
      ChosenBelow(Sinks(targets), graph.vid, graph.station, graph.adj, id);
      superGraphStations := superGraphStations["Super-Sink" := id];
      AddHub(superGraph, id, "Super-Sink", sinks, false);
    }

    /**
     * `createSuperGraph(targetStations)`: the whole network again, with the super source as
     * vertex n and the super sink as vertex n + 1, where n counts the network's stations. The
     * wiring scans the main graph, which was built from the same rows: the sources are its
     * stations that are not targets and have exactly one outgoing arc.
     */
    method CreateSuperGraph(net: seq<Segment>, targets: StationH) returns (ghost ids: map<string, int>)
      requires Known(stations, net, None)
      requires Numbered(stations, graph.vid, graph.station, idStations, Order(net)) && |graph.adj| == |graph.vid|
      requires graph.Valid()
      modifies this`superGraph, this`superGraphStations
      ensures fresh(superGraph) && superGraph.Valid() && superGraph.Sized() && superGraph.Paired()
      ensures SuperGraph(stations, net, unsetCost, superGraph.vid, superGraph.station, Table(superGraph), superGraphStations, ids,
                         Chosen(Sources(targets), graph.vid, graph.station, graph.adj), Chosen(Sinks(targets), graph.vid, graph.station, graph.adj))
      ensures forall x :: x in Chosen(Sources(targets), graph.vid, graph.station, graph.adj) <==>
        exists v :: 0 <= v < |graph.vid| && graph.vid[v] == x &&
          !Contains(targets, graph.station[v].name) && |ArcsOut(graph.orig, v)| == 1
    {
      var g, gids;
      NumberedBelow(stations, graph.vid, graph.station, idStations, Order(net));
      g, gids, ids := BuildSuperGraph(stations, net, targets, graph, unsetCost, unsetResidual);
      superGraph, superGraphStations := g, gids;
      ScanCounts(targets, graph.vid, graph.station, graph.adj, graph.orig, graph.dest, graph.reverse, graph.slot);
    }

    /**
     * `createSuperSourceGraph(dest)`: the whole network again, with vertex n "Super-Source"
     * and an INF arc from it to every vertex of the network, other than dest, that has
     * exactly one outgoing arc when the network is loaded.
     */
    method CreateSuperSourceGraph(net: seq<Segment>, dest: int)
      returns (ghost ids: map<string, int>, ghost sources: seq<int>, ghost t0: Arcs, ghost adj0: seq<seq<int>>, ghost slot0: seq<int>)
      requires Known(stations, net, None)
      modifies this`superGraph, this`superGraphStations
      ensures fresh(superGraph) && superGraph.Valid() && superGraph.Sized() && superGraph.Paired()
      ensures SuperSourceGraph(stations, net, dest, unsetCost, superGraph.vid, superGraph.station, Table(superGraph),
                               superGraphStations, ids, sources, t0, adj0, slot0)
    {
      var g, gids;
      g, gids, ids, sources, t0, adj0, slot0 := BuildSuperSourceGraph(stations, net, dest, unsetCost, unsetResidual);
      superGraph, superGraphStations := g, gids;
    }
  }
}
