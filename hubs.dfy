/**
 * Which vertices the super-source and super-sink loops of code/Supervisor.cpp pick: a scan over
 * the vertex table in vertex order.
 */
module Hubs {
  import opened Stations
  import opened Arenas

  /** Which vertices a super-vertex scan picks. */
  datatype Want =
    | Sources(targets: StationH)  // `createSuperSource`: not a target station, exactly one outgoing arc
    | Sinks(targets: StationH)    // `createSuperSink`: a target station
    | SourcesBut(dest: int)       // `createSuperSourceGraph`: not dest, exactly one outgoing arc

  /**
   * Whether the vertex with that id and station, with `out` arcs leaving it, is picked; `find`
   * compares names.
   */
  predicate Wanted(want: Want, id: int, st: Station, out: int) {
    match want
    case Sources(targets) => !Contains(targets, st.name) && out == 1
    case Sinks(targets) => Contains(targets, st.name)
    case SourcesBut(dest) => id != dest && out == 1
  }

  /** The ids a scan over the vertex table collects, in vertex order, testing `getAdj().size()`. */
  function Chosen(want: Want, vid: seq<int>, station: seq<Station>, adj: seq<seq<int>>): seq<int>
    requires |station| == |vid| && |adj| == |vid|
  {
    if vid == [] then []
    else
      var n := |vid| - 1;
      Chosen(want, vid[..n], station[..n], adj[..n]) + if Wanted(want, vid[n], station[n], |adj[n]|) then [vid[n]] else []
  }

  /** A scan collects an id iff some vertex with that id is wanted. */
  lemma {:induction false} ChosenIff(want: Want, vid: seq<int>, station: seq<Station>, adj: seq<seq<int>>, x: int)
    requires |station| == |vid| && |adj| == |vid|
    ensures x in Chosen(want, vid, station, adj) <==>
      exists v :: 0 <= v < |vid| && vid[v] == x && Wanted(want, vid[v], station[v], |adj[v]|)
  {
    if vid != [] {
      var n := |vid| - 1;
      ChosenIff(want, vid[..n], station[..n], adj[..n], x);
      if x in Chosen(want, vid[..n], station[..n], adj[..n]) {
        var v :| 0 <= v < n && vid[..n][v] == x && Wanted(want, vid[..n][v], station[..n][v], |adj[..n][v]|);
        assert vid[v] == x && Wanted(want, vid[v], station[v], |adj[v]|);
      }
      if exists v :: 0 <= v < |vid| && vid[v] == x && Wanted(want, vid[v], station[v], |adj[v]|) {
        var v :| 0 <= v < |vid| && vid[v] == x && Wanted(want, vid[v], station[v], |adj[v]|);
        if v < n {
          assert vid[..n][v] == x && Wanted(want, vid[..n][v], station[..n][v], |adj[..n][v]|);
        }
      }
    }
  }

  /**
   * Over the `adj` lists of an arena, the size test counts the arcs out of a vertex: a scan
   * picks an id iff some vertex with that id is wanted by its number of outgoing arcs.
   */
  lemma ChosenByArcs(want: Want, vid: seq<int>, station: seq<Station>, adj: seq<seq<int>>,
                     orig: seq<int>, heads: seq<int>, reverse: seq<int>, slot: seq<int>, x: int)
    requires |station| == |vid| && Arena(|vid|, adj, orig, heads, reverse, slot)
    ensures x in Chosen(want, vid, station, adj) <==>
      exists v :: 0 <= v < |vid| && vid[v] == x && Wanted(want, vid[v], station[v], |ArcsOut(orig, v)|)
  {
    ChosenIff(want, vid, station, adj, x);
    forall v | 0 <= v < |vid| ensures |adj[v]| == |ArcsOut(orig, v)| {
      AdjCounts(|vid|, adj, orig, heads, reverse, slot, v);
    }
  }
}
