/**
 * What the depth-first searches of code/Graph.cpp (`dfsConnectedDistrict`,
 * `dfsConnectedMunicipality`, `maxConnectedDistrict`, `maxConnectedMunicipality`) build,
 * stated on the vertex and arc tables as plain values: the vertices one search visits, and the
 * components one sweep over all vertices collects.
 */
module Components {
  import opened Stations
  import opened Residuals
  import opened Arenas
  import opened Searches

  /** Which attribute of a station the search is restricted to. */
  datatype Area = District | Municipality

  /** `getDistrict()` or `getMunicipality()`. */
  function AreaOf(s: Station, area: Area): string {
    match area
    case District => s.district
    case Municipality => s.municipality
  }

  /** Vertex w exists and its station lies in the area called name. */
  predicate InArea(station: seq<Station>, area: Area, name: string, w: int) {
    0 <= w < |station| && AreaOf(station[w], area) == name
  }

  /** The ids (`getId()`) of the vertices vs, in order. */
  function Ids(vid: seq<int>, vs: seq<int>): (ids: seq<int>)
    requires forall i :: 0 <= i < |vs| ==> 0 <= vs[i] < |vid|
    ensures |ids| == |vs| && forall i :: 0 <= i < |vs| ==> ids[i] == vid[vs[i]]
  {
    if vs == [] then [] else [vid[vs[0]]] + Ids(vid, vs[1..])
  }

  /** The ids of two runs of vertices, one after the other. */
  lemma IdsAppend(vid: seq<int>, xs: seq<int>, ys: seq<int>)
    requires forall i :: 0 <= i < |xs| ==> 0 <= xs[i] < |vid|
    requires forall i :: 0 <= i < |ys| ==> 0 <= ys[i] < |vid|
    ensures Ids(vid, xs + ys) == Ids(vid, xs) + Ids(vid, ys)
  {
    var zs := xs + ys;
    assert forall i :: 0 <= i < |zs| ==> zs[i] == if i < |xs| then xs[i] else ys[i - |xs|];
  }

  /** A list holding comp and the ids of added, extended by the ids of more. */
  lemma {:induction false} IdsExtend(vid: seq<int>, comp: seq<int>, listed: seq<int>, grown: seq<int>, added: seq<int>, more: seq<int>)
    requires forall i :: 0 <= i < |added| ==> 0 <= added[i] < |vid|
    requires forall i :: 0 <= i < |more| ==> 0 <= more[i] < |vid|
    requires listed == comp + Ids(vid, added) && grown == listed + Ids(vid, more)
    ensures grown == comp + Ids(vid, added + more)
  {
    IdsAppend(vid, added, more);
  }

  /** `after` marks every vertex `before` marks. */
  ghost predicate Grown(before: seq<bool>, after: seq<bool>) {
    |after| == |before| && forall u :: 0 <= u < |before| && before[u] ==> after[u]
  }

  /** Marking more vertices leaves no more of them unmarked. */
  lemma {:induction false} GrownUnreached(before: seq<bool>, after: seq<bool>)
    requires Grown(before, after)
    ensures Unreached(after) <= Unreached(before)
    decreases |before|
  {
    if before != [] {
      var n := |before| - 1;
      GrownUnreached(before[..n], after[..n]);
    }
  }

  /**
   * Every vertex of vs after the first is entered through an arc `via[i]` from a vertex
   * listed before it.
   */
  ghost predicate Spanned(orig: seq<int>, dest: seq<int>, vs: seq<int>, via: seq<int>) {
    && |dest| == |orig| && |via| == |vs|
    && forall i :: 1 <= i < |vs| ==> 0 <= via[i] < |orig| && dest[via[i]] == vs[i] && orig[via[i]] in vs[..i]
  }

  /** `added` lists vertices, and exactly they joined the marked vertices between before and after. */
  ghost predicate Marks(before: seq<bool>, after: seq<bool>, added: seq<int>) {
    && Grown(before, after)
    && (forall i :: 0 <= i < |added| ==> 0 <= added[i] < |before|)
    && forall u :: 0 <= u < |before| ==> (after[u] <==> before[u] || u in added)
  }

  /** Apart from the first, the vertices of `added` were unmarked before and lie in the area. */
  ghost predicate Fresh(station: seq<Station>, area: Area, name: string, before: seq<bool>, added: seq<int>) {
    forall i :: 1 <= i < |added| ==> 0 <= added[i] < |before| && !before[added[i]] && InArea(station, area, name, added[i])
  }

  /**
   * Every arc into the area out of a vertex of `added` ends at a marked vertex, except the
   * arcs of the first vertex from position `scanned` on.
   */
  ghost predicate ClosedOut(adj: seq<seq<int>>, dest: seq<int>, station: seq<Station>, area: Area, name: string,
                            after: seq<bool>, added: seq<int>, scanned: int) {
    forall i, k :: 0 <= i < |added| && 0 <= added[i] < |adj| && 0 <= k < |adj[added[i]]| && (i > 0 || k < scanned) &&
      0 <= adj[added[i]][k] < |dest| && InArea(station, area, name, dest[adj[added[i]][k]]) && |station| <= |after|
      ==> after[dest[adj[added[i]][k]]]
  }

  /**
   * One depth-first search from added[0], of whose arcs the first `scanned` were followed:
   * `added` lists the vertices it marked, in the order marked, each once; apart from the start
   * they were unmarked before and lie in the area; exactly they joined the marked vertices;
   * each was entered from an earlier one; and every followed arc into the area out of them
   * ends at a marked vertex.
   */
  ghost predicate Visit(adj: seq<seq<int>>, orig: seq<int>, dest: seq<int>, station: seq<Station>,
                        area: Area, name: string, before: seq<bool>, after: seq<bool>,
                        added: seq<int>, via: seq<int>, scanned: int) {
    && |adj| == |before| && |station| == |before| && |added| >= 1
    && Marks(before, after, added) && Distinct(added) && Fresh(station, area, name, before, added)
    && Spanned(orig, dest, added, via)
    && 0 <= scanned <= |adj[added[0]]|
    && ClosedOut(adj, dest, station, area, name, after, added, scanned)
  }

  /** A search from added[0] that followed every arc out of it. */
  ghost predicate Searched(adj: seq<seq<int>>, orig: seq<int>, dest: seq<int>, station: seq<Station>,
                           area: Area, name: string, before: seq<bool>, after: seq<bool>,
                           added: seq<int>, via: seq<int>) {
    && |added| >= 1 && 0 <= added[0] < |adj|
    && Visit(adj, orig, dest, station, area, name, before, after, added, via, |adj[added[0]]|)
  }

  /** Marking v starts a search from it with no arc followed yet. */
  lemma VisitStarts(adj: seq<seq<int>>, orig: seq<int>, dest: seq<int>, station: seq<Station>,
                    area: Area, name: string, before: seq<bool>, v: int)
    requires |adj| == |before| && |station| == |before| && |dest| == |orig| && 0 <= v < |before|
    ensures Visit(adj, orig, dest, station, area, name, before, before[v := true], [v], [NoArc], 0)
  {
  }

  /** An arc into a marked vertex or out of the area is passed over. */
  lemma VisitSkips(adj: seq<seq<int>>, orig: seq<int>, dest: seq<int>, station: seq<Station>,
                   area: Area, name: string, before: seq<bool>, after: seq<bool>,
                   added: seq<int>, via: seq<int>, scanned: int)
    requires Visit(adj, orig, dest, station, area, name, before, after, added, via, scanned)
    requires scanned < |adj[added[0]]|
    requires var e := adj[added[0]][scanned];
      0 <= e < |dest| && 0 <= dest[e] < |after| && (after[dest[e]] || !InArea(station, area, name, dest[e]))
    ensures Visit(adj, orig, dest, station, area, name, before, after, added, via, scanned + 1)
  {
  }

  /** Two spanned runs, the second entered through arc e from the first, span their join. */
  lemma SpannedJoin(orig: seq<int>, dest: seq<int>, added: seq<int>, via: seq<int>,
                    more: seq<int>, via': seq<int>, e: int)
    requires Spanned(orig, dest, added, via) && Spanned(orig, dest, more, via')
    requires |added| >= 1 && |more| >= 1 && 0 <= e < |orig| && orig[e] == added[0] && dest[e] == more[0]
    ensures Spanned(orig, dest, added + more, via + [e] + via'[1..])
  {
    var all, vias := added + more, via + [e] + via'[1..];
    var n := |added|;
    forall i | 1 <= i < |all|
      ensures 0 <= vias[i] < |orig| && dest[vias[i]] == all[i] && orig[vias[i]] in all[..i]
    {
      if i < n {
        assert vias[i] == via[i] && all[i] == added[i] && added[..i] == all[..i];
      } else if i == n {
        assert vias[i] == e && all[i] == more[0] && all[0] == added[0];
      } else {
        assert vias[i] == via'[i - n] && all[i] == more[i - n];
        assert all[..i] == added + more[..i - n];
      }
    }
  }

  /** Two runs without repeats and without a common vertex join into a run without repeats. */
  lemma DistinctJoin(added: seq<int>, more: seq<int>)
    requires Distinct(added) && Distinct(more)
    requires forall i, j :: 0 <= i < |added| && 0 <= j < |more| ==> added[i] != more[j]
    ensures Distinct(added + more)
  {
    var all, n := added + more, |added|;
    forall i, j | 0 <= i < j < |all| ensures all[i] != all[j] {
      if j < n {
        assert all[i] == added[i] && all[j] == added[j];
      } else if i >= n {
        assert all[i] == more[i - n] && all[j] == more[j - n];
      } else {
        assert all[i] == added[i] && all[j] == more[j - n];
      }
    }
  }

  /** Marks made by one search and then by another add up. */
  lemma MarksJoin(before: seq<bool>, mid: seq<bool>, after: seq<bool>, added: seq<int>, more: seq<int>)
    requires Marks(before, mid, added) && Marks(mid, after, more)
    ensures Marks(before, after, added + more)
  {
    var all := added + more;
    forall i | 0 <= i < |all| ensures all[i] == if i < |added| then added[i] else more[i - |added|] { }
    forall u | 0 <= u < |before| ensures after[u] <==> before[u] || u in all {
      assert u in all <==> u in added || u in more;
    }
  }

  /** A second search's vertices, unmarked when it started and the first of them in the area, are fresh. */
  lemma FreshJoin(station: seq<Station>, area: Area, name: string, before: seq<bool>, mid: seq<bool>,
                  added: seq<int>, more: seq<int>)
    requires Fresh(station, area, name, before, added) && Fresh(station, area, name, mid, more)
    requires Grown(before, mid) && |added| >= 1 && |more| >= 1
    requires 0 <= more[0] < |mid| && !mid[more[0]] && InArea(station, area, name, more[0])
    ensures Fresh(station, area, name, before, added + more)
  {
    var all, n := added + more, |added|;
    forall i | 1 <= i < |all| ensures 0 <= all[i] < |before| && !before[all[i]] && InArea(station, area, name, all[i]) {
      if i >= n {
        assert all[i] == more[i - n];
      } else {
        assert all[i] == added[i];
      }
    }
  }

  /**
   * The first search's arcs stay closed as marks only grow; its arc at `scanned` leads to the
   * second search's start; the second search closed all its own arcs.
   */
  lemma ClosedJoin(adj: seq<seq<int>>, dest: seq<int>, station: seq<Station>, area: Area, name: string,
                   mid: seq<bool>, after: seq<bool>, added: seq<int>, more: seq<int>, scanned: int)
    requires ClosedOut(adj, dest, station, area, name, mid, added, scanned) && Grown(mid, after)
    requires |station| <= |mid| && |more| >= 1 && 0 <= more[0] < |adj|
    requires ClosedOut(adj, dest, station, area, name, after, more, |adj[more[0]]|)
    requires |added| >= 1 && 0 <= added[0] < |adj| && 0 <= scanned < |adj[added[0]]|
    requires 0 <= adj[added[0]][scanned] < |dest| && dest[adj[added[0]][scanned]] == more[0]
    requires 0 <= more[0] < |after| && after[more[0]]
    ensures ClosedOut(adj, dest, station, area, name, after, added + more, scanned + 1)
  {
    var all, n := added + more, |added|;
    forall i, k | 0 <= i < |all| && 0 <= all[i] < |adj| && 0 <= k < |adj[all[i]]| && (i > 0 || k < scanned + 1) &&
        0 <= adj[all[i]][k] < |dest| && InArea(station, area, name, dest[adj[all[i]][k]]) && |station| <= |after|
      ensures after[dest[adj[all[i]][k]]]
    {
      if i >= n {
        assert all[i] == more[i - n];
      } else if i == 0 && k == scanned {
        assert all[i] == added[0];
      } else {
        assert all[i] == added[i];
        assert mid[dest[adj[added[i]][k]]];
      }
    }
  }

  /**
   * An arc e out of the start into an unmarked vertex w of the area: the search from w, made
   * with everything marked so far, joins this one.
   */
  lemma VisitJoins(adj: seq<seq<int>>, orig: seq<int>, dest: seq<int>, station: seq<Station>,
                   area: Area, name: string, before: seq<bool>, mid: seq<bool>, after: seq<bool>,
                   added: seq<int>, via: seq<int>, scanned: int, more: seq<int>, via': seq<int>)
    requires Visit(adj, orig, dest, station, area, name, before, mid, added, via, scanned)
    requires Searched(adj, orig, dest, station, area, name, mid, after, more, via')
    requires scanned < |adj[added[0]]|
    requires var e := adj[added[0]][scanned];
      0 <= e < |dest| && orig[e] == added[0] && 0 <= dest[e] < |mid| && !mid[dest[e]] &&
      InArea(station, area, name, dest[e]) && more[0] == dest[e]
    ensures Visit(adj, orig, dest, station, area, name, before, after, added + more,
                  via + [adj[added[0]][scanned]] + via'[1..], scanned + 1)
  {
    var e := adj[added[0]][scanned];
    SpannedJoin(orig, dest, added, via, more, via', e);
    forall i, j | 0 <= i < |added| && 0 <= j < |more| ensures added[i] != more[j] {
      assert mid[added[i]];
    }
    DistinctJoin(added, more);
    MarksJoin(before, mid, after, added, more);
    FreshJoin(station, area, name, before, mid, added, more);
    assert more[0] in more;
    ClosedJoin(adj, dest, station, area, name, mid, after, added, more, scanned);
  }

  /** The largest length among the runs (0 when there are none), as `maxSize` keeps it. */
  function Largest(comps: seq<seq<int>>): nat {
    if comps == [] then 0
    else var m := Largest(comps[..|comps| - 1]);
      if |comps[|comps| - 1]| > m then |comps[|comps| - 1]| else m
  }

  /** No run is longer than `Largest`, and some run is that long when there is one. */
  lemma {:induction false} LargestIsMaximum(comps: seq<seq<int>>)
    ensures forall i :: 0 <= i < |comps| ==> |comps[i]| <= Largest(comps)
    ensures comps != [] ==> exists i :: 0 <= i < |comps| && |comps[i]| == Largest(comps)
    decreases |comps|
  {
    if comps != [] {
      var n := |comps| - 1;
      LargestIsMaximum(comps[..n]);
      assert forall i :: 0 <= i < n ==> comps[..n][i] == comps[i];
      if |comps[n]| > Largest(comps[..n]) {
        assert |comps[n]| == Largest(comps);
      } else if n > 0 {
        var i :| 0 <= i < n && |comps[..n][i]| == Largest(comps[..n]);
        assert |comps[i]| == Largest(comps);
      }
    }
  }

  /**
   * The components collected so far: `owner[u]` is the index of the component holding u, or
   * -1 when u is unmarked; each component is a run of distinct vertices of the area, each
   * entered from an earlier one; and an arc into the area out of component i ends in
   * component i or an earlier one.
   */
  ghost predicate Partition(adj: seq<seq<int>>, orig: seq<int>, dest: seq<int>, station: seq<Station>,
                            area: Area, name: string, visited: seq<bool>,
                            comps: seq<seq<int>>, vias: seq<seq<int>>, owner: seq<int>) {
    && |adj| == |visited| && |station| == |visited| && |owner| == |visited| && |dest| == |orig|
    && |vias| == |comps|
    && (forall u :: 0 <= u < |visited| ==> -1 <= owner[u] < |comps| && (visited[u] <==> owner[u] >= 0))
    && (forall u :: 0 <= u < |visited| && owner[u] >= 0 ==> u in comps[owner[u]])
    && (forall i :: 0 <= i < |comps| ==> comps[i] != [] && Distinct(comps[i]) && Spanned(orig, dest, comps[i], vias[i]))
    && (forall i, k :: 0 <= i < |comps| && 0 <= k < |comps[i]| ==>
          0 <= comps[i][k] < |visited| && owner[comps[i][k]] == i && InArea(station, area, name, comps[i][k]))
    && forall i, k, j :: 0 <= i < |comps| && 0 <= k < |comps[i]| && 0 <= comps[i][k] < |adj| &&
         0 <= j < |adj[comps[i][k]]| && 0 <= adj[comps[i][k]][j] < |dest| &&
         InArea(station, area, name, dest[adj[comps[i][k]][j]])
         ==> 0 <= owner[dest[adj[comps[i][k]][j]]] <= i
  }

  /** With nothing marked there are no components yet. */
  lemma PartitionStarts(adj: seq<seq<int>>, orig: seq<int>, dest: seq<int>, station: seq<Station>,
                        area: Area, name: string, visited: seq<bool>)
    requires |adj| == |visited| && |station| == |visited| && |dest| == |orig|
    requires forall u :: 0 <= u < |visited| ==> !visited[u]
    ensures Partition(adj, orig, dest, station, area, name, visited, [], [], seq(|visited|, _ => -1))
  {
  }

  /** A completed search from an unmarked vertex of the area adds one component. */
  lemma PartitionGrows(adj: seq<seq<int>>, orig: seq<int>, dest: seq<int>, station: seq<Station>,
                       area: Area, name: string, visited: seq<bool>, after: seq<bool>,
                       comps: seq<seq<int>>, vias: seq<seq<int>>, owner: seq<int>,
                       added: seq<int>, via: seq<int>)
    requires Partition(adj, orig, dest, station, area, name, visited, comps, vias, owner)
    requires Searched(adj, orig, dest, station, area, name, visited, after, added, via)
    requires !visited[added[0]] && InArea(station, area, name, added[0])
    ensures Partition(adj, orig, dest, station, area, name, after, comps + [added], vias + [via],
                      seq(|visited|, u requires 0 <= u < |visited| => if u in added then |comps| else owner[u]))
  {
    var n := |comps|;
    var comps', vias' := comps + [added], vias + [via];
    var owner' := seq(|visited|, u requires 0 <= u < |visited| => if u in added then n else owner[u]);
    forall i | 0 <= i < n ensures comps'[i] == comps[i] && vias'[i] == vias[i] { }
    forall u | 0 <= u < |visited| && u in added ensures !visited[u] {
      var k :| 0 <= k < |added| && added[k] == u;
    }
    forall i, k | 0 <= i < |comps'| && 0 <= k < |comps'[i]|
      ensures 0 <= comps'[i][k] < |visited| && owner'[comps'[i][k]] == i && InArea(station, area, name, comps'[i][k])
    {
      if i < n {
        assert comps'[i][k] == comps[i][k] && visited[comps[i][k]];
      }
    }
    forall i, k, j | 0 <= i < |comps'| && 0 <= k < |comps'[i]| && 0 <= comps'[i][k] < |adj| &&
         0 <= j < |adj[comps'[i][k]]| && 0 <= adj[comps'[i][k]][j] < |dest| &&
         InArea(station, area, name, dest[adj[comps'[i][k]][j]])
      ensures 0 <= owner'[dest[adj[comps'[i][k]][j]]] <= i
    {
      var x := comps'[i][k];
      var w := dest[adj[x][j]];
      if i < n {
        assert x == comps[i][k] && visited[w];
      } else {
        assert after[w];
      }
    }
  }

  /**
   * When every arc has a reverse running the other way, each component is closed: an arc
   * between two vertices of the area out of a component stays inside it.
   */
  lemma ComponentsClosed(adj: seq<seq<int>>, orig: seq<int>, dest: seq<int>, capacity: seq<int>,
                         reverse: seq<int>, slot: seq<int>, station: seq<Station>,
                         area: Area, name: string, visited: seq<bool>,
                         comps: seq<seq<int>>, vias: seq<seq<int>>, owner: seq<int>)
    requires Arena(|visited|, adj, orig, dest, reverse, slot) && Antiparallel(orig, dest, capacity, reverse)
    requires Partition(adj, orig, dest, station, area, name, visited, comps, vias, owner)
    ensures forall e ::
      (0 <= e < |orig| && owner[orig[e]] >= 0 && InArea(station, area, name, dest[e])) ==> owner[dest[e]] == owner[orig[e]]
  {
    forall e | 0 <= e < |orig| && owner[orig[e]] >= 0 && InArea(station, area, name, dest[e])
      ensures owner[dest[e]] == owner[orig[e]]
    {
      var u, w, r := orig[e], dest[e], reverse[e];
      var i := owner[u];
      var k :| 0 <= k < |comps[i]| && comps[i][k] == u;
      assert adj[u][slot[e]] == e;
      var j := owner[w];
      var k' :| 0 <= k' < |comps[j]| && comps[j][k'] == w;
      assert orig[r] == w && dest[r] == u && adj[w][slot[r]] == r;
      assert InArea(station, area, name, u);
    }
  }
}
