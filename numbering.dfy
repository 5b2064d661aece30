/**
 * How `makeVertex` numbers the stations of code/Supervisor.cpp: densely, from 0, in the order
 * the network rows first name them, with the id map and the vertex table kept in step.
 */
module Numbering {
  import opened Stations
  import opened Failures

  /** The order of first appearance after meeting name once more. */
  function Appear(order: seq<string>, name: string): seq<string> {
    if name in order then order else order + [name]
  }

  lemma AppearIn(order: seq<string>, name: string, y: string)
    ensures y in Appear(order, name) <==> y in order || y == name
  {
  }

  /** The station names of the rows in the order `makeVertex` first meets them: each row's source, then its target. */
  function Order(rows: seq<Segment>): seq<string> {
    if rows == [] then []
    else
      var n := |rows| - 1;
      Appear(Appear(Order(rows[..n]), rows[n].source), rows[n].target)
  }

  /** Some row names x as its source or its target. */
  ghost predicate Mentions(rows: seq<Segment>, x: string) {
    exists k :: 0 <= k < |rows| && (rows[k].source == x || rows[k].target == x)
  }

  /** Only the endpoints of the rows are numbered, and each of them is. */
  lemma {:induction false} OrderNames(rows: seq<Segment>, x: string)
    ensures x in Order(rows) <==> Mentions(rows, x)
  {
    if rows != [] {
      var n := |rows| - 1;
      var before := rows[..n];
      AppearIn(Order(before), rows[n].source, x);
      AppearIn(Appear(Order(before), rows[n].source), rows[n].target, x);
      OrderNames(before, x);
      assert x in Order(rows) <==> x in Order(before) || x == rows[n].source || x == rows[n].target;
      if Mentions(before, x) {
        var k :| 0 <= k < n && (before[k].source == x || before[k].target == x);
        assert rows[k] == before[k];
      }
      if Mentions(rows, x) && x != rows[n].source && x != rows[n].target {
        var k :| 0 <= k < |rows| && (rows[k].source == x || rows[k].target == x);
        assert k < n && before[k] == rows[k];
      }
    }
  }

  /**
   * A graph numbered by `makeVertex`: the vertex at position i has id i and is the station
   * named `order[i]`, and the id map sends exactly the names of `order` to their positions.
   */
  ghost predicate Numbered(stations: StationH, vid: seq<int>, station: seq<Station>, ids: map<string, int>, order: seq<string>) {
    && |vid| == |order| && |station| == |order|
    && (forall n :: n in ids ==> 0 <= ids[n] < |order| && order[ids[n]] == n)
    && forall i :: 0 <= i < |order| ==>
         && order[i] in ids && ids[order[i]] == i && vid[i] == i
         && order[i] in stations && station[i] == stations[order[i]]
  }

  /**
   * The ids `makeVertex` hands out are exactly 0 .. counter-1, one per name: exactly the
   * names of the order have ids, no two names share one, and every id below the counter is
   * stored.
   */
  lemma NumberedDense(stations: StationH, vid: seq<int>, station: seq<Station>, ids: map<string, int>, order: seq<string>)
    requires Numbered(stations, vid, station, ids, order)
    ensures forall n :: n in ids <==> n in order
    ensures forall n, m :: n in ids && m in ids && ids[n] == ids[m] ==> n == m
    ensures forall i :: 0 <= i < |vid| ==> i in ids.Values
  {
    forall n | n in order ensures n in ids {
      var i :| 0 <= i < |order| && order[i] == n;
    }
    forall i | 0 <= i < |vid| ensures i in ids.Values {
      assert order[i] in ids && ids[order[i]] == i;
    }
  }

  /** A station met for the first time gets the next id. */
  lemma NumberedAdds(stations: StationH, vid: seq<int>, station: seq<Station>, ids: map<string, int>, order: seq<string>, name: string)
    requires Numbered(stations, vid, station, ids, order) && name !in ids && name in stations
    ensures name !in order
    ensures Numbered(stations, vid + [|vid|], station + [stations[name]], ids[name := |vid|], order + [name])
  {
    NumberedDense(stations, vid, station, ids, order);
    var order' := order + [name];
    forall i | 0 <= i < |order|
      ensures order'[i] == order[i] && order[i] != name
    {
      assert order[i] in ids;
    }
  }

  /** Each id map an earlier step built is kept by a later one. */
  ghost predicate Extends(ids: map<string, int>, ids': map<string, int>) {
    forall n :: n in ids ==> n in ids' && ids'[n] == ids[n]
  }
}
