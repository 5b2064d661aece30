/**
 * The three failure tests of code/Supervisor.cpp that decide which segments of the network
 * survive a simulated breakdown (`segmentFailure`, `stationFailure`, `lineFailure`), and the
 * network rows they are applied to.
 */
module Failures {
  import opened Wrappers
  import opened Stations

  /** One row of the network: `source,target,capacity,service`. */
  datatype Segment = Segment(source: string, target: string, capacity: int, service: string)

  /**
   * `segmentFailure(failedSegments, source, target)`: `any_of` over the list, matching the
   * ordered pair exactly.
   */
  function SegmentFailure(failed: seq<(string, string)>, source: string, target: string): bool {
    if failed == [] then false
    else (failed[0].0 == source && failed[0].1 == target) || SegmentFailure(failed[1..], source, target)
  }

  /** A segment fails iff the list holds its ordered pair; the reversed pair does not count. */
  lemma {:induction false} SegmentFailureMeans(failed: seq<(string, string)>, source: string, target: string)
    ensures SegmentFailure(failed, source, target) <==>
      exists i :: 0 <= i < |failed| && failed[i].0 == source && failed[i].1 == target
  {
    if failed != [] {
      SegmentFailureMeans(failed[1..], source, target);
      if exists i :: 0 <= i < |failed| && failed[i].0 == source && failed[i].1 == target {
        var i :| 0 <= i < |failed| && failed[i].0 == source && failed[i].1 == target;
        if i > 0 {
          assert failed[1..][i - 1] == failed[i];
        }
      }
      if SegmentFailure(failed[1..], source, target) {
        var i :| 0 <= i < |failed[1..]| && failed[1..][i].0 == source && failed[1..][i].1 == target;
        assert failed[i + 1] == failed[1..][i];
      }
    }
  }

  /**
   * `stationFailure(failedStations, source, target)`: `find` builds a station from the name,
   * so it is true iff a failed station carries the source's or the target's name.
   */
  function StationFailure(failed: StationH, source: string, target: string): bool
    requires KeyedByName(failed)
  {
    Find(failed, source).Some? || Find(failed, target).Some?
  }

  lemma StationFailureMeans(failed: StationH, source: string, target: string)
    requires KeyedByName(failed)
    ensures StationFailure(failed, source, target) <==>
      exists s :: s in failed.Values && (SameStation(s, NamedStation(source)) || SameStation(s, NamedStation(target)))
  {
    assert Contains(failed, source) ==> failed[source] in failed.Values;
    assert Contains(failed, target) ==> failed[target] in failed.Values;
  }

  /**
   * `lineFailure(failedLines, source, target)`: the line of the stored source station or of
   * the stored target station is a failed line. `*stations.find(name)` needs both stored.
   */
  function LineFailure(stations: StationH, failedLines: set<string>, source: string, target: string): bool
    requires KeyedByName(stations) && Contains(stations, source) && Contains(stations, target)
  {
    Find(stations, source).value.line in failedLines || Find(stations, target).value.line in failedLines
  }

  lemma LineFailureMeans(stations: StationH, failedLines: set<string>, source: string, target: string)
    requires KeyedByName(stations) && Contains(stations, source) && Contains(stations, target)
    ensures LineFailure(stations, failedLines, source, target) <==>
      exists s :: s in stations.Values && (s.name == source || s.name == target) && s.line in failedLines
  {
    assert stations[source] in stations.Values && stations[target] in stations.Values;
  }

  /** Which breakdown a subgraph simulates: the argument of the three `createSubgraph`s. */
  datatype Failure =
    | FailedLines(lines: set<string>)
    | FailedStations(failedStations: StationH)
    | FailedSegments(pairs: seq<(string, string)>)

  /** The failure is given well formed, and every station of the network is known. */
  ghost predicate Known(stations: StationH, net: seq<Segment>, f: Option<Failure>) {
    && KeyedByName(stations)
    && (f.Some? && f.value.FailedStations? ==> KeyedByName(f.value.failedStations))
    && forall k :: 0 <= k < |net| ==> net[k].source in stations && net[k].target in stations
  }

  /** The failure test for one row; with no failure (the super graphs) every row is kept. */
  function Fails(stations: StationH, f: Option<Failure>, source: string, target: string): bool
    requires KeyedByName(stations) && Contains(stations, source) && Contains(stations, target)
    requires f.Some? && f.value.FailedStations? ==> KeyedByName(f.value.failedStations)
  {
    match f
    case None => false
    case Some(FailedLines(lines)) => LineFailure(stations, lines, source, target)
    case Some(FailedStations(failed)) => StationFailure(failed, source, target)
    case Some(FailedSegments(pairs)) => SegmentFailure(pairs, source, target)
  }

  /** The rows a builder keeps: those the failure test lets through, in order. */
  function Kept(stations: StationH, net: seq<Segment>, f: Option<Failure>): (kept: seq<Segment>)
    requires Known(stations, net, f)
    ensures |kept| <= |net|
  {
    if net == [] then []
    else
      var n := |net| - 1;
      assert Known(stations, net[..n], f);
      var before := Kept(stations, net[..n], f);
      if Fails(stations, f, net[n].source, net[n].target) then before else before + [net[n]]
  }

  /** Every kept row is a row of the network that does not fail, and every such row is kept. */
  lemma {:induction false} KeptMeans(stations: StationH, net: seq<Segment>, f: Option<Failure>, row: Segment)
    requires Known(stations, net, f)
    ensures row in Kept(stations, net, f) <==> row in net && !Fails(stations, f, row.source, row.target)
  {
    if net != [] {
      var n := |net| - 1;
      assert Known(stations, net[..n], f);
      KeptMeans(stations, net[..n], f, row);
      assert net == net[..n] + [net[n]];
      assert row in net <==> row in net[..n] || row == net[n];
    }
  }

  /** A builder's loop over the first i rows: the known prefix, and what one more row adds. */
  lemma KeptPrefix(stations: StationH, net: seq<Segment>, f: Option<Failure>, i: nat)
    requires Known(stations, net, f) && i <= |net|
    ensures Known(stations, net[..i], f)
    ensures i == 0 ==> Kept(stations, net[..i], f) == []
    ensures i < |net| ==> Known(stations, net[..i + 1], f)
    ensures i < |net| ==>
      Kept(stations, net[..i + 1], f) == Kept(stations, net[..i], f) + (if Fails(stations, f, net[i].source, net[i].target) then [] else [net[i]])
  {
    if i < |net| {
      assert net[..i + 1][..i] == net[..i];
    }
  }

  /** With no failure every row is kept. */
  lemma {:induction false} KeptAll(stations: StationH, net: seq<Segment>)
    requires Known(stations, net, None)
    ensures Kept(stations, net, None) == net
  {
    if net != [] {
      var n := |net| - 1;
      assert Known(stations, net[..n], None);
      KeptAll(stations, net[..n]);
      assert net[..n] + [net[n]] == net;
    }
  }
}
