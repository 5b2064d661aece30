/**
 * Residual capacities as a table indexed by arc (code/Graph.cpp:109-119). Augmenting a path
 * lowers the residual of each path arc by the flow and raises the residual of its reverse arc
 * by the same amount; `Augmented` is that update applied arc by arc, in the order the walk
 * from the target back to the source meets the arcs.
 */
module Residuals {

  /** Every arc has a reverse arc, different from itself, whose reverse is the arc again. */
  ghost predicate Pairing(rev: seq<int>) {
    && (forall e :: 0 <= e < |rev| ==> 0 <= rev[e] < |rev| && rev[e] != e)
    && (forall e :: 0 <= e < |rev| ==> rev[rev[e]] == e)
  }

  /** Every arc of `arcs` and its reverse index the table. */
  ghost predicate Within(res: seq<int>, rev: seq<int>, arcs: seq<int>) {
    && |rev| == |res|
    && forall i :: 0 <= i < |arcs| ==> 0 <= arcs[i] < |res| && 0 <= rev[arcs[i]] < |res|
  }

  /** The arcs of `arcs` are pairwise different. */
  ghost predicate Distinct(arcs: seq<int>) {
    forall i, j :: 0 <= i < j < |arcs| ==> arcs[i] != arcs[j]
  }

  /** One iteration of augmentFlowAlongPath: arc a loses f, then its reverse gains f. */
  function Step(res: seq<int>, rev: seq<int>, a: int, f: int): (r: seq<int>)
    requires |rev| == |res| && 0 <= a < |res| && 0 <= rev[a] < |res|
    ensures |r| == |res|
    ensures rev[a] != a ==> r[a] == res[a] - f && r[rev[a]] == res[rev[a]] + f
    ensures forall e :: 0 <= e < |res| && e != a && e != rev[a] ==> r[e] == res[e]
  {
    var lowered := res[a := res[a] - f];
    lowered[rev[a] := lowered[rev[a]] + f]
  }

  /** The residual table after pushing f along the first n arcs of `arcs`, first arc first. */
  function Augmented(res: seq<int>, rev: seq<int>, arcs: seq<int>, n: int, f: int): (r: seq<int>)
    requires Within(res, rev, arcs) && 0 <= n <= |arcs|
    ensures |r| == |res|
    decreases n
  {
    if n == 0 then res
    else Step(Augmented(res, rev, arcs, n - 1, f), rev, arcs[n - 1], f)
  }

  /** Augmenting never changes the sum of an arc's residual and its reverse's residual. */
  lemma {:induction false} Conserves(res: seq<int>, rev: seq<int>, arcs: seq<int>, n: int, f: int)
    requires Within(res, rev, arcs) && Pairing(rev) && 0 <= n <= |arcs|
    ensures var r := Augmented(res, rev, arcs, n, f);
      forall e :: 0 <= e < |res| ==> r[e] + r[rev[e]] == res[e] + res[rev[e]]
    decreases n
  {
    if n > 0 {
      var before := Augmented(res, rev, arcs, n - 1, f);
      Conserves(res, rev, arcs, n - 1, f);
      var a := arcs[n - 1];
      var r := Step(before, rev, a, f);
      forall e | 0 <= e < |res| ensures r[e] + r[rev[e]] == before[e] + before[rev[e]] {
        if e == a || e == rev[a] {
        } else {
          assert rev[rev[e]] == e && rev[rev[a]] == a;
        }
      }
    }
  }

  /** An arc that is neither among the first n path arcs nor the reverse of one keeps its residual. */
  lemma {:induction false} OffPathUnchanged(res: seq<int>, rev: seq<int>, arcs: seq<int>, n: int, f: int, e: int)
    requires Within(res, rev, arcs) && 0 <= n <= |arcs| && 0 <= e < |res|
    requires forall i :: 0 <= i < n ==> arcs[i] != e && rev[arcs[i]] != e
    ensures Augmented(res, rev, arcs, n, f)[e] == res[e]
    decreases n
  {
    if n > 0 {
      OffPathUnchanged(res, rev, arcs, n - 1, f, e);
    }
  }

  /** Pushing f >= 0 only raises the residuals of arcs off the path, and keeps every residual
   * non-negative when each path arc can carry f. */
  lemma {:induction false} Bounds(res: seq<int>, rev: seq<int>, arcs: seq<int>, n: int, f: int)
    requires Within(res, rev, arcs) && Pairing(rev) && Distinct(arcs) && f >= 0 && 0 <= n <= |arcs|
    requires forall e :: 0 <= e < |res| ==> res[e] >= 0
    requires forall i :: 0 <= i < |arcs| ==> res[arcs[i]] >= f
    ensures var r := Augmented(res, rev, arcs, n, f);
      && (forall e :: 0 <= e < |res| ==> r[e] >= 0)
      && (forall e :: 0 <= e < |res| && e !in arcs[..n] ==> r[e] >= res[e])
    decreases n
  {
    if n > 0 {
      Bounds(res, rev, arcs, n - 1, f);
      var a := arcs[n - 1];
      assert a !in arcs[..n - 1];
      var r := Augmented(res, rev, arcs, n, f);
      forall e | 0 <= e < |res| && e !in arcs[..n] ensures r[e] >= res[e] {
        assert e !in arcs[..n - 1];
      }
    }
  }

  /** The source's out-residual: residuals of the arcs leaving s, counting a negative one as 0. */
  function OutResidual(res: seq<int>, orig: seq<int>, s: int): (t: int)
    requires |orig| == |res|
    ensures t >= 0
    decreases |res|
  {
    if res == [] then 0
    else
      var n := |res| - 1;
      OutResidual(res[..n], orig[..n], s) + (if orig[n] == s && res[n] > 0 then res[n] else 0)
  }

  /** Changing the residual of arc i changes the out-residual of s only when i leaves s. */
  lemma {:induction false} OutResidualUpdate(res: seq<int>, orig: seq<int>, s: int, i: int, x: int)
    requires |orig| == |res| && 0 <= i < |res|
    ensures OutResidual(res[i := x], orig, s) ==
      OutResidual(res, orig, s)
      - (if orig[i] == s && res[i] > 0 then res[i] else 0)
      + (if orig[i] == s && x > 0 then x else 0)
    decreases |res|
  {
    var n := |res| - 1;
    if i < n {
      assert res[i := x][..n] == res[..n][i := x];
      OutResidualUpdate(res[..n], orig[..n], s, i, x);
    } else {
      assert res[i := x][..n] == res[..n];
    }
  }

  /** A step on an arc that neither leaves s nor has a reverse leaving s keeps s's out-residual. */
  lemma StepAwayFrom(res: seq<int>, rev: seq<int>, orig: seq<int>, s: int, a: int, f: int)
    requires |rev| == |res| && |orig| == |res| && 0 <= a < |res| && 0 <= rev[a] < |res|
    requires orig[a] != s && orig[rev[a]] != s
    ensures OutResidual(Step(res, rev, a, f), orig, s) == OutResidual(res, orig, s)
  {
    var lowered := res[a := res[a] - f];
    OutResidualUpdate(res, orig, s, a, res[a] - f);
    OutResidualUpdate(lowered, orig, s, rev[a], lowered[rev[a]] + f);
  }

  /** Augmenting along arcs that stay away from s keeps s's out-residual. */
  lemma {:induction false} AugmentAwayFrom(res: seq<int>, rev: seq<int>, orig: seq<int>, s: int, arcs: seq<int>, n: int, f: int)
    requires Within(res, rev, arcs) && |orig| == |res| && 0 <= n <= |arcs|
    requires forall i :: 0 <= i < n ==> orig[arcs[i]] != s && orig[rev[arcs[i]]] != s
    ensures OutResidual(Augmented(res, rev, arcs, n, f), orig, s) == OutResidual(res, orig, s)
    decreases n
  {
    if n > 0 {
      AugmentAwayFrom(res, rev, orig, s, arcs, n - 1, f);
      StepAwayFrom(Augmented(res, rev, arcs, n - 1, f), rev, orig, s, arcs[n - 1], f);
    }
  }

  /**
   * Augmenting a path whose only arc leaving s is its last one, and on which no reverse arc
   * leaves s, lowers s's out-residual by exactly f when that last arc can carry f > 0.
   * This is what makes the augmenting loops of maxFlow and minCost terminate.
   */
  lemma Drains(res: seq<int>, rev: seq<int>, orig: seq<int>, s: int, arcs: seq<int>, f: int)
    requires Within(res, rev, arcs) && |orig| == |res| && arcs != []
    requires forall i :: 0 <= i < |arcs| ==> orig[rev[arcs[i]]] != s
    requires forall i :: 0 <= i < |arcs| - 1 ==> orig[arcs[i]] != s
    requires orig[arcs[|arcs| - 1]] == s
    requires 0 < f <= res[arcs[|arcs| - 1]]
    ensures OutResidual(Augmented(res, rev, arcs, |arcs|, f), orig, s) == OutResidual(res, orig, s) - f
  {
    var n := |arcs| - 1;
    var a := arcs[n];
    var before := Augmented(res, rev, arcs, n, f);
    AugmentAwayFrom(res, rev, orig, s, arcs, n, f);
    OffPathUnchanged(res, rev, arcs, n, f, a);
    StepLeaving(before, rev, orig, s, a, f);
  }

  /**
   * A step on an arc a leaving s whose reverse does not leave s, with 0 < f at most a's
   * residual, lowers s's out-residual by exactly f.
   */
  lemma StepLeaving(res: seq<int>, rev: seq<int>, orig: seq<int>, s: int, a: int, f: int)
    requires |rev| == |res| && |orig| == |res| && 0 <= a < |res| && 0 <= rev[a] < |res|
    requires orig[a] == s && orig[rev[a]] != s && 0 < f <= res[a]
    ensures OutResidual(Step(res, rev, a, f), orig, s) == OutResidual(res, orig, s) - f
  {
    var lowered := res[a := res[a] - f];
    LowerLeaving(res, orig, s, a, f);
    OutResidualUpdate(lowered, orig, s, rev[a], lowered[rev[a]] + f);
  }

  /** Lowering the residual of an arc leaving s by at most what it holds lowers s's out-residual as much. */
  lemma LowerLeaving(res: seq<int>, orig: seq<int>, s: int, a: int, f: int)
    requires |orig| == |res| && 0 <= a < |res| && orig[a] == s && 0 < f <= res[a]
    ensures OutResidual(res[a := res[a] - f], orig, s) == OutResidual(res, orig, s) - f
  {
    OutResidualUpdate(res, orig, s, a, res[a] - f);
  }
}
