/**
 * The result lists of `topBudget` and `transportNeeds` (code/Supervisor.cpp): one pair per
 * municipality or district with its flow, ordered by `std::sort` under the comparator
 * `a.second > b.second`, so the largest flows come first.
 */
module Rankings {
  /** A result row: the municipality or district name and its flow. */
  type Row = (string, int)

  /** The comparator both sorts pass to `std::sort`: a goes first when its flow is larger. */
  predicate Before(a: Row, b: Row) {
    a.1 > b.1
  }

  /** No row is placed before one that the comparator would put ahead of it. */
  ghost predicate Ranked(s: seq<Row>) {
    forall i, j :: 0 <= i < j < |s| ==> !Before(s[j], s[i])
  }

  /**
   * The `sort(res.begin(), res.end(), ...)` call, as an insertion sort on the vector's
   * elements: afterwards the flows are non-increasing and the rows are those of before.
   */
  method SortByFlow(a: array<Row>)
    modifies a
    ensures Ranked(a[..])
    ensures multiset(a[..]) == multiset(old(a[..]))
  {
    for i := 0 to a.Length
      invariant Ranked(a[..i])
      invariant multiset(a[..]) == multiset(old(a[..]))
    {
      Place(a, i);
    }
    assert a[..a.Length] == a[..];
  }

  /** One round of the sort: row i moves left past every row with a smaller flow. */
  method Place(a: array<Row>, i: int)
    requires 0 <= i < a.Length && Ranked(a[..i])
    modifies a
    ensures Ranked(a[..i + 1])
    ensures multiset(a[..]) == multiset(old(a[..]))
  {
    var j := i;
    while 0 < j && Before(a[j], a[j - 1])
      invariant 0 <= j <= i
      invariant forall p, q :: 0 <= p < q <= i && p != j && q != j ==> a[p].1 >= a[q].1
      invariant forall q :: j < q <= i ==> a[j].1 > a[q].1
      invariant multiset(a[..]) == multiset(old(a[..]))
    {
      a[j - 1], a[j] := a[j], a[j - 1];
      j := j - 1;
    }
  }
}
