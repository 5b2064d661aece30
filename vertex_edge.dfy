/**
 * The pure parts of the vertex and arc records (code/VertexEdge.cpp, code/VertexEdge.h):
 * the INF sentinel, the halving of a segment's capacity, the cost tiers an arc takes from
 * its service class, and the order on search labels that `Vertex::operator<` stands for.
 * The records themselves live in the arena of Graphs.Graph.
 */
module VertexEdge {
  import opened Wrappers

  /** `numeric_limits<int>::max()`, the "no label yet" value and the capacity of synthetic arcs. */
  const INF: int := 0x7fff_ffff

  /** `capacity / 2` on a C++ `int`: the quotient truncates toward zero, so a remainder is dropped. */
  function HalfCapacity(c: int): (h: int)
    ensures c >= 0 ==> 0 <= 2 * h <= c <= 2 * h + 1
    ensures c < 0 ==> 2 * h - 1 <= c <= 2 * h <= 0
  {
    if c >= 0 then c / 2 else -((-c) / 2)
  }

  /** The cost the `Edge` constructor assigns from the service class; any other class leaves it unset. */
  function Tariff(service: string): (t: Option<int>)
    ensures t == Some(2) <==> service == "STANDARD"
    ensures t == Some(4) <==> service == "ALFA"
    ensures t.None? <==> service != "STANDARD" && service != "ALFA"
  {
    if service == "STANDARD" then Some(2)
    else if service == "ALFA" then Some(4)
    else None
  }

  /** `Vertex::operator<`: strict less-than on the vertices' search labels. */
  predicate Less(a: int, b: int) {
    a < b
  }
}
