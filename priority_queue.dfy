/**
 * The indexed binary min-heap Dijkstra uses (code/PriorityQueue.cpp, code/PriorityQueue.h).
 * Slot 0 holds a sentinel; the element at slot i has its parent at i / 2 and its left
 * child at 2 * i. Every stored vertex records the slot it occupies (`queueIndex`), so
 * `DecreaseKey` can start from there. The keys are the vertices' search labels, which live
 * in the graph; every operation receives them as `key`.
 */
module PriorityQueues {
  import opened VertexEdge

  /** The `nullptr` in slot 0. */
  const NIL: int := -1

  /** Every stored vertex has a key. */
  ghost predicate Keyed(h: seq<int>, key: seq<int>) {
    forall c :: 1 <= c < |h| ==> 0 <= h[c] < |key|
  }

  /** Heap order: no stored vertex is less than its parent. */
  ghost predicate HeapOrdered(h: seq<int>, key: seq<int>)
    requires Keyed(h, key)
  {
    forall c :: 2 <= c < |h| ==> !Less(key[h[c]], key[h[c / 2]])
  }

  /** Heap order everywhere except between slot j and its ancestors (what sifting up repairs). */
  ghost predicate OrderedAbove(h: seq<int>, key: seq<int>, j: int)
    requires Keyed(h, key)
  {
    && (forall c :: 2 <= c < |h| && c != j ==> key[h[c / 2]] <= key[h[c]])
    && (2 <= j < |h| ==> forall c :: 2 <= c < |h| && c / 2 == j ==> key[h[j / 2]] <= key[h[c]])
  }

  /** Heap order everywhere except between slot j and its children (what sifting down repairs). */
  ghost predicate OrderedBelow(h: seq<int>, key: seq<int>, j: int)
    requires Keyed(h, key)
  {
    && (forall c :: 2 <= c < |h| && c / 2 != j ==> key[h[c / 2]] <= key[h[c]])
    && (2 <= j < |h| ==> forall c :: 2 <= c < |h| && c / 2 == j ==> key[h[j / 2]] <= key[h[c]])
  }

  /** In a heap-ordered array the vertex in slot 1 has the least key. */
  lemma {:induction false} RootIsLeast(h: seq<int>, key: seq<int>, c: int)
    requires Keyed(h, key) && HeapOrdered(h, key)
    requires 1 <= c < |h|
    ensures key[h[1]] <= key[h[c]]
    decreases c
  {
    if c > 1 {
      RootIsLeast(h, key, c / 2);
    }
  }

  /** No stored vertex has a key less than the one in slot 1. */
  lemma RootIsLeastStored(h: seq<int>, key: seq<int>)
    requires |h| >= 2 && Keyed(h, key) && HeapOrdered(h, key)
    ensures forall y :: y in multiset(h[1..]) ==> key[h[1]] <= key[y]
  {
    forall y | y in multiset(h[1..]) ensures key[h[1]] <= key[y] {
      var i :| 0 <= i < |h[1..]| && h[1..][i] == y;
      RootIsLeast(h, key, i + 1);
    }
  }

  /** Lowering the key of the vertex in slot i leaves the heap out of order only above slot i. */
  lemma LoweredKey(h: seq<int>, key: seq<int>, oldKey: seq<int>, i: int)
    requires Keyed(h, oldKey) && HeapOrdered(h, oldKey) && 1 <= i < |h|
    requires |key| == |oldKey| && key[h[i]] <= oldKey[h[i]]
    requires forall c :: 1 <= c < |h| && c != i ==> key[h[c]] == oldKey[h[c]]
    ensures Keyed(h, key) && OrderedAbove(h, key, i)
  {
    forall c | 2 <= c < |h| && c != i ensures key[h[c / 2]] <= key[h[c]] {
      assert oldKey[h[c / 2]] <= oldKey[h[c]];
    }
    if 2 <= i {
      forall c | 2 <= c < |h| && c / 2 == i ensures key[h[i / 2]] <= key[h[c]] {
        assert oldKey[h[i / 2]] <= oldKey[h[i]] <= oldKey[h[c]];
      }
    }
  }

  /** The stored vertices are the slots from 1 on; slot 0 adds only the sentinel. */
  lemma SplitSentinel(h: seq<int>)
    requires |h| >= 1
    ensures multiset(h) == multiset{h[0]} + multiset(h[1..])
  {
    assert h == [h[0]] + h[1..];
  }

  /** Two arrays with the same sentinel and the same elements store the same vertices. */
  lemma SameStored(a: seq<int>, b: seq<int>)
    requires |a| >= 1 && |b| >= 1 && a[0] == b[0]
    requires multiset(a) == multiset(b)
    ensures multiset(a[1..]) == multiset(b[1..])
  {
    SplitSentinel(a);
    SplitSentinel(b);
    assert multiset(a[1..]) == multiset(a) - multiset{a[0]};
    assert multiset(b[1..]) == multiset(b) - multiset{b[0]};
  }

  /** extractMin's rearrangement: the last vertex moves to slot 1 and the root leaves the heap. */
  lemma LastMovedToRoot(h: seq<int>)
    requires |h| >= 2
    ensures var r := h[1 := h[|h| - 1]][..|h| - 1];
      multiset(r[1..]) == multiset(h[1..]) - multiset{h[1]}
  {
    var r := h[1 := h[|h| - 1]][..|h| - 1];
    if |h| == 2 {
      assert r[1..] == [];
    } else {
      assert h[1..] == [h[1]] + h[2..|h| - 1] + [h[|h| - 1]];
      assert r[1..] == [h[|h| - 1]] + h[2..|h| - 1];
    }
  }

  /** After that rearrangement every condition of sifting slot 1 down holds, and the old root is gone. */
  lemma ExtractPrepared(h: seq<int>, idx: map<int, int>, key: seq<int>, r: seq<int>)
    requires |h| >= 2 && h[0] == NIL
    requires Keyed(h, key) && HeapOrdered(h, key) && IndexedAt(h, idx, -1)
    requires r == h[1 := h[|h| - 1]][..|h| - 1]
    ensures |r| == |h| - 1 && r[0] == NIL && Keyed(r, key) && IndexedAt(r, idx, 1)
    ensures h[1] !in multiset(r[1..])
    ensures forall c :: 2 <= c < |r| ==> r[c] != r[1]
    ensures OrderedBelow(r, key, 1)
    ensures multiset(r[1..]) == multiset(h[1..]) - multiset{h[1]}
  {
    LastMovedToRoot(h);
    forall c | 1 <= c < |r| ensures r[c] != h[1] {
      if c == 1 {
        assert idx[h[|h| - 1]] == |h| - 1;
      } else {
        assert idx[h[c]] == c;
      }
    }
    forall c | 2 <= c < |r| ensures r[c] != r[1] {
      assert idx[h[c]] == c && idx[h[|h| - 1]] == |h| - 1;
    }
  }

  /** A vertex that is not stored occupies no slot, and resetting its queueIndex keeps every slot indexed. */
  lemma Absent(h: seq<int>, idx: map<int, int>, x: int)
    requires |h| >= 1 && x !in multiset(h[1..]) && IndexedAt(h, idx, -1)
    ensures forall c :: 1 <= c < |h| ==> h[c] != x
    ensures IndexedAt(h, idx[x := 0], -1)
  {
    forall c | 1 <= c < |h| ensures h[c] != x {
      assert h[c] == h[1..][c - 1];
    }
  }

  /** Appending a vertex not stored puts it in a slot of its own. */
  lemma Appended(h: seq<int>, x: int)
    requires |h| >= 1 && x !in multiset(h[1..])
    ensures (h + [x])[1..] == h[1..] + [x]
    ensures forall c :: 1 <= c < |h| ==> (h + [x])[c] != x
  {
    assert (h + [x])[1..] == h[1..] + [x];
    forall c | 1 <= c < |h| ensures (h + [x])[c] != x {
      assert (h + [x])[c] == h[1..][c - 1];
    }
  }

  /** A stored vertex has its slot, from 1 on, recorded in the index. */
  lemma StoredIndexed(h: seq<int>, idx: map<int, int>, x: int)
    requires |h| >= 1 && IndexedAt(h, idx, -1) && x in multiset(h[1..])
    ensures x in idx && idx[x] >= 1
  {
    var i :| 0 <= i < |h[1..]| && h[1..][i] == x;
    assert h[i + 1] == x;
  }

  /** Keys that agree on every stored vertex give the same heap order. */
  lemma SameKeysSameOrder(h: seq<int>, key: seq<int>, key': seq<int>)
    requires Keyed(h, key) && |key'| == |key|
    requires forall c :: 1 <= c < |h| ==> key'[h[c]] == key[h[c]]
    ensures Keyed(h, key')
    ensures HeapOrdered(h, key) ==> HeapOrdered(h, key')
  {
  }

  /** Exchange the vertices in slots a and b. */
  function Swap(v: seq<int>, a: int, b: int): (r: seq<int>)
    requires 0 <= a < |v| && 0 <= b < |v|
    ensures |r| == |v| && r[a] == v[b] && r[b] == v[a]
    ensures forall c :: 0 <= c < |v| && c != a && c != b ==> r[c] == v[c]
    ensures multiset(r) == multiset(v)
  {
    v[a := v[b]][b := v[a]]
  }

  /** One round of sifting up: a vertex less than its parent trades places with it. */
  lemma SiftUpStep(v: seq<int>, key: seq<int>, j: int)
    requires Keyed(v, key) && 2 <= j < |v|
    requires OrderedAbove(v, key, j)
    requires key[v[j]] < key[v[j / 2]]
    ensures Keyed(Swap(v, j, j / 2), key)
    ensures OrderedAbove(Swap(v, j, j / 2), key, j / 2)
  {
    var p := j / 2;
    var w := Swap(v, j, p);
    forall c | 2 <= c < |w| && c != p
      ensures key[w[c / 2]] <= key[w[c]]
    {
      if c == j {
      } else if c / 2 == j {
      } else if c / 2 == p {
        assert key[v[p]] <= key[v[c]];
      }
    }
    if 2 <= p {
      forall c | 2 <= c < |w| && c / 2 == p
        ensures key[w[p / 2]] <= key[w[c]]
      {
        assert key[v[p / 2]] <= key[v[p]];
        if c != j {
          assert key[v[p]] <= key[v[c]];
        }
      }
    }
  }

  /** Sifting up stops at the root or below a parent that is not greater: the array is a heap. */
  lemma SiftUpDone(v: seq<int>, key: seq<int>, j: int)
    requires Keyed(v, key) && 1 <= j < |v|
    requires OrderedAbove(v, key, j)
    requires j == 1 || !Less(key[v[j]], key[v[j / 2]])
    ensures HeapOrdered(v, key)
  {
  }

  /** One round of sifting down: a vertex greater than its lesser child trades places with it. */
  lemma SiftDownStep(v: seq<int>, key: seq<int>, j: int, k: int)
    requires Keyed(v, key) && 1 <= j && k / 2 == j && 2 <= k < |v|
    requires forall c :: 2 <= c < |v| && c / 2 == j ==> key[v[k]] <= key[v[c]]
    requires OrderedBelow(v, key, j)
    requires key[v[k]] < key[v[j]]
    ensures Keyed(Swap(v, j, k), key)
    ensures OrderedBelow(Swap(v, j, k), key, k)
  {
    var w := Swap(v, j, k);
    forall c | 2 <= c < |w| && c / 2 != k
      ensures key[w[c / 2]] <= key[w[c]]
    {
      if c == k {
      } else if c == j {
        assert key[v[j / 2]] <= key[v[k]];
      } else if c / 2 == j {
      }
    }
    forall c | 2 <= c < |w| && c / 2 == k
      ensures key[w[k / 2]] <= key[w[c]]
    {
      assert key[v[k]] <= key[v[c]];
    }
  }

  /** Sifting down stops at a leaf or above children that are not less: the array is a heap. */
  lemma SiftDownDone(v: seq<int>, key: seq<int>, j: int)
    requires Keyed(v, key) && 1 <= j < |v|
    requires OrderedBelow(v, key, j)
    requires forall c :: 2 <= c < |v| && c / 2 == j ==> !Less(key[v[c]], key[v[j]])
    ensures HeapOrdered(v, key)
  {
  }

  /** Slot consistency of the queueIndex table, except at the hole j. */
  ghost predicate IndexedAt(h: seq<int>, idx: map<int, int>, j: int) {
    forall c :: 1 <= c < |h| && c != j ==> h[c] in idx && idx[h[c]] == c
  }

  /** Moving the vertex of slot s into the hole j makes s the hole; x, the vertex held aside, stays apart. */
  lemma MoveIntoHole(h: seq<int>, idx: map<int, int>, j: int, s: int, x: int)
    requires 1 <= j < |h| && 1 <= s < |h| && s != j
    requires IndexedAt(h, idx, j)
    requires forall c :: 1 <= c < |h| && c != j ==> h[c] != x
    ensures IndexedAt(h[j := h[s]], idx[h[s] := j], s)
    ensures forall c :: 1 <= c < |h| && c != s && c != j ==> h[c] != x
    ensures h[s] != x
    ensures multiset(h[j := h[s]][s := x]) == multiset(Swap(h[j := x], j, s))
  {
    assert h[j := h[s]][s := x] == Swap(h[j := x], j, s);
  }

  /** Filling the hole j with x restores consistency at every slot. */
  lemma FillHole(h: seq<int>, idx: map<int, int>, j: int, x: int)
    requires 1 <= j < |h|
    requires IndexedAt(h, idx, j)
    requires forall c :: 1 <= c < |h| && c != j ==> h[c] != x
    ensures IndexedAt(h[j := x], idx[x := j], -1)
  {
  }

  /**
   * The state while a sift holds vertex x aside: slot j is the hole, `v` is the array with x
   * put back into the hole, every other slot is indexed and holds a vertex other than x.
   */
  ghost predicate Holding(h: seq<int>, idx: map<int, int>, v: seq<int>, j: int, x: int, key: seq<int>) {
    && 1 <= j < |h| && h[0] == NIL
    && (forall c :: 1 <= c < |h| ==> 0 <= h[c] < |key|)
    && 0 <= x < |key|
    && v == h[j := x]
    && (forall c :: 1 <= c < |h| && c != j ==> h[c] != x)
    && IndexedAt(h, idx, j)
  }

  /** Moving the vertex of slot s into the hole j makes s the hole and keeps the sift's state. */
  lemma HoleMoves(h: seq<int>, idx: map<int, int>, v: seq<int>, j: int, s: int, x: int, key: seq<int>)
    requires Holding(h, idx, v, j, x, key) && 1 <= s < |h| && s != j
    ensures Holding(h[j := h[s]], idx[h[s] := j], Swap(v, j, s), s, x, key)
  {
    MoveIntoHole(h, idx, j, s, x);
    var h' := h[j := h[s]];
    assert Swap(v, j, s) == h'[s := x];
  }

  /** Moving the parent of the hole down keeps the sift-up state one level higher. */
  lemma UpRound(h: seq<int>, idx: map<int, int>, v: seq<int>, j: int, x: int, key: seq<int>)
    requires Holding(h, idx, v, j, x, key) && j >= 2
    requires OrderedAbove(v, key, j)
    requires Less(key[x], key[h[j / 2]])
    ensures Holding(h[j := h[j / 2]], idx[h[j / 2] := j], Swap(v, j, j / 2), j / 2, x, key)
    ensures OrderedAbove(Swap(v, j, j / 2), key, j / 2)
  {
    assert Keyed(v, key);
    SiftUpStep(v, key, j);
    HoleMoves(h, idx, v, j, j / 2, x, key);
  }

  /** Moving the lesser child of the hole up keeps the sift-down state one level lower. */
  lemma DownRound(h: seq<int>, idx: map<int, int>, v: seq<int>, j: int, k: int, x: int, key: seq<int>)
    requires Holding(h, idx, v, j, x, key) && k / 2 == j && 2 <= k < |h|
    requires forall c :: 2 <= c < |h| && c / 2 == j ==> key[h[k]] <= key[h[c]]
    requires OrderedBelow(v, key, j)
    requires Less(key[h[k]], key[x])
    ensures Holding(h[j := h[k]], idx[h[k] := j], Swap(v, j, k), k, x, key)
    ensures OrderedBelow(Swap(v, j, k), key, k)
  {
    assert Keyed(v, key);
    forall c | 2 <= c < |v| && c / 2 == j ensures key[v[k]] <= key[v[c]] {
      assert v[c] == h[c];
    }
    SiftDownStep(v, key, j, k);
    HoleMoves(h, idx, v, j, k, x, key);
  }

  /** A slot whose left child would lie past the end has no children. */
  lemma NoChildren(n: int, j: int)
    requires 1 <= j && n <= 2 * j
    ensures forall c :: 2 <= c < n ==> c / 2 != j
  {
  }

  /** Slot k, the lesser of the children 2j and 2j + 1 of slot j, is no greater than any child of j. */
  lemma LesserChild(h: seq<int>, key: seq<int>, j: int, k: int)
    requires Keyed(h, key) && 1 <= j && 2 * j < |h|
    requires k == if 2 * j + 1 < |h| && Less(key[h[2 * j + 1]], key[h[2 * j]]) then 2 * j + 1 else 2 * j
    ensures k / 2 == j && 2 <= k < |h|
    ensures forall c :: 2 <= c < |h| && c / 2 == j ==> key[h[k]] <= key[h[c]]
  {
    assert forall c :: 2 <= c < |h| && c / 2 == j ==> c == 2 * j || c == 2 * j + 1;
  }

  /** Sifting down stops above children that are not less than x: putting x into the hole ends it. */
  lemma DownDone(h: seq<int>, idx: map<int, int>, v: seq<int>, j: int, x: int, key: seq<int>)
    requires Holding(h, idx, v, j, x, key) && OrderedBelow(v, key, j)
    requires forall c :: 2 <= c < |h| && c / 2 == j ==> !Less(key[h[c]], key[x])
    ensures HeapOrdered(v, key) && IndexedAt(v, idx[x := j], -1)
    ensures forall c :: 1 <= c < |v| ==> v[c] >= 0
  {
    forall c | 2 <= c < |v| && c / 2 == j ensures !Less(key[v[c]], key[v[j]]) {
      assert v[c] == h[c];
    }
    SiftDownDone(v, key, j);
    FillHole(h, idx, j, x);
  }

  /** Putting x into the hole ends a sift with every slot indexed. */
  lemma Fill(h: seq<int>, idx: map<int, int>, v: seq<int>, j: int, x: int, key: seq<int>)
    requires Holding(h, idx, v, j, x, key)
    ensures IndexedAt(v, idx[x := j], -1)
    ensures forall c :: 1 <= c < |v| ==> v[c] >= 0
  {
    FillHole(h, idx, j, x);
  }

  class PriorityQueue {
    /** `Heap`: slot 0 is the sentinel, slots 1.. the stored vertices. */
    var heap: seq<int>
    /** The `queueIndex` of each vertex the queue has placed; absent means the default 0. */
    var index: map<int, int>

    ghost predicate Valid()
      reads this
    {
      && |heap| >= 1 && heap[0] == NIL
      && forall c :: 1 <= c < |heap| ==> heap[c] >= 0 && heap[c] in index && index[heap[c]] == c
    }

    /** The vertices currently queued. */
    ghost function Contents(): multiset<int>
      reads this
      requires |heap| >= 1
    {
      multiset(heap[1..])
    }

    /** `x->queueIndex`. */
    function QueueIndex(x: int): int
      reads this
    {
      if x in index then index[x] else 0
    }

    /** Ordered and keyed: the state between two public operations. */
    ghost predicate HeapFor(key: seq<int>)
      reads this
    {
      Valid() && Keyed(heap, key) && HeapOrdered(heap, key)
    }

    /** Index consistency holds at every slot except the hole at j. */
    ghost predicate IndexedExcept(j: int)
      reads this
    {
      IndexedAt(heap, index, j)
    }

    /** Changing the key of a vertex that is not queued leaves the heap ordered. */
    lemma Rekeyed(key: seq<int>, w: int, k: int)
      requires HeapFor(key) && 0 <= w < |key| && w !in Contents()
      ensures HeapFor(key[w := k])
    {
      forall c | 1 <= c < |heap| ensures key[w := k][heap[c]] == key[heap[c]] {
        assert heap[c] == heap[1..][c - 1];
      }
      SameKeysSameOrder(heap, key, key[w := k]);
    }

    /** A fresh queue holds only the sentinel. */
    constructor ()
      ensures Valid() && heap == [NIL] && Contents() == multiset{}
      ensures forall key :: HeapFor(key)
    {
      heap := [NIL];
      index := map[];
    }

    /** `empty()`: only the sentinel is left. */
    method Empty() returns (e: bool)
      requires Valid()
      ensures e <==> |heap| == 1
      ensures e <==> Contents() == multiset{}
    {
      e := |heap| == 1;
    }

    /** `set(i, x)`: store x in slot i and record the slot in x's queueIndex. */
    method Set(i: int, x: int)
      requires 1 <= i < |heap|
      modifies this
      ensures heap == old(heap)[i := x]
      ensures index == old(index)[x := i]
      ensures QueueIndex(x) == i
    {
      heap := heap[i := x];
      index := index[x := i];
    }

    /** `heapifyUp(i)`: move the vertex in slot i toward the root while it is less than its parent. */
    method HeapifyUp(i: int, key: seq<int>)
      requires 1 <= i < |heap| && heap[0] == NIL
      requires forall c :: 1 <= c < |heap| ==> heap[c] >= 0
      requires Keyed(heap, key)
      requires IndexedExcept(i)
      requires forall c :: 1 <= c < |heap| && c != i ==> heap[c] != heap[i]
      requires OrderedAbove(heap, key, i)
      modifies this
      ensures HeapFor(key)
      ensures |heap| == old(|heap|)
      ensures multiset(heap) == old(multiset(heap))
    {
      var x := heap[i];
      var j := i;
      ghost var v := heap;
      while j > 1 && Less(key[x], key[heap[j / 2]])
        invariant 1 <= j <= i && |heap| == old(|heap|)
        invariant Holding(heap, index, v, j, x, key)
        invariant multiset(v) == old(multiset(heap))
        invariant OrderedAbove(v, key, j)
        decreases j
      {
        UpRound(heap, index, v, j, x, key);
        v := Swap(v, j, j / 2);
        Set(j, heap[j / 2]);
        j := j / 2;
      }
      SiftUpDone(v, key, j);
      Fill(heap, index, v, j, x, key);
      Set(j, x);
    }

    /** `heapifyDown(i)`: move the vertex in slot i toward the leaves while a child is less than it. */
    method HeapifyDown(i: int, key: seq<int>)
      requires 1 <= i < |heap| && heap[0] == NIL
      requires forall c :: 1 <= c < |heap| ==> heap[c] >= 0
      requires Keyed(heap, key)
      requires IndexedExcept(i)
      requires forall c :: 1 <= c < |heap| && c != i ==> heap[c] != heap[i]
      requires OrderedBelow(heap, key, i)
      modifies this
      ensures HeapFor(key)
      ensures |heap| == old(|heap|)
      ensures multiset(heap) == old(multiset(heap))
    {
      var x := heap[i];
      var j := i;
      ghost var v := heap;
      while true
        invariant i <= j < |heap| && |heap| == old(|heap|)
        invariant Holding(heap, index, v, j, x, key)
        invariant multiset(v) == old(multiset(heap))
        invariant OrderedBelow(v, key, j)
        decreases |heap| - j
      {
        var k := 2 * j;
        if k >= |heap| {
          NoChildren(|heap|, j);
          break;
        }
        if k + 1 < |heap| && Less(key[heap[k + 1]], key[heap[k]]) {
          k := k + 1;
        }
        LesserChild(heap, key, j, k);
        if !Less(key[heap[k]], key[x]) {
          break;
        }
        MoveUp(j, k, v, x, key);
        v := Swap(v, j, k);
        j := k;
      }
      DownDone(heap, index, v, j, x, key);
      Set(j, x);
    }

    /** One round of `heapifyDown`: the lesser child k of the hole j moves up into it. */
    method MoveUp(j: int, k: int, ghost v: seq<int>, ghost x: int, ghost key: seq<int>)
      requires Holding(heap, index, v, j, x, key) && k / 2 == j && 2 <= k < |heap|
      requires forall c :: 2 <= c < |heap| && c / 2 == j ==> key[heap[k]] <= key[heap[c]]
      requires OrderedBelow(v, key, j)
      requires Less(key[heap[k]], key[x])
      modifies this
      ensures |heap| == old(|heap|)
      ensures Holding(heap, index, Swap(v, j, k), k, x, key) && OrderedBelow(Swap(v, j, k), key, k)
    {
      DownRound(heap, index, v, j, k, x, key);
      Set(j, heap[k]);
    }

    /** `insert(x)`: append x and sift it up. */
    method Insert(x: int, key: seq<int>)
      requires HeapFor(key)
      requires 0 <= x < |key|
      requires x !in Contents()
      modifies this
      ensures HeapFor(key)
      ensures Contents() == old(Contents()) + multiset{x}
      ensures QueueIndex(x) >= 1
    {
      ghost var h0 := heap;
      Appended(h0, x);
      heap := heap + [x];
      ghost var h1 := heap;
      HeapifyUp(|heap| - 1, key);
      SameStored(heap, h1);
      StoredIndexed(heap, index, x);
    }

    /** `extractMin()`: take the vertex in slot 1, move the last one there and sift it down. */
    method ExtractMin(key: seq<int>) returns (x: int)
      requires HeapFor(key)
      requires Contents() != multiset{}
      modifies this
      ensures HeapFor(key)
      ensures x in old(Contents())
      ensures Contents() == old(Contents()) - multiset{x}
      ensures forall y :: y in Contents() ==> key[x] <= key[y]
      ensures QueueIndex(x) == 0
    {
      RootIsLeastStored(heap, key);
      x := heap[1];
      ghost var h0 := heap;
      var r := heap[1 := heap[|heap| - 1]][..|heap| - 1];
      ExtractPrepared(h0, index, key, r);
      heap := r;
      if |heap| > 1 {
        HeapifyDown(1, key);
        SameStored(heap, r);
      }
      assert Contents() == multiset(h0[1..]) - multiset{x};
      Absent(heap, index, x);
      index := index[x := 0];
    }

    /** `decreaseKey(x)`, called after x's key was lowered from `oldKey[x]` to `key[x]`. */
    method DecreaseKey(x: int, key: seq<int>, ghost oldKey: seq<int>)
      requires HeapFor(oldKey)
      requires x in Contents()
      requires |key| == |oldKey| && 0 <= x < |key|
      requires forall v :: 0 <= v < |key| && v != x ==> key[v] == oldKey[v]
      requires key[x] <= oldKey[x]
      modifies this
      ensures HeapFor(key)
      ensures Contents() == old(Contents())
    {
      ghost var i :| 1 <= i < |heap| && heap[i] == x;
      assert QueueIndex(x) == i;
      ghost var h0 := heap;
      LoweredKey(heap, key, oldKey, i);
      HeapifyUp(QueueIndex(x), key);
      SameStored(heap, h0);
    }
  }
}
