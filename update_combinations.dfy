/**
  The pairwise root-distance update of treespace: for every leaf pair that
  crosses a split (one leaf from the left partition, one from the right), the
  routine stamps the split's path length and edge count into the pair's slot
  of two flat tables that store a symmetric leaf-by-leaf matrix as its packed
  upper triangle.

  The specification side has two readings of the final table:
  - Stamp(a, Slots(...), v): every slot of a crossing pair holds v and every
    other slot keeps its old value (order-free);
  - Replay(a, ...): the writes replayed one by one in the order of the
    routine's two nested loops.
  ReplayIsStamp connects them; the method is proved against both.
*/
module UpdateCombinations {

  /** The pair normalisation: the smaller leaf id comes first. */
  function OrderPair(i: int, j: int): (p: (int, int))
    ensures p.0 <= p.1
    ensures (p.0 == i && p.1 == j) || (p.0 == j && p.1 == i)
    ensures p.0 < p.1 <==> i != j
  {
    if i > j then (j, i) else (i, j)
  }

  /** Slot (0-based) of the leaf pair first <= second, from the per-leaf offsets
      table (indexed by 1-based leaf id). */
  function PackedIndex(offsets: seq<int>, first: int, second: int): int
    requires 1 <= first <= |offsets|
  {
    offsets[first - 1] + (second - first) - 1
  }

  /** The slot written for leaf i of one partition and leaf j of the other. */
  function PairSlot(offsets: seq<int>, i: int, j: int): int
    requires 1 <= OrderPair(i, j).0 <= |offsets|
  {
    var p := OrderPair(i, j);
    PackedIndex(offsets, p.0, p.1)
  }

  /** The smaller leaf of every crossing pair names an entry of the offsets table. */
  predicate IdsInTable(offsets: seq<int>, left: seq<int>, right: seq<int>)
  {
    forall i, j {:trigger OrderPair(i, j)} :: i in left && j in right ==> 1 <= OrderPair(i, j).0 <= |offsets|
  }

  /** Every access the routine makes is in bounds for an output table of length n.
      The routine itself checks none of this. */
  predicate Addressable(offsets: seq<int>, left: seq<int>, right: seq<int>, n: int)
  {
    && IdsInTable(offsets, left, right)
    && forall i, j {:trigger PairSlot(offsets, i, j)} :: i in left && j in right ==> 0 <= PairSlot(offsets, i, j) < n
  }

  /** The set of slots the routine writes: one per crossing pair. */
  function Slots(offsets: seq<int>, left: seq<int>, right: seq<int>): set<int>
    requires IdsInTable(offsets, left, right)
  {
    set i, j | i in left && j in right :: PairSlot(offsets, i, j)
  }

  /** The table a with every slot in `slots` set to v. */
  function Stamp(a: seq<real>, slots: set<int>, v: real): seq<real>
  {
    seq(|a|, k requires 0 <= k < |a| => if k in slots then v else a[k])
  }

  /** The writes of the inner loop for left[p], in the routine's loop order, up to right[q - 1]. */
  function ReplayRow(a: seq<real>, offsets: seq<int>, left: seq<int>, right: seq<int>, p: int, q: int, v: real)
    : (r: seq<real>)
    requires Addressable(offsets, left, right, |a|)
    requires 0 <= p < |left| && 0 <= q <= |right|
    ensures |r| == |a|
    decreases q
  {
    if q == 0 then a
    else ReplayRow(a, offsets, left, right, p, q - 1, v)[PairSlot(offsets, left[p], right[q - 1]) := v]
  }

  /** The writes of the first p passes of the outer loop, in the routine's loop order. */
  function ReplayRows(a: seq<real>, offsets: seq<int>, left: seq<int>, right: seq<int>, p: int, v: real)
    : (r: seq<real>)
    requires Addressable(offsets, left, right, |a|)
    requires 0 <= p <= |left|
    ensures |r| == |a|
    decreases p
  {
    if p == 0 then a
    else ReplayRow(ReplayRows(a, offsets, left, right, p - 1, v), offsets, left, right, p - 1, |right|, v)
  }

  /** Every write of the routine, replayed in the order of its two loops. */
  function Replay(a: seq<real>, offsets: seq<int>, left: seq<int>, right: seq<int>, v: real): (r: seq<real>)
    requires Addressable(offsets, left, right, |a|)
    ensures |r| == |a|
  {
    ReplayRows(a, offsets, left, right, |left|, v)
  }

  /** The routine: two nested loops over the partitions, normalising each pair,
      rolling its packed index and writing both tables there. Both tables are
      references; if the caller passes the same table twice, the edge count,
      written second, is what every written slot ends up holding. */
  method UpdateDistancesWithCombinations(
    lengthRootDistances: array<real>,
    topologicalRootDistances: array<real>,
    leftPartition: array<int>,
    rightPartition: array<int>,
    indexOffsets: array<int>,
    distanceToRoot: real,
    edgesToRoot: int)
    requires Addressable(indexOffsets[..], leftPartition[..], rightPartition[..], lengthRootDistances.Length)
    requires Addressable(indexOffsets[..], leftPartition[..], rightPartition[..], topologicalRootDistances.Length)
    modifies lengthRootDistances, topologicalRootDistances
    ensures unchanged(leftPartition, rightPartition, indexOffsets)
    ensures topologicalRootDistances[..]
         == Replay(old(topologicalRootDistances[..]), indexOffsets[..], leftPartition[..], rightPartition[..],
                   edgesToRoot as real)
    ensures lengthRootDistances != topologicalRootDistances ==>
              (lengthRootDistances[..]
               == Replay(old(lengthRootDistances[..]), indexOffsets[..], leftPartition[..], rightPartition[..],
                         distanceToRoot))
    ensures topologicalRootDistances[..]
         == Stamp(old(topologicalRootDistances[..]), Slots(indexOffsets[..], leftPartition[..], rightPartition[..]),
                  edgesToRoot as real)
    ensures lengthRootDistances != topologicalRootDistances ==>
              (lengthRootDistances[..]
               == Stamp(old(lengthRootDistances[..]), Slots(indexOffsets[..], leftPartition[..], rightPartition[..]),
                        distanceToRoot))
  {
    ghost var offsets, left, right := indexOffsets[..], leftPartition[..], rightPartition[..];
    ghost var length0, topological0 := lengthRootDistances[..], topologicalRootDistances[..];
    ghost var e := edgesToRoot as real;
    var i := 0;
    while i < leftPartition.Length
      invariant 0 <= i <= leftPartition.Length
      invariant topologicalRootDistances[..] == ReplayRows(topological0, offsets, left, right, i, e)
      invariant lengthRootDistances != topologicalRootDistances ==>
                  (lengthRootDistances[..] == ReplayRows(length0, offsets, left, right, i, distanceToRoot))
    {
      ghost var topologicalRows, lengthRows := topologicalRootDistances[..], lengthRootDistances[..];
      var j := 0;
      while j < rightPartition.Length
        invariant 0 <= j <= rightPartition.Length
        invariant topologicalRootDistances[..] == ReplayRow(topologicalRows, offsets, left, right, i, j, e)
        invariant lengthRootDistances != topologicalRootDistances ==>
                    (lengthRootDistances[..] == ReplayRow(lengthRows, offsets, left, right, i, j, distanceToRoot))
      {
        PairInBounds(offsets, left, right, |length0|, i, j);
        PairInBounds(offsets, left, right, |topological0|, i, j);
        var firstLeaf := leftPartition[i];
        var secondLeaf := rightPartition[j];
        if leftPartition[i] > rightPartition[j] {
          firstLeaf := rightPartition[j];
          secondLeaf := leftPartition[i];
        }
        assert (firstLeaf, secondLeaf) == OrderPair(left[i], right[j]);
        var combinationIndex := indexOffsets[firstLeaf - 1] + (secondLeaf - firstLeaf) - 1;
        assert combinationIndex == PackedIndex(offsets, firstLeaf, secondLeaf)
                                == PairSlot(offsets, left[i], right[j]);
        lengthRootDistances[combinationIndex] := distanceToRoot;
        topologicalRootDistances[combinationIndex] := edgesToRoot as real;
        j := j + 1;
      }
      i := i + 1;
    }
    ReplayIsStamp(topological0, offsets, left, right, e);
    if lengthRootDistances != topologicalRootDistances {
      ReplayIsStamp(length0, offsets, left, right, distanceToRoot);
    }
  }

  /** The pair (left[p], right[q]) is one the bounds assumption covers. */
  lemma PairInBounds(offsets: seq<int>, left: seq<int>, right: seq<int>, n: int, p: int, q: int)
    requires Addressable(offsets, left, right, n)
    requires 0 <= p < |left| && 0 <= q < |right|
    ensures 1 <= OrderPair(left[p], right[q]).0 <= |offsets|
    ensures 0 <= PairSlot(offsets, left[p], right[q]) < n
  {
  }

  // ---------------------------------------------------------------------------
  // Replay agrees with Stamp

  /** The slots written by the inner loop for left[p], up to right[q - 1]. */
  function RowSlots(offsets: seq<int>, left: seq<int>, right: seq<int>, p: int, q: int): set<int>
    requires IdsInTable(offsets, left, right)
    requires 0 <= p < |left| && 0 <= q <= |right|
  {
    set j | 0 <= j < q :: PairSlot(offsets, left[p], right[j])
  }

  /** The slots written by the first p passes of the outer loop. */
  function RowsSlots(offsets: seq<int>, left: seq<int>, right: seq<int>, p: int): set<int>
    requires IdsInTable(offsets, left, right)
    requires 0 <= p <= |left|
  {
    set i, j | 0 <= i < p && 0 <= j < |right| :: PairSlot(offsets, left[i], right[j])
  }

  /** Stamping two slot sets with one value is stamping their union. */
  lemma StampStamp(a: seq<real>, s1: set<int>, s2: set<int>, v: real)
    ensures Stamp(Stamp(a, s1, v), s2, v) == Stamp(a, s1 + s2, v)
  {
  }

  lemma {:induction false} ReplayRowIsStamp(a: seq<real>, offsets: seq<int>, left: seq<int>, right: seq<int>,
                                            p: int, q: int, v: real)
    requires Addressable(offsets, left, right, |a|)
    requires 0 <= p < |left| && 0 <= q <= |right|
    ensures ReplayRow(a, offsets, left, right, p, q, v) == Stamp(a, RowSlots(offsets, left, right, p, q), v)
    decreases q
  {
    if q == 0 {
      assert RowSlots(offsets, left, right, p, q) == {};
    } else {
      ReplayRowIsStamp(a, offsets, left, right, p, q - 1, v);
      var k := PairSlot(offsets, left[p], right[q - 1]);
      assert RowSlots(offsets, left, right, p, q) == RowSlots(offsets, left, right, p, q - 1) + {k};
      StampStamp(a, RowSlots(offsets, left, right, p, q - 1), {k}, v);
    }
  }

  lemma {:induction false} ReplayRowsIsStamp(a: seq<real>, offsets: seq<int>, left: seq<int>, right: seq<int>,
                                             p: int, v: real)
    requires Addressable(offsets, left, right, |a|)
    requires 0 <= p <= |left|
    ensures ReplayRows(a, offsets, left, right, p, v) == Stamp(a, RowsSlots(offsets, left, right, p), v)
    decreases p
  {
    if p == 0 {
      assert RowsSlots(offsets, left, right, p) == {};
    } else {
      ReplayRowsIsStamp(a, offsets, left, right, p - 1, v);
      ReplayRowIsStamp(ReplayRows(a, offsets, left, right, p - 1, v), offsets, left, right, p - 1, |right|, v);
      assert RowsSlots(offsets, left, right, p)
          == RowsSlots(offsets, left, right, p - 1) + RowSlots(offsets, left, right, p - 1, |right|);
      StampStamp(a, RowsSlots(offsets, left, right, p - 1), RowSlots(offsets, left, right, p - 1, |right|), v);
    }
  }

  /** Replaying every write in loop order leaves every crossing pair's slot at v
      and every other slot as it was: the loop order does not matter. */
  lemma ReplayIsStamp(a: seq<real>, offsets: seq<int>, left: seq<int>, right: seq<int>, v: real)
    requires Addressable(offsets, left, right, |a|)
    ensures Replay(a, offsets, left, right, v) == Stamp(a, Slots(offsets, left, right), v)
  {
    ReplayRowsIsStamp(a, offsets, left, right, |left|, v);
    assert RowsSlots(offsets, left, right, |left|) == Slots(offsets, left, right) by {
      forall k | k in Slots(offsets, left, right)
        ensures k in RowsSlots(offsets, left, right, |left|)
      {
        var x, y :| x in left && y in right && k == PairSlot(offsets, x, y);
        var i :| 0 <= i < |left| && left[i] == x;
        var j :| 0 <= j < |right| && right[j] == y;
      }
    }
  }

  // ---------------------------------------------------------------------------
  // What the routine's result depends on

  /** The slot of a pair does not depend on which side each leaf came from. */
  lemma PairSlotSymmetric(offsets: seq<int>, i: int, j: int)
    requires 1 <= OrderPair(i, j).0 <= |offsets|
    ensures 1 <= OrderPair(j, i).0 <= |offsets|
    ensures PairSlot(offsets, i, j) == PairSlot(offsets, j, i)
  {
  }

  /** Exactly the crossing pairs' slots are written, with v; every other slot
      keeps its value and the table keeps its length. */
  lemma ReplayWritesExactlySlots(a: seq<real>, offsets: seq<int>, left: seq<int>, right: seq<int>, v: real)
    requires Addressable(offsets, left, right, |a|)
    ensures |Replay(a, offsets, left, right, v)| == |a|
    ensures forall i, j :: i in left && j in right ==> Replay(a, offsets, left, right, v)[PairSlot(offsets, i, j)] == v
    ensures forall k :: 0 <= k < |a| && k !in Slots(offsets, left, right) ==> Replay(a, offsets, left, right, v)[k] == a[k]
  {
    ReplayIsStamp(a, offsets, left, right, v);
  }

  /** Swapping the two partitions writes the same slots. */
  lemma SlotsSymmetric(offsets: seq<int>, left: seq<int>, right: seq<int>)
    requires IdsInTable(offsets, left, right)
    ensures IdsInTable(offsets, right, left)
    ensures Slots(offsets, left, right) == Slots(offsets, right, left)
  {
    forall j, i | j in right && i in left ensures 1 <= OrderPair(j, i).0 <= |offsets| {
      PairSlotSymmetric(offsets, i, j);
    }
    forall k | k in Slots(offsets, left, right) ensures k in Slots(offsets, right, left) {
      var i, j :| i in left && j in right && k == PairSlot(offsets, i, j);
      PairSlotSymmetric(offsets, i, j);
    }
    forall k | k in Slots(offsets, right, left) ensures k in Slots(offsets, left, right) {
      var j, i :| j in right && i in left && k == PairSlot(offsets, j, i);
      PairSlotSymmetric(offsets, i, j);
    }
  }

  /** Calling the routine with the partitions swapped gives the same tables. */
  lemma SwapPartitions(a: seq<real>, offsets: seq<int>, left: seq<int>, right: seq<int>, v: real)
    requires Addressable(offsets, left, right, |a|)
    ensures Addressable(offsets, right, left, |a|)
    ensures Replay(a, offsets, left, right, v) == Replay(a, offsets, right, left, v)
  {
    SlotsSymmetric(offsets, left, right);
    forall j, i | j in right && i in left ensures 0 <= PairSlot(offsets, j, i) < |a| {
      PairSlotSymmetric(offsets, i, j);
    }
    ReplayIsStamp(a, offsets, left, right, v);
    ReplayIsStamp(a, offsets, right, left, v);
  }

  /** Permuting either partition gives the same tables. */
  lemma ReorderPartitions(a: seq<real>, offsets: seq<int>, left: seq<int>, right: seq<int>,
                          left': seq<int>, right': seq<int>, v: real)
    requires Addressable(offsets, left, right, |a|)
    requires multiset(left') == multiset(left) && multiset(right') == multiset(right)
    ensures Addressable(offsets, left', right', |a|)
    ensures Replay(a, offsets, left', right', v) == Replay(a, offsets, left, right, v)
  {
    assert forall x :: x in left' <==> x in left by {
      forall x ensures x in left' <==> x in left {
        assert x in left' <==> x in multiset(left');
        assert x in left <==> x in multiset(left);
      }
    }
    assert forall y :: y in right' <==> y in right by {
      forall y ensures y in right' <==> y in right {
        assert y in right' <==> y in multiset(right');
        assert y in right <==> y in multiset(right);
      }
    }
    assert Slots(offsets, left', right') == Slots(offsets, left, right);
    ReplayIsStamp(a, offsets, left, right, v);
    ReplayIsStamp(a, offsets, left', right', v);
  }

  /** Running the routine twice with the same arguments is running it once. */
  lemma ReplayTwice(a: seq<real>, offsets: seq<int>, left: seq<int>, right: seq<int>, v: real)
    requires Addressable(offsets, left, right, |a|)
    ensures Addressable(offsets, left, right, |Replay(a, offsets, left, right, v)|)
    ensures Replay(Replay(a, offsets, left, right, v), offsets, left, right, v) == Replay(a, offsets, left, right, v)
  {
    var once := Replay(a, offsets, left, right, v);
    ReplayIsStamp(a, offsets, left, right, v);
    ReplayIsStamp(once, offsets, left, right, v);
    StampStamp(a, Slots(offsets, left, right), Slots(offsets, left, right), v);
  }

  /** With an empty partition the loop body never runs: nothing changes. */
  lemma EmptyPartition(a: seq<real>, offsets: seq<int>, left: seq<int>, right: seq<int>, v: real)
    requires left == [] || right == []
    ensures Addressable(offsets, left, right, |a|)
    ensures Replay(a, offsets, left, right, v) == a
  {
    ReplayIsStamp(a, offsets, left, right, v);
    assert Slots(offsets, left, right) == {};
  }

  /** Two splits whose written slots are disjoint can be applied in either order,
      whatever values they carry. */
  lemma DisjointSplitsCommute(a: seq<real>, offsets: seq<int>,
                              left1: seq<int>, right1: seq<int>, v1: real,
                              left2: seq<int>, right2: seq<int>, v2: real)
    requires Addressable(offsets, left1, right1, |a|) && Addressable(offsets, left2, right2, |a|)
    requires Slots(offsets, left1, right1) !! Slots(offsets, left2, right2)
    ensures Replay(Replay(a, offsets, left1, right1, v1), offsets, left2, right2, v2)
         == Replay(Replay(a, offsets, left2, right2, v2), offsets, left1, right1, v1)
  {
    var a1 := Replay(a, offsets, left1, right1, v1);
    var a2 := Replay(a, offsets, left2, right2, v2);
    ReplayIsStamp(a, offsets, left1, right1, v1);
    ReplayIsStamp(a, offsets, left2, right2, v2);
    ReplayIsStamp(a1, offsets, left2, right2, v2);
    ReplayIsStamp(a2, offsets, left1, right1, v1);
  }

  /** Two splits carrying the same value, applied one after the other, write the
      union of their slots, as one combined pass would. */
  lemma SplitsWithSameValue(a: seq<real>, offsets: seq<int>,
                            left1: seq<int>, right1: seq<int>, left2: seq<int>, right2: seq<int>, v: real)
    requires Addressable(offsets, left1, right1, |a|) && Addressable(offsets, left2, right2, |a|)
    ensures Replay(Replay(a, offsets, left1, right1, v), offsets, left2, right2, v)
         == Stamp(a, Slots(offsets, left1, right1) + Slots(offsets, left2, right2), v)
  {
    var a1 := Replay(a, offsets, left1, right1, v);
    ReplayIsStamp(a, offsets, left1, right1, v);
    ReplayIsStamp(a1, offsets, left2, right2, v);
    StampStamp(a, Slots(offsets, left1, right1), Slots(offsets, left2, right2), v);
  }
}
