/**
  The packing the offsets table is meant to describe. The routine takes the
  table as given; its caller builds it so that the pairs (a, b), a < b, of
  n leaves fill the slots 0 .. n(n-1)/2 - 1 of the upper triangle row by row.
  Under that packing, leaf ids in 1..n and partitions with no common leaf are
  enough for every access of the routine to be in bounds, and distinct leaf
  pairs never share a slot.
*/
module TriangularPacking {
  import opened UpdateCombinations

  /** offsets[a - 1] is where row a of the upper triangle starts; row a holds
      the n - a pairs (a, a + 1) .. (a, n). */
  predicate Packed(offsets: seq<int>)
  {
    && (|offsets| > 0 ==> offsets[0] == 0)
    && forall a :: 1 <= a < |offsets| ==> offsets[a] == offsets[a - 1] + (|offsets| - a)
  }

  /** Every id in s names one of the n leaves. */
  predicate LeavesIn(s: seq<int>, n: int)
  {
    forall x :: x in s ==> 1 <= x <= n
  }

  /** No leaf is on both sides of the split. */
  predicate NoCommonLeaf(left: seq<int>, right: seq<int>)
  {
    forall i, j :: i in left && j in right ==> i != j
  }

  /** The normalised leaf pairs the routine visits. */
  function Pairs(left: seq<int>, right: seq<int>): set<(int, int)>
  {
    set i, j | i in left && j in right :: OrderPair(i, j)
  }

  /** Row t (0-based) starts after t rows of n - 1, n - 2, ... entries. */
  lemma {:induction false} PackedClosedForm(offsets: seq<int>, t: int)
    requires Packed(offsets)
    requires 0 <= t < |offsets|
    ensures 2 * offsets[t] == t * (2 * |offsets| - t - 1)
  {
    if t > 0 {
      PackedClosedForm(offsets, t - 1);
      var n := |offsets|;
      calc {
        2 * offsets[t];
        2 * offsets[t - 1] + 2 * (n - t);
        (t - 1) * (2 * n - t) + 2 * (n - t);
        { assert (t - 1) * (2 * n - t) == t * (2 * n - t) - (2 * n - t); }
        t * (2 * n - t) - t;
        t * (2 * n - t - 1);
      }
    }
  }

  /** Row a ends no later than any later row c starts. */
  lemma {:induction false} PackedRowsOrdered(offsets: seq<int>, a: int, c: int)
    requires Packed(offsets)
    requires 1 <= a < c <= |offsets|
    ensures offsets[a - 1] + (|offsets| - a) <= offsets[c - 1]
    decreases c - a
  {
    if c > a + 1 {
      PackedRowsOrdered(offsets, a + 1, c);
    }
  }

  /** Row n, which is empty, starts at n(n-1)/2: the slots 0 .. n(n-1)/2 - 1
      before it hold every pair. */
  lemma PackedTableSize(offsets: seq<int>)
    requires Packed(offsets)
    requires |offsets| >= 1
    ensures 2 * offsets[|offsets| - 1] == |offsets| * (|offsets| - 1)
  {
    var n := |offsets|;
    PackedClosedForm(offsets, n - 1);
    assert (n - 1) * (2 * n - (n - 1) - 1) == (n - 1) * n == n * (n - 1);
  }

  /** The slot of a pair a < b lies in row a, before the start n(n-1)/2 of the
      empty row n. */
  lemma PackedIndexInRow(offsets: seq<int>, a: int, b: int)
    requires Packed(offsets)
    requires 1 <= a < b <= |offsets|
    ensures offsets[a - 1] <= PackedIndex(offsets, a, b) < offsets[a - 1] + (|offsets| - a)
    ensures 0 <= PackedIndex(offsets, a, b) < offsets[|offsets| - 1]
  {
    var n := |offsets|;
    if a > 1 {
      PackedRowsOrdered(offsets, 1, a);
    }
    PackedRowsOrdered(offsets, a, n);
  }

  /** Distinct pairs get distinct slots. */
  lemma PackedIndexInjective(offsets: seq<int>, a: int, b: int, c: int, d: int)
    requires Packed(offsets)
    requires 1 <= a < b <= |offsets| && 1 <= c < d <= |offsets|
    requires PackedIndex(offsets, a, b) == PackedIndex(offsets, c, d)
    ensures a == c && b == d
  {
    PackedIndexInRow(offsets, a, b);
    PackedIndexInRow(offsets, c, d);
    if a < c {
      PackedRowsOrdered(offsets, a, c);
    } else if c < a {
      PackedRowsOrdered(offsets, c, a);
    }
  }

  /** Under the packing, the bounds the routine trusts its caller for hold as soon
      as every id names a leaf, no leaf is on both sides, and each table has
      room for the n(n-1)/2 pairs. */
  lemma PackedPartitionsAddressable(offsets: seq<int>, left: seq<int>, right: seq<int>, m: int)
    requires Packed(offsets)
    requires LeavesIn(left, |offsets|) && LeavesIn(right, |offsets|)
    requires NoCommonLeaf(left, right)
    requires |offsets| * (|offsets| - 1) <= 2 * m
    ensures Addressable(offsets, left, right, m)
  {
    forall i, j | i in left && j in right ensures 1 <= OrderPair(i, j).0 <= |offsets| {
    }
    forall i, j | i in left && j in right ensures 0 <= PairSlot(offsets, i, j) < m {
      var p := OrderPair(i, j);
      PackedIndexInRow(offsets, p.0, p.1);
      PackedTableSize(offsets);
    }
  }

  /** Under the packing, two splits write disjoint slots exactly when they visit
      disjoint sets of leaf pairs. */
  lemma PackedSlotsDisjoint(offsets: seq<int>, left1: seq<int>, right1: seq<int>, left2: seq<int>, right2: seq<int>)
    requires Packed(offsets)
    requires LeavesIn(left1, |offsets|) && LeavesIn(right1, |offsets|) && NoCommonLeaf(left1, right1)
    requires LeavesIn(left2, |offsets|) && LeavesIn(right2, |offsets|) && NoCommonLeaf(left2, right2)
    ensures IdsInTable(offsets, left1, right1) && IdsInTable(offsets, left2, right2)
    ensures Slots(offsets, left1, right1) !! Slots(offsets, left2, right2)
        <==> Pairs(left1, right1) !! Pairs(left2, right2)
  {
    var n := |offsets|;
    PackedPartitionsAddressable(offsets, left1, right1, n * n);
    PackedPartitionsAddressable(offsets, left2, right2, n * n);
    if !(Slots(offsets, left1, right1) !! Slots(offsets, left2, right2)) {
      var k :| k in Slots(offsets, left1, right1) && k in Slots(offsets, left2, right2);
      var i1, j1 :| i1 in left1 && j1 in right1 && k == PairSlot(offsets, i1, j1);
      var i2, j2 :| i2 in left2 && j2 in right2 && k == PairSlot(offsets, i2, j2);
      var p1, p2 := OrderPair(i1, j1), OrderPair(i2, j2);
      PackedIndexInjective(offsets, p1.0, p1.1, p2.0, p2.1);
      assert p1 in Pairs(left1, right1) && p1 in Pairs(left2, right2);
    }
    if !(Pairs(left1, right1) !! Pairs(left2, right2)) {
      var p :| p in Pairs(left1, right1) && p in Pairs(left2, right2);
      var i1, j1 :| i1 in left1 && j1 in right1 && p == OrderPair(i1, j1);
      var i2, j2 :| i2 in left2 && j2 in right2 && p == OrderPair(i2, j2);
      assert PairSlot(offsets, i1, j1) in Slots(offsets, left1, right1);
      assert PairSlot(offsets, i2, j2) in Slots(offsets, left2, right2);
    }
  }

  /** Four leaves: rows of 3, 2 and 1 pairs start at 0, 3 and 5; the split
      {1} | {2, 3} writes slots 0 and 1, for the pairs (1, 2) and (1, 3). */
  lemma FourLeafExample(a: seq<real>)
    requires |a| == 6
    ensures Packed([0, 3, 5, 6])
    ensures Addressable([0, 3, 5, 6], [1], [2, 3], |a|)
    ensures Replay(a, [0, 3, 5, 6], [1], [2, 3], 2.5) == [2.5, 2.5] + a[2..]
    ensures Replay(a, [0, 3, 5, 6], [1], [2, 3], 4 as real) == [4.0, 4.0] + a[2..]
  {
  }
}
