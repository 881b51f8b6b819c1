# treespace: pairwise root-distance update

This project models, in Dafny, the native routine `updateDistancesWithCombinations`
of the R package treespace. A split of a tree separates its leaves into a left and a
right partition (1-based leaf ids). For every leaf pair that crosses the split, the
routine writes the split's path length (`distance_to_root`) and edge count
(`edges_to_root`) into two flat tables. Each table stores a symmetric
leaf-by-leaf matrix as its packed upper triangle. The slot of the pair
`first < second` is `index_offsets[first-1] + (second - first) - 1`.

- `update_combinations.dfy`, module `UpdateCombinations`: the routine itself.
  `UpdateDistancesWithCombinations` is a method over two `array<real>` tables and
  three `array<int>` inputs. It keeps the routine's two nested loops, the pair
  normalisation and the index formula. It is proved against two specification
  functions:
  - `Replay` performs the writes one at a time, in loop order.
  - `Stamp(a, Slots(...), v)` is the order-free reading: every crossing pair's
    slot holds `v`, and every other slot keeps its value.

  `ReplayIsStamp` proves the two agree. The remaining lemmas give symmetry in the
  two partitions, independence from element order, idempotence, the empty case and
  non-interference between splits.
- `triangular_packing.dfy`, module `TriangularPacking`: the packing that the
  caller's offsets table is built for. Row `a` starts at `offsets[a-1]` and holds
  `n - a` pairs. Under that packing the module proves three things: the table has
  `n(n-1)/2` slots; distinct pairs get distinct slots; and ids in `1..n`, with no
  leaf on both sides, satisfy the bounds that the routine leaves to its caller.

Values are only copied, never computed with, so `double` becomes `real`. The int
`edges_to_root` is stored into a double vector, which the model writes as
`edgesToRoot as real`. Ids, offsets and index arithmetic are C `int`, modelled as
unbounded `int`. The routine checks no bounds. Its preconditions (`Addressable`)
are exactly what makes every access in bounds: the smaller id of each crossing
pair names an entry of `index_offsets`, and each pair's slot lies inside each table.

The two output vectors are references, so a caller may pass the same vector
twice. In that case the edge count, which is written second, ends up in every
written slot. The method's contract covers this case.

Callers pass the two sides of a split, which share no leaf, and two tables of the
same length. The code relies on neither: it needs only every slot to lie inside
each table, so the method requires only `Addressable` for each table.
Disjointness appears only in the packing lemmas, which need it to place every
slot inside the triangle.

## Model

| member | source | states |
|---|---|---|
| `UpdateCombinations.OrderPair` | src/CPP_update_combinations.cpp:17-23 | the normalised pair is ordered (first <= second) and is the input pair, possibly swapped; first < second exactly when the two leaves differ, so the offset `second - first - 1` added to the row start is nonnegative |
| `UpdateCombinations.UpdateDistancesWithCombinations` | src/CPP_update_combinations.cpp:6-31 | under the bounds the code trusts, the topological table ends as the in-order replay of all writes with `edges_to_root`, i.e. `Stamp` of its old contents at `Slots`; the length table does the same with `distance_to_root` unless it is the same vector; the partitions and offsets are not written; only the two tables are modified |
| `UpdateCombinations.PackedIndex` | src/CPP_update_combinations.cpp:25 | the index formula `index_offsets[first-1] + (second - first) - 1`; it has no contract of its own: `TriangularPacking.PackedIndexInRow` proves the slot of a < b lies in row a and inside the triangle, and `TriangularPacking.PackedIndexInjective` that distinct pairs get distinct slots |
| `UpdateCombinations.PairSlot` | src/CPP_update_combinations.cpp:17-25 | normalise the pair, then index it; it has no contract of its own: `UpdateCombinations.PairSlotSymmetric` proves the slot does not depend on which side each leaf is on, and `TriangularPacking.PackedSlotsDisjoint` that distinct pairs of leaves get distinct slots |
| `UpdateCombinations.PairInBounds` | src/CPP_update_combinations.cpp:17-28 | for any loop position (i, j), the offsets lookup and both table writes are in bounds when `Addressable` holds |
| `UpdateCombinations.ReplayRow` | src/CPP_update_combinations.cpp:16-28 | replaying the inner loop's writes keeps the table's length |
| `UpdateCombinations.ReplayRows` | src/CPP_update_combinations.cpp:15-30 | replaying the first p passes of the outer loop keeps the table's length |
| `UpdateCombinations.Replay` | src/CPP_update_combinations.cpp:15-30 | replaying every write of the call keeps the table's length |
| `UpdateCombinations.ReplayRowIsStamp` | src/CPP_update_combinations.cpp:16-28 | the inner loop for `left[p]` up to `right[q-1]` sets exactly those pairs' slots to v and leaves the rest |
| `UpdateCombinations.ReplayRowsIsStamp` | src/CPP_update_combinations.cpp:15-30 | the first p passes of the outer loop set exactly those rows' pair slots to v and leave the rest |
| `UpdateCombinations.ReplayIsStamp` | src/CPP_update_combinations.cpp:15-30 | the writes in loop order give the order-free result: every crossing pair's slot holds v, every other slot is unchanged |
| `UpdateCombinations.ReplayWritesExactlySlots` | src/CPP_update_combinations.cpp:15-28 | after the call, the slot `idx(min(i,j), max(i,j))` of every i in left and j in right holds v; a slot that is no pair's slot keeps its old value; the length is unchanged |
| `UpdateCombinations.PairSlotSymmetric` | src/CPP_update_combinations.cpp:20-25 | the slot of a pair is the same whichever side each leaf is on |
| `UpdateCombinations.SlotsSymmetric` | src/CPP_update_combinations.cpp:15-25 | swapping the partitions keeps the bounds condition and gives the same set of written slots |
| `UpdateCombinations.SwapPartitions` | src/CPP_update_combinations.cpp:15-28 | calling with left and right swapped gives the same final table |
| `UpdateCombinations.ReorderPartitions` | src/CPP_update_combinations.cpp:15-16 | permuting the elements of either partition gives the same final table |
| `UpdateCombinations.ReplayTwice` | src/CPP_update_combinations.cpp:27-28 | running the routine twice with the same arguments gives the same table as running it once |
| `UpdateCombinations.EmptyPartition` | src/CPP_update_combinations.cpp:15-16 | with either partition empty, the call needs no bounds and changes nothing |
| `UpdateCombinations.DisjointSplitsCommute` | src/CPP_update_combinations.cpp:25-28 | two calls whose slot sets are disjoint give the same table in either order, whatever values they write |
| `UpdateCombinations.SplitsWithSameValue` | src/CPP_update_combinations.cpp:25-28 | two calls with the same value, one after the other, set exactly the union of their slots, as one combined pass would |
| `TriangularPacking.PackedClosedForm` | src/CPP_update_combinations.cpp:25 | under the packing, row t starts at t(2n-t-1)/2 |
| `TriangularPacking.PackedRowsOrdered` | src/CPP_update_combinations.cpp:25 | under the packing, row a ends no later than any later row starts |
| `TriangularPacking.PackedTableSize` | src/CPP_update_combinations.cpp:25 | under the packing, row n (which is empty) starts at n(n-1)/2, so the slots 0 .. n(n-1)/2 - 1 hold every pair |
| `TriangularPacking.PackedIndexInRow` | src/CPP_update_combinations.cpp:25 | the slot of a < b lies in row a, is nonnegative and is below n(n-1)/2, where the empty row n starts |
| `TriangularPacking.PackedIndexInjective` | src/CPP_update_combinations.cpp:25 | under the packing, distinct pairs a < b get distinct slots |
| `TriangularPacking.PackedPartitionsAddressable` | src/CPP_update_combinations.cpp:17-28 | packed offsets, ids in 1..n, no leaf on both sides and tables of at least n(n-1)/2 slots meet the routine's bounds preconditions |
| `TriangularPacking.PackedSlotsDisjoint` | src/CPP_update_combinations.cpp:25-28 | under the packing, two splits write disjoint slots if and only if they visit disjoint sets of leaf pairs |
| `TriangularPacking.FourLeafExample` | src/CPP_update_combinations.cpp:15-28 | with offsets [0, 3, 5, 6] and the split {1} / {2, 3}, slots 0 and 1 receive the value and slots 2..5 are unchanged |

## Left out

- `src/treespace_init.c`: the R registration table and `R_init_treespace` only bind the routine to the R runtime. They contain no logic.
- The Rcpp export glue and wrapper types (`NumericVector`, `IntegerVector`, `// [[Rcpp::export]]`) become plain Dafny arrays.
- How `index_offsets` is computed is not part of this model. The routine treats it as an arbitrary table. `TriangularPacking.Packed` states the intended layout, which only the packing lemmas assume.
- C `int` overflow in the index arithmetic of line 25 and in the loop counters is not modelled: ids, offsets and indices are unbounded integers, kept in range by the preconditions.
- The routine has no error path. An out-of-range id or slot is undefined behaviour in the native code, not a reported error, so the model states the bounds as preconditions and does not invent an `IndexOutOfRange` result.
- Floating-point behaviour: values are only copied, and the int-to-double conversion of `edges_to_root` is exact for 32-bit ints, so `real` is used.
