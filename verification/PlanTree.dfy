/**
 * The tree of plan shapes as a parent vector, and the arithmetic of its layout.
 *
 * Shapes are numbered in creation order. Shape 0 is the invisible root; every other
 * shape i hangs below an earlier shape up[i] (up[0] is unused).
 */
module PlanTree {
  import opened ParentVector

  ghost predicate IsLeaf(up: seq<nat>, i: nat)
    requires IsTree(up) && i < |up|
  {
    forall c :: i < c < |up| ==> up[c] != i
  }

  /** The leaves at or below i: the reference meaning of a shape's extent. */
  ghost function LeafSet(up: seq<nat>, i: nat): set<nat>
    requires IsTree(up) && i < |up|
  {
    set d: nat | d < |up| && IsLeaf(up, d) && Under(up, d, i)
  }

  /** What a child-first pass accumulates: one row for a childless shape, else the children's rows. */
  ghost function Extent(up: seq<nat>, i: nat): nat
    requires IsTree(up) && i < |up|
    decreases |up| - i, 0
  {
    var kids := ExtentsFrom(up, i, i + 1);
    if kids == 0 then 1 else kids
  }

  /** Sum of the extents of p's children numbered from `from` on. */
  ghost function ExtentsFrom(up: seq<nat>, p: nat, from: nat): nat
    requires IsTree(up) && p < from <= |up|
    decreases |up| - from, 1
  {
    if from == |up| then 0
    else (if up[from] == p then Extent(up, from) else 0) + ExtentsFrom(up, p, from + 1)
  }

  /** Sum of the extents of p's children numbered below `upto`. */
  ghost function ExtentsBefore(up: seq<nat>, p: nat, upto: nat): nat
    requires IsTree(up) && upto <= |up|
    decreases upto
  {
    if upto <= p + 1 then 0
    else ExtentsBefore(up, p, upto - 1) + (if up[upto - 1] == p then Extent(up, upto - 1) else 0)
  }

  /** p's children numbered below `upto`. */
  ghost function KidsBefore(up: seq<nat>, p: nat, upto: nat): set<nat>
    requires IsTree(up) && upto <= |up|
  {
    set c: nat | p < c < upto && up[c] == p
  }

  /** First row of the band of rows that belongs to i. */
  ghost function Row(up: seq<nat>, i: nat): nat
    requires IsTree(up) && i < |up|
    decreases i
  {
    if i == 0 then 0 else Row(up, up[i]) + ExtentsBefore(up, up[i], i)
  }

  /** r is one of the rows of i's band. */
  ghost predicate InBand(up: seq<nat>, i: nat, r: int)
    requires IsTree(up) && i < |up|
  {
    Row(up, i) <= r < Row(up, i) + Extent(up, i)
  }

  // ----- extents count leaves

  ghost function LeavesFrom(up: seq<nat>, p: nat, from: nat): set<nat>
    requires IsTree(up) && p < from <= |up|
    decreases |up| - from
  {
    if from == |up| then {}
    else (if up[from] == p then LeafSet(up, from) else {}) + LeavesFrom(up, p, from + 1)
  }

  lemma {:induction false} LeavesFromMember(up: seq<nat>, p: nat, from: nat, d: nat)
    requires IsTree(up) && p < from <= |up|
    ensures d in LeavesFrom(up, p, from) <==>
            d < |up| && IsLeaf(up, d) && exists c :: from <= c < |up| && up[c] == p && Under(up, d, c)
    decreases |up| - from
  {
    if from < |up| { LeavesFromMember(up, p, from + 1, d); }
  }

  lemma LeafSetOfParent(up: seq<nat>, p: nat)
    requires IsTree(up) && p < |up|
    ensures LeafSet(up, p) == if IsLeaf(up, p) then {p} else LeavesFrom(up, p, p + 1)
  {
    forall d: nat
      ensures d in LeafSet(up, p) <==> d in if IsLeaf(up, p) then {p} else LeavesFrom(up, p, p + 1)
    {
      LeavesFromMember(up, p, p + 1, d);
      if d in LeafSet(up, p) && d != p {
        var c := ChildToward(up, d, p);
      }
      if d in LeavesFrom(up, p, p + 1) {
        var c :| p + 1 <= c < |up| && up[c] == p && Under(up, d, c);
        UnderTransitive(up, d, c, p);
      }
    }
  }

  lemma {:induction false} ExtentsFromPositive(up: seq<nat>, p: nat, from: nat)
    requires IsTree(up) && p < from <= |up|
    ensures ExtentsFrom(up, p, from) == 0 <==> forall c :: from <= c < |up| ==> up[c] != p
    decreases |up| - from
  {
    if from < |up| { ExtentsFromPositive(up, p, from + 1); }
  }

  lemma {:induction false} ExtentsFromCountLeaves(up: seq<nat>, p: nat, from: nat)
    requires IsTree(up) && p < from <= |up|
    ensures ExtentsFrom(up, p, from) == |LeavesFrom(up, p, from)|
    decreases |up| - from, 1
  {
    if from < |up| {
      ExtentsFromCountLeaves(up, p, from + 1);
      if up[from] == p {
        ExtentCountsLeaves(up, from);
        forall d | d in LeavesFrom(up, p, from + 1) ensures d !in LeafSet(up, from) {
          LeavesFromMember(up, p, from + 1, d);
          var c :| from + 1 <= c < |up| && up[c] == p && Under(up, d, c);
          SiblingsShareNothing(up, d, from, c);
        }
        assert LeafSet(up, from) !! LeavesFrom(up, p, from + 1);
      }
    }
  }

  /** The accumulated extent of every shape is its number of leaf descendants. */
  lemma {:induction false} ExtentCountsLeaves(up: seq<nat>, i: nat)
    requires IsTree(up) && i < |up|
    ensures Extent(up, i) == |LeafSet(up, i)|
    decreases |up| - i, 0
  {
    LeafSetOfParent(up, i);
    ExtentsFromPositive(up, i, i + 1);
    ExtentsFromCountLeaves(up, i, i + 1);
  }

  // ----- bands

  lemma {:induction false} PrefixPlusSuffix(up: seq<nat>, p: nat, upto: nat)
    requires IsTree(up) && p < upto <= |up|
    ensures ExtentsBefore(up, p, upto) + ExtentsFrom(up, p, upto) == ExtentsFrom(up, p, p + 1)
    decreases upto
  {
    if upto > p + 1 { PrefixPlusSuffix(up, p, upto - 1); }
  }

  lemma {:induction false} ExtentsBeforeMonotone(up: seq<nat>, p: nat, b: nat, c: nat)
    requires IsTree(up) && p < b < c <= |up| && up[b] == p
    ensures ExtentsBefore(up, p, b) + Extent(up, b) <= ExtentsBefore(up, p, c)
    decreases c
  {
    if c > b + 1 { ExtentsBeforeMonotone(up, p, b, c - 1); }
  }

  lemma ChildBandInside(up: seq<nat>, c: nat)
    requires IsTree(up) && 0 < c < |up|
    ensures Row(up, up[c]) <= Row(up, c)
    ensures Row(up, c) + Extent(up, c) <= Row(up, up[c]) + Extent(up, up[c])
  {
    KidFits(up, c);
  }

  lemma KidFits(up: seq<nat>, c: nat)
    requires IsTree(up) && 0 < c < |up|
    ensures ExtentsBefore(up, up[c], c) + Extent(up, c) <= Extent(up, up[c])
  {
    PrefixPlusSuffix(up, up[c], c);
    ExtentCoversKids(up, up[c]);
    KidInSuffix(up, c);
  }

  lemma ExtentCoversKids(up: seq<nat>, p: nat)
    requires IsTree(up) && p < |up|
    ensures ExtentsFrom(up, p, p + 1) <= Extent(up, p)
  {
  }

  lemma KidInSuffix(up: seq<nat>, c: nat)
    requires IsTree(up) && 0 < c < |up|
    ensures Extent(up, c) <= ExtentsFrom(up, up[c], c)
  {
  }

  lemma {:induction false} BandsNest(up: seq<nat>, d: nat, a: nat)
    requires IsTree(up) && d < |up| && a < |up| && Under(up, d, a)
    ensures Row(up, a) <= Row(up, d)
    ensures Row(up, d) + Extent(up, d) <= Row(up, a) + Extent(up, a)
    decreases d
  {
    if d != a {
      ChildBandInside(up, d);
      BandsNest(up, up[d], a);
    }
  }

  lemma SiblingBandsApart(up: seq<nat>, b: nat, c: nat)
    requires IsTree(up) && 0 < b < c < |up| && up[b] == up[c]
    ensures Row(up, b) + Extent(up, b) <= Row(up, c)
  {
    ExtentsBeforeMonotone(up, up[b], b, c);
  }

  /** Shapes of which neither contains the other own disjoint rows. */
  lemma {:induction false} UnrelatedBandsApart(up: seq<nat>, i: nat, j: nat, r: int)
    requires IsTree(up) && i < j < |up| && !Under(up, j, i)
    ensures !(InBand(up, i, r) && InBand(up, j, r))
    decreases i + j
  {
    var p := up[j];
    ChildBandInside(up, j);
    if i < p { UnrelatedBandsApart(up, i, p, r); }
    else if p < i {
      if Under(up, i, p) {
        var c := ChildToward(up, i, p);
        BandsNest(up, i, c);
        if c < j { SiblingBandsApart(up, c, j); }
      } else {
        UnrelatedBandsApart(up, p, i, r);
      }
    }
  }

  lemma {:induction false} RowBelongsToChild(up: seq<nat>, p: nat, upto: nat, r: nat) returns (c: nat)
    requires IsTree(up) && p < upto <= |up| && r < ExtentsBefore(up, p, upto)
    ensures p < c < upto && up[c] == p
    ensures ExtentsBefore(up, p, c) <= r < ExtentsBefore(up, p, c) + Extent(up, c)
    decreases upto
  {
    if r < ExtentsBefore(up, p, upto - 1) { c := RowBelongsToChild(up, p, upto - 1, r); }
    else { c := upto - 1; }
  }

  /** The children's bands tile the parent's band: each of its rows is in exactly one of them. */
  lemma ChildrenTileParent(up: seq<nat>, p: nat, r: int)
    requires IsTree(up) && p < |up| && !IsLeaf(up, p)
    ensures InBand(up, p, r) <==> exists c :: p < c < |up| && up[c] == p && InBand(up, c, r)
    ensures forall b, c :: p < b < c < |up| && up[b] == p && up[c] == p ==>
              !(InBand(up, b, r) && InBand(up, c, r))
  {
    if InBand(up, p, r) {
      ExtentsFromPositive(up, p, p + 1);
      PrefixPlusSuffix(up, p, |up|);
      var c := RowBelongsToChild(up, p, |up|, r - Row(up, p));
      assert InBand(up, c, r);
    }
    forall c | p < c < |up| && up[c] == p && InBand(up, c, r) ensures InBand(up, p, r) {
      ChildBandInside(up, c);
    }
    forall b, c | p < b < c < |up| && up[b] == p && up[c] == p
      ensures !(InBand(up, b, r) && InBand(up, c, r))
    {
      SiblingBandsApart(up, b, c);
    }
  }

  // ----- placement

  ghost predicate LevelsGrow(up: seq<nat>, level: seq<nat>)
    requires IsTree(up)
  {
    |level| == |up| && forall i {:trigger up[i]} :: 0 < i < |up| ==> level[up[i]] < level[i]
  }

  lemma {:induction false} DescendantIsDeeper(up: seq<nat>, level: seq<nat>, d: nat, a: nat)
    requires IsTree(up) && LevelsGrow(up, level) && d < |up| && a < |up| && Under(up, d, a) && d != a
    ensures level[a] < level[d]
    decreases d
  {
    if up[d] != a { DescendantIsDeeper(up, level, up[d], a); }
  }

  /** No two shapes share both level and row. */
  lemma PlacementIsInjective(up: seq<nat>, level: seq<nat>, i: nat, j: nat)
    requires IsTree(up) && LevelsGrow(up, level) && i < j < |up|
    ensures level[i] != level[j] || Row(up, i) != Row(up, j)
  {
    if Under(up, j, i) { DescendantIsDeeper(up, level, j, i); }
    else { UnrelatedBandsApart(up, i, j, Row(up, i)); }
  }

  lemma {:induction false} EverythingUnderRoot(up: seq<nat>, i: nat)
    requires IsTree(up) && i < |up|
    ensures Under(up, i, 0)
  {
    if i > 0 { EverythingUnderRoot(up, up[i]); }
  }

  /** Every row used lies in 0 .. Extent(root) - 1. */
  lemma RowsFitRoot(up: seq<nat>, i: nat)
    requires IsTree(up) && i < |up|
    ensures Row(up, i) < Extent(up, 0)
  {
    EverythingUnderRoot(up, i);
    BandsNest(up, i, 0);
  }

  // ----- kids

  /** Each shape's number among its siblings. */
  ghost function KidNos(up: seq<nat>): seq<nat>
    requires IsTree(up)
  {
    seq(|up|, i requires 0 <= i < |up| => if i == 0 then 0 else |KidsBefore(up, up[i], i)|)
  }

  /** How many shapes hang below each shape. */
  ghost function KidCounts(up: seq<nat>): seq<nat>
    requires IsTree(up)
  {
    seq(|up|, i requires 0 <= i < |up| => |KidsBefore(up, i, |up|)|)
  }

  lemma KidsExtended(up: seq<nat>, x: nat, p: nat, upto: nat)
    requires IsTree(up) && x < |up| && upto <= |up| && IsTree(up + [x])
    ensures KidsBefore(up + [x], p, upto) == KidsBefore(up, p, upto)
    ensures |KidsBefore(up + [x], p, |up| + 1)| == |KidsBefore(up, p, |up|)| + if p == x then 1 else 0
  {
    assert KidsBefore(up + [x], p, |up| + 1) == KidsBefore(up, p, |up|) + if p == x then {|up|} else {};
  }

  /** Adding a shape below x: it takes x's kid count as its number and adds one to it. */
  lemma KidsAfterAdding(up: seq<nat>, x: nat)
    requires IsTree(up) && x < |up|
    ensures IsTree(up + [x])
    ensures KidNos(up + [x]) == KidNos(up) + [KidCounts(up)[x]]
    ensures KidCounts(up + [x]) == KidCounts(up)[x := KidCounts(up)[x] + 1] + [0]
  {
    var n, up' := |up|, up + [x];
    forall i | 0 <= i <= n
      ensures KidNos(up')[i] == (KidNos(up) + [KidCounts(up)[x]])[i]
      ensures KidCounts(up')[i] == (KidCounts(up)[x := KidCounts(up)[x] + 1] + [0])[i]
    {
      KidsExtended(up, x, up'[i], i);
      KidsExtended(up, x, i, n);
      if i == n { assert KidsBefore(up, n, n) == {}; }
    }
  }

  // ----- the two passes over the shape list, as steps on vectors

  /** One step of the child-first pass: shape k takes at least one row and hands its rows to its parent. */
  ghost function SizeAt(up: seq<nat>, total: seq<nat>, k: nat): (r: seq<nat>)
    requires IsTree(up) && |total| == |up| && k < |up|
    ensures |r| == |up|
  {
    var own := total[k := if total[k] == 0 then 1 else total[k]];
    if k == 0 then own else own[up[k] := own[up[k]] + own[k]]
  }

  /** Totals once shapes k.. have been visited. */
  ghost function Totals(up: seq<nat>, k: nat): (r: seq<nat>)
    requires IsTree(up) && k <= |up|
    ensures |r| == |up|
    decreases |up| - k
  {
    if k == |up| then seq(|up|, _ => 0) else SizeAt(up, Totals(up, k + 1), k)
  }

  /** Extents are final from k on and partial sums below. */
  lemma {:induction false} TotalsAreExtents(up: seq<nat>, k: nat)
    requires IsTree(up) && k <= |up|
    ensures forall i :: k <= i < |up| ==> Totals(up, k)[i] == Extent(up, i)
    ensures forall i :: 0 <= i < k ==> Totals(up, k)[i] == ExtentsFrom(up, i, k)
    decreases |up| - k
  {
    if k < |up| {
      TotalsAreExtents(up, k + 1);
      var before := Totals(up, k + 1);
      forall i | 0 <= i < k ensures Totals(up, k)[i] == ExtentsFrom(up, i, k) {
        assert before[i] == ExtentsFrom(up, i, k + 1);
      }
    }
  }

  /** n steps of the given size. */
  ghost function Steps(n: nat, size: nat): nat
  {
    if n == 0 then 0 else Steps(n - 1, size) + size
  }

  lemma {:induction false} StepsIsProduct(n: nat, size: nat)
    ensures Steps(n, size) == n * size
  {
    if n > 0 {
      StepsIsProduct(n - 1, size);
      assert (n - 1) * size + size == n * size;
    }
  }

  lemma {:induction false} StepsAdd(m: nat, n: nat, size: nat)
    ensures Steps(m + n, size) == Steps(m, size) + Steps(n, size)
  {
    if n > 0 { StepsAdd(m, n - 1, size); }
  }

  /** Rows handed out so far, and the screen lines given. */
  datatype Placing = Placing(used: seq<nat>, ys: seq<int>)

  ghost predicate Covers(up: seq<nat>, v: Placing)
  {
    |v.used| == |v.ys| == |up|
  }

  /** One step of the parent-first pass. */
  ghost function PlaceAt(up: seq<nat>, total: seq<nat>, v: Placing, y0: int, yoffs: nat, k: nat): (r: Placing)
    requires IsTree(up) && |total| == |up| && Covers(up, v) && k < |up|
    ensures Covers(up, r)
  {
    if k == 0 then Placing(v.used, v.ys[k := y0])
    else Placing(v.used[up[k] := v.used[up[k]] + total[k]], v.ys[k := v.ys[up[k]] + Steps(v.used[up[k]], yoffs)])
  }

  /** Rows and lines once the first k shapes have been visited. */
  ghost function Places(up: seq<nat>, total: seq<nat>, y0: int, yoffs: nat, k: nat): (r: Placing)
    requires IsTree(up) && |total| == |up| && k <= |up|
    ensures Covers(up, r)
    decreases k
  {
    if k == 0 then Placing(seq(|up|, _ => 0), seq(|up|, _ => 0))
    else PlaceAt(up, total, Places(up, total, y0, yoffs, k - 1), y0, yoffs, k - 1)
  }

  lemma PlacesOneMore(up: seq<nat>, total: seq<nat>, y0: int, yoffs: nat, k: nat)
    requires IsTree(up) && |total| == |up| && k < |up|
    ensures Places(up, total, y0, yoffs, k + 1) == PlaceAt(up, total, Places(up, total, y0, yoffs, k), y0, yoffs, k)
  {
  }

  /** With final extents, every visited shape stands at its row, yoffs apart from y0 on. */
  lemma {:induction false} PlacesAreRows(up: seq<nat>, total: seq<nat>, y0: int, yoffs: nat, k: nat)
    requires IsTree(up) && |total| == |up| && k <= |up|
    requires forall i :: 0 <= i < |up| ==> total[i] == Extent(up, i)
    ensures forall i :: 0 <= i < |up| ==> Places(up, total, y0, yoffs, k).used[i] == ExtentsBefore(up, i, k)
    ensures forall i :: 0 <= i < k ==> Places(up, total, y0, yoffs, k).ys[i] == y0 + Steps(Row(up, i), yoffs)
    decreases k
  {
    if k > 0 {
      PlacesAreRows(up, total, y0, yoffs, k - 1);
      var v, c := Places(up, total, y0, yoffs, k - 1), k - 1;
      if c > 0 {
        var a, b := Row(up, up[c]), v.used[up[c]];
        StepsAdd(a, b, yoffs);
        assert Row(up, c) == a + b;
      }
      forall i | 0 <= i < |up| ensures Places(up, total, y0, yoffs, k).used[i] == ExtentsBefore(up, i, k) {
        assert v.used[i] == ExtentsBefore(up, i, c);
      }
    }
  }
}
