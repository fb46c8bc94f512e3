/** The second pass of sizing the result grid's columns: wide columns give way if the grid is too wide. */
module ColumnShrink {

  function Sum(s: seq<int>): int
  {
    if s == [] then 0 else Sum(s[..|s| - 1]) + s[|s| - 1]
  }

  lemma {:induction false} SumUpdate(s: seq<int>, i: nat, v: int)
    requires i < |s|
    ensures Sum(s[i := v]) == Sum(s) - s[i] + v
    decreases |s|
  {
    var n := |s| - 1;
    if i < n {
      SumUpdate(s[..n], i, v);
      assert s[i := v][..n] == s[..n][i := v];
    } else {
      assert s[i := v][..n] == s[..n];
    }
  }

  function Min(a: int, b: int): int { if a < b then a else b }

  function Max(a: int, b: int): int { if a > b then a else b }

  /** The columns end up fitting exactly, or each automatically sized one takes at most half of the space. */
  ghost predicate WellShrunk(size: seq<int>, user: seq<bool>, avail: int)
    requires |size| == |user|
  {
    Sum(size) == avail || forall i :: 0 <= i < |size| && !user[i] ==> size[i] <= avail / 2
  }

  class Grid {
    var colSize: array<int>

    constructor (widths: array<int>)
      ensures colSize == widths
    {
      colSize := widths;
    }

    /** Shrinks columns without a user-given size, left to right, until the total fits. */
    method ShrinkColumns(userSized: seq<bool>, availSize: int) returns (totalSize: int)
      requires |userSized| == colSize.Length && availSize >= 0
      modifies colSize
      ensures totalSize == Sum(colSize[..])
      ensures forall i :: 0 <= i < colSize.Length ==> colSize[i] <= old(colSize[i])
      ensures forall i :: 0 <= i < colSize.Length && userSized[i] ==> colSize[i] == old(colSize[i])
      ensures old(Sum(colSize[..])) > availSize ==>
                totalSize >= availSize && WellShrunk(colSize[..], userSized, availSize)
      ensures old(Sum(colSize[..])) <= availSize ==> colSize[..] == old(colSize[..])
      ensures forall i :: 0 <= i < colSize.Length && colSize[i] != old(colSize[i]) ==>
                colSize[i] >= availSize / 2 && (colSize[i] > availSize / 2 ==> totalSize == availSize)
    {
      totalSize := Total();
      if totalSize > availSize {
        var maxSize := availSize / 2;
        for col := 0 to colSize.Length
          invariant totalSize == Sum(colSize[..]) && totalSize >= availSize
          invariant forall i :: col <= i < colSize.Length ==> colSize[i] == old(colSize[i])
          invariant forall i :: 0 <= i < col ==> colSize[i] <= old(colSize[i])
          invariant forall i :: 0 <= i < col && userSized[i] ==> colSize[i] == old(colSize[i])
          invariant totalSize == availSize || forall i :: 0 <= i < col && !userSized[i] ==> colSize[i] <= maxSize
          invariant forall i :: 0 <= i < col && colSize[i] != old(colSize[i]) ==>
                      colSize[i] >= maxSize && (colSize[i] > maxSize ==> totalSize == availSize)
        {
          var oldSize := colSize[col];
          if oldSize > maxSize && !userSized[col] {
            ghost var before := colSize[..];
            totalSize := totalSize - oldSize;
            var newSize := Min(oldSize, Max(maxSize, availSize - totalSize));
            colSize[col] := newSize;
            totalSize := totalSize + newSize;
            SumUpdate(before, col, newSize);
            assert colSize[..] == before[col := newSize];
          }
        }
      }
    }

    method Total() returns (totalSize: int)
      ensures totalSize == Sum(colSize[..])
    {
      totalSize := 0;
      for col := 0 to colSize.Length
        invariant totalSize == Sum(colSize[..col])
      {
        assert colSize[..col + 1][..col] == colSize[..col];
        totalSize := totalSize + colSize[col];
      }
      assert colSize[..colSize.Length] == colSize[..];
    }
  }
}
