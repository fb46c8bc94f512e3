/**
 * The EXPLAIN canvas: plan lines become shapes linked by parent pointers, then one pass over
 * the shape list sizes the shapes (children first) and a second one places them (parents first).
 */
module ExplainCanvas {
  import opened ParentVector
  import opened PlanTree
  import opened PlanLines
  import opened PlanText

  const PIXPERUNIT := 20

  class Shape {
    ghost const number: nat       // creation number, so that different shapes are told apart
    const level: nat
    const upper: Shape?
    const kidNo: nat
    var kidCount: nat
    var totalShapes: nat
    var usedShapes: nat
    var x: int
    var y: int

    /** Links the new shape below `last` and counts it as the next kid there. */
    constructor (level: nat, last: Shape?, ghost number: nat)
      modifies (if last == null then {} else {last})`kidCount
      ensures this.level == level && upper == last && this.number == number
      ensures kidCount == 0 && totalShapes == 0 && usedShapes == 0 && y == 0
      ensures kidNo == if last == null then 0 else old(last.kidCount)
      ensures last != null ==> last.kidCount == old(last.kidCount) + 1
    {
      this.level, upper, this.number := level, last, number;
      kidNo := if last == null then 0 else last.kidCount;
      kidCount, totalShapes, usedShapes, x, y := 0, 0, 0, 0, 0;
      new;
      if last != null { last.kidCount := last.kidCount + 1; }
    }
  }

  lemma MaximumRead(lines: seq<Line>, t: nat, m: nat)
    requires t < |lines| && IsMaximum(ReadTo(lines, t).0.level, m)
    ensures IsMaximum(ReadTo(lines, t + 1).0.level, if lines[t].Plan? && lines[t].level > m then lines[t].level else m)
  {
    ReadOneMore(lines, t);
    if lines[t].Plan? { MaximumExtended(ReadTo(lines, t).0.level, m, lines[t].level); }
  }

  /** The shapes are linked as the forest says. */
  ghost predicate Linked(shapes: seq<Shape>, f: Forest)
  {
    && Shaped(f) && |shapes| == |f.up|
    && shapes[0].upper == null
    && (forall i :: 0 <= i < |shapes| ==> shapes[i].number == i && shapes[i].level == f.level[i])
    && (forall i {:trigger shapes[i].upper} :: 0 < i < |shapes| ==> shapes[i].upper == shapes[f.up[i]])
  }

  /** The shapes carry these kid numbers and counts. */
  ghost predicate Counted(shapes: seq<Shape>, no: seq<nat>, count: seq<nat>)
    reads shapes
  {
    && |no| == |count| == |shapes|
    && (forall i :: 0 <= i < |shapes| ==> shapes[i].kidNo == no[i] && shapes[i].kidCount == count[i])
  }

  /** The shapes have no rows yet. */
  ghost predicate Unplaced(shapes: seq<Shape>)
    reads shapes
  {
    forall i :: 0 <= i < |shapes| ==> shapes[i].totalShapes == 0 && shapes[i].usedShapes == 0 && shapes[i].y == 0
  }

  ghost predicate IsMaximum(s: seq<nat>, m: nat)
  {
    m in s && forall i :: 0 <= i < |s| ==> s[i] <= m
  }

  lemma MaximumExtended(s: seq<nat>, m: nat, x: nat)
    requires IsMaximum(s, m)
    ensures IsMaximum(s + [x], if x > m then x else m)
  {
    assert (s + [x])[|s|] == x;
  }

  function ColumnOf(level: nat, maxLevel: nat, y0: int, xoffs: nat): int
  {
    y0 + (maxLevel - level) * xoffs
  }

  /** The lines of the second pass are those of the rows. */
  lemma LinesAreRows(up: seq<nat>, y0: int, yoffs: nat, i: nat)
    requires IsTree(up) && i < |up|
    ensures Places(up, Totals(up, 0), y0, yoffs, |up|).ys[i] == y0 + Row(up, i) * yoffs
  {
    TotalsAreExtents(up, 0);
    PlacesAreRows(up, Totals(up, 0), y0, yoffs, |up|);
    StepsIsProduct(Row(up, i), yoffs);
  }

  /** Screen columns: deeper shapes stand further left. */
  ghost function Column(f: Forest, maxLevel: nat, y0: int, xoffs: nat): seq<int>
  {
    seq(|f.level|, i requires 0 <= i < |f.level| => ColumnOf(f.level[i], maxLevel, y0, xoffs))
  }

  ghost predicate InColumn(f: Forest, xs: seq<int>, k: nat, maxLevel: nat, y0: int, xoffs: nat)
    requires k < |xs| == |f.level|
  {
    xs[k] == ColumnOf(f.level[k], maxLevel, y0, xoffs)
  }

  lemma SizesCountLeaves(up: seq<nat>)
    requires IsTree(up)
    ensures forall i :: 0 <= i < |up| ==> Totals(up, 0)[i] == |LeafSet(up, i)|
  {
    forall i | 0 <= i < |up| ensures Totals(up, 0)[i] == |LeafSet(up, i)| {
      TotalsAreExtents(up, 0);
      ExtentCountsLeaves(up, i);
    }
  }

  lemma StepsDiffer(base: int, a: int, b: int, step: int)
    requires step > 0 && a != b
    ensures base + a * step != base + b * step
  {
    if a < b { assert (b - a) * step > 0; } else { assert (a - b) * step > 0; }
  }

  lemma StepsOrdered(a: nat, b: nat, step: nat)
    requires a <= b
    ensures a * step <= b * step
  {
    assert (b - a) * step >= 0;
  }

  /** No two shapes coincide, and all lie on the canvas above line `bottom`. */
  ghost predicate KeptApart(xs: seq<int>, ys: seq<int>, bottom: int)
  {
    && |xs| == |ys|
    && (forall i, j :: 0 <= i < j < |xs| ==> xs[i] != xs[j] || ys[i] != ys[j])
    && (forall i :: 0 <= i < |xs| ==> 0 < xs[i] && 0 < ys[i] < bottom)
  }

  lemma ShapesApart(up: seq<nat>, level: seq<nat>, maxLevel: int, y0: nat, xoffs: nat, yoffs: nat, i: nat, j: nat)
    requires IsTree(up) && LevelsGrow(up, level) && i < j < |up| && xoffs > 0 && yoffs > 0
    ensures y0 + (maxLevel - level[i]) * xoffs != y0 + (maxLevel - level[j]) * xoffs
            || y0 + Steps(Row(up, i), yoffs) != y0 + Steps(Row(up, j), yoffs)
  {
    PlacementIsInjective(up, level, i, j);
    if level[i] != level[j] { StepsDiffer(y0, maxLevel - level[i], maxLevel - level[j], xoffs); }
    else {
      StepsDiffer(y0, Row(up, i), Row(up, j), yoffs);
      StepsIsProduct(Row(up, i), yoffs);
      StepsIsProduct(Row(up, j), yoffs);
    }
  }

  lemma ShapeInside(up: seq<nat>, y0: nat, yoffs: nat, i: nat)
    requires IsTree(up) && i < |up| && yoffs > 0
    ensures y0 <= y0 + Steps(Row(up, i), yoffs) < y0 + Extent(up, 0) * yoffs
  {
    var r := Row(up, i);
    RowsFitRoot(up, i);
    StepsOrdered(r + 1, Extent(up, 0), yoffs);
    assert (r + 1) * yoffs == r * yoffs + yoffs;
    StepsIsProduct(r, yoffs);
  }

  /** For every text, the computed columns and lines keep the shapes apart and inside the scroll height. */
  lemma LayoutKeepsApart(lines: seq<Line>, maxLevel: nat, y0: nat, xoffs: nat, yoffs: nat)
    requires IsMaximum(ForestOf(lines).level, maxLevel) && y0 > 0 && xoffs > 0 && yoffs > 0
    ensures var f := ForestOf(lines);
            KeptApart(Column(f, maxLevel, y0, xoffs), Places(f.up, Totals(f.up, 0), y0, yoffs, |f.up|).ys,
                      y0 + Totals(f.up, 0)[0] * yoffs)
  {
    var f := ForestOf(lines);
    var xs, ys := Column(f, maxLevel, y0, xoffs), Places(f.up, Totals(f.up, 0), y0, yoffs, |f.up|).ys;
    assert LevelsGrow(f.up, f.level) by { ReadingFindsParents(lines); ParentsAreShallower(lines, f); }
    TotalsAreExtents(f.up, 0);
    PlacesAreRows(f.up, Totals(f.up, 0), y0, yoffs, |f.up|);
    forall i, j | 0 <= i < j < |f.up| ensures xs[i] != xs[j] || ys[i] != ys[j] {
      ShapesApart(f.up, f.level, maxLevel, y0, xoffs, yoffs, i, j);
    }
    forall i | 0 <= i < |f.up| ensures 0 < xs[i] && 0 < ys[i] < y0 + Totals(f.up, 0)[0] * yoffs {
      StepsOrdered(0, maxLevel - f.level[i], xoffs);
      ShapeInside(f.up, y0, yoffs, i);
    }
  }

  /**
   * The diagram's shape list, read from its tail: new shapes enter at the head, so the root is shapes[0].
   */
  class Canvas {
    var shapes: seq<Shape>
    var scrollHeight: int

    constructor ()
      ensures shapes == []
    {
      shapes, scrollHeight := [], 0;
    }

    /** The shapes carry these row counts and lines. */
    ghost predicate Shows(v: Placing)
      reads this, shapes
    {
      && |v.used| == |v.ys| == |shapes|
      && forall i :: 0 <= i < |shapes| ==> shapes[i].usedShapes == v.used[i] && shapes[i].y == v.ys[i]
    }

    ghost predicate AllIn(own: set<Shape>)
      reads this
    {
      forall i :: 0 <= i < |shapes| ==> shapes[i] in own
    }

    /** No two shapes stand at the same place, and all stand above line `bottom`. */
    ghost predicate Apart(bottom: int)
      reads this, shapes
    {
      && (forall i, j :: 0 <= i < j < |shapes| ==> shapes[i].x != shapes[j].x || shapes[i].y != shapes[j].y)
      && (forall i :: 0 <= i < |shapes| ==> 0 < shapes[i].x && 0 < shapes[i].y < bottom)
    }

    /** Each shape stands in its level's column and on the first line of its band of rows. */
    ghost predicate Stands(f: Forest, maxLevel: nat, y0: int, xoffs: nat, yoffs: nat)
      reads this, shapes
    {
      && Linked(shapes, f)
      && forall i :: 0 <= i < |shapes| ==>
           && shapes[i].x == y0 + (maxLevel - f.level[i]) * xoffs
           && shapes[i].y == y0 + Row(f.up, i) * yoffs
    }

    lemma StandsAsPlaced(f: Forest, maxLevel: nat, y0: int, xoffs: nat, yoffs: nat)
      requires Linked(shapes, f)
      requires PlacedAs(Places(f.up, Totals(f.up, 0), y0, yoffs, |shapes|), Column(f, maxLevel, y0, xoffs))
      ensures Stands(f, maxLevel, y0, xoffs, yoffs)
    {
      forall i | 0 <= i < |shapes| ensures shapes[i].y == y0 + Row(f.up, i) * yoffs {
        LinesAreRows(f.up, y0, yoffs, i);
      }
      forall i | 0 <= i < |shapes| ensures shapes[i].x == y0 + (maxLevel - f.level[i]) * xoffs {
        assert shapes[i].x == Column(f, maxLevel, y0, xoffs)[i];
      }
    }

    lemma Seen(xs: seq<int>, v: Placing, bottom: int)
      requires PlacedAs(v, xs) && KeptApart(xs, v.ys, bottom)
      ensures Apart(bottom)
    {
    }

    /** Pops from `last`, shape k, to the shape that a line of this level hangs below. */
    method FindParent(ghost f: Forest, ghost k: nat, last: Shape, level: Level) returns (p: Shape)
      requires Linked(shapes, f) && k < |shapes| && last == shapes[k]
      ensures p == shapes[PopTo(f, k, level)]
    {
      p := last;
      ghost var j: nat := k;
      while p != shapes[0] && level <= p.level
        invariant j < |shapes| && p == shapes[j] && PopTo(f, j, level) == PopTo(f, k, level)
        decreases j
      {
        p, j := p.upper, f.up[j];
      }
    }

    /** Creates the shape of line t below shape k and inserts it at the head of the list. */
    method InsertShape(ghost f: Forest, ghost k: nat, last: Shape, level: Level, ghost t: nat) returns (s: Shape)
      requires Linked(shapes, f) && k < |shapes| && last == shapes[k]
      requires Counted(shapes, KidNos(f.up), KidCounts(f.up)) && Unplaced(shapes)
      modifies this, last`kidCount
      ensures fresh(s) && shapes == old(shapes) + [s]
      ensures Linked(shapes, Extend(f, k, level, t))
      ensures Counted(shapes, KidNos(f.up + [k]), KidCounts(f.up + [k])) && Unplaced(shapes)
    {
      ghost var no, count := KidNos(f.up), KidCounts(f.up);
      s := new Shape(level, last, |shapes|);
      shapes := shapes + [s];
      assert Counted(shapes, no + [count[k]], count[k := count[k] + 1] + [0]);
      KidsAfterAdding(f.up, k);
    }

    /** The shapes are as the forest says, `last` is shape number `at`, and nothing is placed. */
    ghost predicate Built(f: Forest, at: nat, last: Shape)
      reads this, shapes
    {
      && Linked(shapes, f) && at < |shapes| && last == shapes[at]
      && Counted(shapes, KidNos(f.up), KidCounts(f.up)) && Unplaced(shapes)
    }

    /** Reads one line; a plan line becomes a new shape. */
    method ReadLine(ghost own: set<Shape>, ghost f: Forest, ghost at: nat, last: Shape, line: Line, ghost t: nat)
      returns (next: Shape)
      requires AllIn(own) && Built(f, at, last)
      modifies this, own`kidCount
      ensures var r := PlanLines.ReadLine((f, at), line, t); Built(r.0, r.1, next)
      ensures shapes == old(shapes) || (shapes == old(shapes) + [next] && fresh(next))
    {
      next := last;
      if !line.Condition? {
        next := FindParent(f, at, last, line.level);
        if line.Plan? { next := InsertShape(f, PopTo(f, at, line.level), next, line.level, t); }
      }
    }

    /** Clears the canvas and adds the root. */
    method StartPlan()
      modifies this
      ensures |shapes| == 1 && Built(ROOT_ALONE, 0, shapes[0]) && fresh(shapes[0])
    {
      var root := new Shape(0, null, 0);
      shapes := [root];
      assert KidsBefore([0], 0, 1) == {};
    }

    method ReadNext(lines: seq<Line>, t: nat, last: Shape, maxLevel: nat, ghost own: set<Shape>)
      returns (next: Shape, deepest: nat, ghost more: set<Shape>)
      requires t < |lines| && Built(ReadTo(lines, t).0, ReadTo(lines, t).1, last) && AllIn(own)
      requires IsMaximum(ReadTo(lines, t).0.level, maxLevel)
      modifies this, own`kidCount
      ensures Built(ReadTo(lines, t + 1).0, ReadTo(lines, t + 1).1, next) && AllIn(more)
      ensures own <= more && fresh(more - own)
      ensures IsMaximum(ReadTo(lines, t + 1).0.level, deepest)
    {
      ReadOneMore(lines, t);
      ghost var before := shapes;
      next := ReadLine(own, ReadTo(lines, t).0, ReadTo(lines, t).1, last, lines[t], t);
      more := if shapes == before then own else own + {next};
      MaximumRead(lines, t, maxLevel);
      deepest := if lines[t].Plan? && lines[t].level > maxLevel then lines[t].level else maxLevel;
    }

    /** Reads all lines into a fresh tree of shapes and reports the deepest level. */
    method Read(lines: seq<Line>) returns (maxLevel: nat, last: Shape, ghost own: set<Shape>)
      modifies this
      ensures fresh(own) && AllIn(own)
      ensures Built(ForestOf(lines), ReadTo(lines, |lines|).1, last)
      ensures IsMaximum(ForestOf(lines).level, maxLevel)
    {
      StartPlan();
      maxLevel, last, own := 0, shapes[0], {shapes[0]};
      for t := 0 to |lines|
        invariant fresh(own) && AllIn(own)
        invariant Built(ReadTo(lines, t).0, ReadTo(lines, t).1, last)
        invariant IsMaximum(ReadTo(lines, t).0.level, maxLevel)
      {
        last, maxLevel, own := ReadNext(lines, t, last, maxLevel, own);
      }
    }

    /** The shapes carry these totals. */
    ghost predicate Totalled(total: seq<nat>)
      reads this, shapes
    {
      |total| == |shapes| && forall i :: 0 <= i < |shapes| ==> shapes[i].totalShapes == total[i]
    }

    /** Gives shape k at least one row and hands its rows to its parent. */
    method SizeShape(ghost own: set<Shape>, ghost f: Forest, ghost total: seq<nat>, ghost k: nat, s: Shape)
      requires AllIn(own) && Linked(shapes, f) && k < |shapes| && s == shapes[k] && Totalled(total)
      modifies own`totalShapes
      ensures Totalled(SizeAt(f.up, total, k))
    {
      if s.totalShapes == 0 { s.totalShapes := 1; }
      if s.upper != null { s.upper.totalShapes := s.upper.totalShapes + s.totalShapes; }
    }

    /** First pass, head of the list to its tail: every shape comes after all shapes below it. */
    method SizeShapes(ghost own: set<Shape>, ghost f: Forest)
      requires AllIn(own) && Linked(shapes, f) && Totalled(Totals(f.up, |shapes|))
      modifies own`totalShapes
      ensures Totalled(Totals(f.up, 0))
    {
      var k := |shapes|;
      while k > 0
        invariant 0 <= k <= |shapes| && Totalled(Totals(f.up, k))
      {
        k := k - 1;
        SizeShape(own, f, Totals(f.up, k + 1), k, shapes[k]);
      }
    }

    /** Rows and lines are as in v, and the first shapes stand in the columns xs. */
    ghost predicate PlacedAs(v: Placing, xs: seq<int>)
      reads this, shapes
    {
      Shows(v) && |xs| <= |shapes| && forall i :: 0 <= i < |xs| ==> shapes[i].x == xs[i]
    }

    /** Places shape k below the rows its parent has handed out so far. */
    method PlaceShape(ghost own: set<Shape>, ghost f: Forest, ghost total: seq<nat>, ghost v: Placing,
                      ghost xs: seq<int>, s: Shape, x: int, y0: int, yoffs: nat)
      requires AllIn(own) && Linked(shapes, f) && |xs| < |shapes| && s == shapes[|xs|]
      requires |total| == |shapes| && s.totalShapes == total[|xs|]
      requires Covers(f.up, v) && PlacedAs(v, xs)
      modifies own`usedShapes, s`x, s`y
      ensures PlacedAs(PlaceAt(f.up, total, v, y0, yoffs, |xs|), xs + [x])
    {
      s.x := x;
      if s.upper != null {
        StepsIsProduct(s.upper.usedShapes, yoffs);
        s.y := s.upper.y + s.upper.usedShapes * yoffs;
        s.upper.usedShapes := s.upper.usedShapes + s.totalShapes;
      } else {
        s.y := y0;
      }
    }

    method PlaceNext(ghost own: set<Shape>, ghost f: Forest, ghost total: seq<nat>, ghost xs: seq<int>, k: nat,
                     maxLevel: nat, y0: int, xoffs: nat, yoffs: nat)
      requires AllIn(own) && Linked(shapes, f) && k < |shapes|
      requires |total| == |shapes| && shapes[k].totalShapes == total[k]
      requires |xs| == |shapes| && InColumn(f, xs, k, maxLevel, y0, xoffs)
      requires PlacedAs(Places(f.up, total, y0, yoffs, k), xs[..k])
      modifies own`usedShapes, own`x, own`y
      ensures PlacedAs(Places(f.up, total, y0, yoffs, k + 1), xs[..k + 1])
    {
      var x := ColumnOf(shapes[k].level, maxLevel, y0, xoffs);
      PlacesOneMore(f.up, total, y0, yoffs, k);
      assert xs[..k + 1] == xs[..k] + [x];
      PlaceShape(own, f, total, Places(f.up, total, y0, yoffs, k), xs[..k], shapes[k], x, y0, yoffs);
    }

    /** Second pass, tail of the list to its head: every shape comes after the shape it hangs below. */
    method PlaceShapes(ghost own: set<Shape>, ghost f: Forest, ghost total: seq<nat>, ghost xs: seq<int>,
                       maxLevel: nat, y0: int, xoffs: nat, yoffs: nat)
      requires AllIn(own) && Linked(shapes, f) && Totalled(total) && Shows(Places(f.up, total, y0, yoffs, 0))
      requires |xs| == |shapes| && forall k :: 0 <= k < |xs| ==> InColumn(f, xs, k, maxLevel, y0, xoffs)
      modifies own`usedShapes, own`x, own`y
      ensures PlacedAs(Places(f.up, total, y0, yoffs, |shapes|), xs)
    {
      for k := 0 to |shapes|
        invariant PlacedAs(Places(f.up, total, y0, yoffs, k), xs[..k])
      {
        assert InColumn(f, xs, k, maxLevel, y0, xoffs);
        PlaceNext(own, f, total, xs, k, maxLevel, y0, xoffs, yoffs);
      }
      assert xs[..|shapes|] == xs;
    }

    /** Sizes and places the shapes and sets the scroll height. */
    method Arrange(ghost own: set<Shape>, ghost f: Forest, maxLevel: nat, y0: nat, xoffs: nat, yoffs: nat)
      requires AllIn(own) && Linked(shapes, f) && Totalled(Totals(f.up, |shapes|))
      requires Shows(Places(f.up, Totals(f.up, 0), y0, yoffs, 0))
      modifies this`scrollHeight, own`totalShapes, own`usedShapes, own`x, own`y
      ensures Totalled(Totals(f.up, 0))
      ensures PlacedAs(Places(f.up, Totals(f.up, 0), y0, yoffs, |shapes|), Column(f, maxLevel, y0, xoffs))
      ensures scrollHeight == (Totals(f.up, 0)[0] * yoffs + y0 * 2 + PIXPERUNIT - 1) / PIXPERUNIT
    {
      SizeShapes(own, f);
      PlaceShapes(own, f, Totals(f.up, 0), Column(f, maxLevel, y0, xoffs), maxLevel, y0, xoffs, yoffs);
      scrollHeight := (shapes[0].totalShapes * yoffs + y0 * 2 + PIXPERUNIT - 1) / PIXPERUNIT;
    }

    /** Room for that many rows and a margin above and below, in scroll units. */
    function ScrollHeight(rows: nat, height: nat): int
    {
      (rows * (height * 5 / 4) + (height * 3 / 2) * 2 + PIXPERUNIT - 1) / PIXPERUNIT
    }

    lemma NothingPlaced(f: Forest, y0: int, yoffs: nat)
      requires Linked(shapes, f) && Unplaced(shapes)
      ensures Totalled(Totals(f.up, |shapes|)) && Shows(Places(f.up, Totals(f.up, 0), y0, yoffs, 0))
    {
    }

    /** Lays out the shapes that were read from the lines. */
    method Show(ghost own: set<Shape>, ghost lines: seq<Line>, maxLevel: nat, width: nat, height: nat)
      requires width >= 50 && height >= 20
      requires AllIn(own) && Linked(shapes, ForestOf(lines)) && Unplaced(shapes)
      requires IsMaximum(ForestOf(lines).level, maxLevel)
      modifies this`scrollHeight, own`totalShapes, own`usedShapes, own`x, own`y
      ensures Totalled(Totals(ForestOf(lines).up, 0)) && Apart(scrollHeight * PIXPERUNIT)
      ensures Stands(ForestOf(lines), maxLevel, height * 3 / 2, width * 3, height * 5 / 4)
      ensures scrollHeight == ScrollHeight(Totals(ForestOf(lines).up, 0)[0], height)
    {
      ghost var f := ForestOf(lines);
      var y0, xoffs, yoffs := height * 3 / 2, width * 3, height * 5 / 4;
      NothingPlaced(f, y0, yoffs);
      Arrange(own, f, maxLevel, y0, xoffs, yoffs);
      LayoutKeepsApart(lines, maxLevel, y0, xoffs, yoffs);
      ghost var bottom := y0 + Totals(f.up, 0)[0] * yoffs;
      assert y0 * 2 == (height * 3 / 2) * 2;
      Seen(Column(f, maxLevel, y0, xoffs), Places(f.up, Totals(f.up, 0), y0, yoffs, |shapes|), bottom);
      StandsAsPlaced(f, maxLevel, y0, xoffs, yoffs);
    }

    /**
     * Shows a plan text on a canvas whose root shape has the given size. `plan` is what the text means:
     * which lines are shown as shapes and where each of them hangs.
     */
    method SetExplainString(text: seq<TextLine>, width: nat, height: nat) returns (ghost plan: Forest)
      requires width >= 50 && height >= 20
      modifies this
      ensures Depicts(text, plan) && plan == ForestOf(ClassifyAll(text))
      ensures Linked(shapes, plan) && Counted(shapes, KidNos(plan.up), KidCounts(plan.up))
      ensures forall i :: 0 <= i < |shapes| ==> shapes[i].totalShapes == |LeafSet(plan.up, i)|
      ensures exists maxLevel :: IsMaximum(plan.level, maxLevel)
                                 && Stands(plan, maxLevel, height * 3 / 2, width * 3, height * 5 / 4)
      ensures scrollHeight == ScrollHeight(|LeafSet(plan.up, 0)|, height) && Apart(scrollHeight * PIXPERUNIT)
    {
      var lines := ClassifyAll(text);
      ghost var own;
      var maxLevel, last;
      maxLevel, last, own := Read(lines);
      Show(own, lines, maxLevel, width, height);
      plan := ForestOf(lines);
      SizesCountLeaves(plan.up);
      ReadingDepicts(text);
    }
  }
}
