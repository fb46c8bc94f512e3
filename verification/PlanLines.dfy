/**
 * Reading an EXPLAIN text: which shape each indented line hangs below.
 */
module PlanLines {
  import opened ParentVector
  import opened PlanTree

  type Level = n: nat | n >= 1 witness 1

  /** What a text line contributes: a shape, a line that only pops, or a condition of the last shape. */
  datatype Line = Plan(level: Level) | Dropped(level: Level) | Condition

  const ARROW := "->  "
  const DROPPED_TOKENS := ["Total", "Trigger", "Settings:", "Slice"]

  function SkipSpaces(s: string): string
  {
    if s != "" && s[0] == ' ' then SkipSpaces(s[1..]) else s
  }

  function UpToSpace(s: string): string
  {
    if s == "" || s[0] == ' ' then "" else [s[0]] + UpToSpace(s[1..])
  }

  predicate IsDroppedText(text: string)
  {
    var token := UpToSpace(SkipSpaces(text));
    token in DROPPED_TOKENS || "(slice" <= token
  }

  /** How one stripped line of the given indentation level is read. */
  function Classify(level: Level, text: string): Line
  {
    if level != 1 && !(ARROW <= text) then Condition
    else if IsDroppedText(if level != 1 then text[|ARROW|..] else text) then Dropped(level)
    else Plan(level)
  }

  function ClassifyAll(text: seq<(Level, string)>): (lines: seq<Line>)
    ensures |lines| == |text|
    ensures forall k :: 0 <= k < |text| ==> lines[k] == Classify(text[k].0, text[k].1)
  {
    seq(|text|, k requires 0 <= k < |text| => Classify(text[k].0, text[k].1))
  }

  // ----- the reading loop on values

  /** The plan so far: parent, level and source line of every shape (the root's line is -1). */
  datatype Forest = Forest(up: seq<nat>, level: seq<nat>, line: seq<int>)

  ghost const ROOT_ALONE := Forest([0], [0], [-1])

  ghost predicate Shaped(f: Forest)
  {
    IsTree(f.up) && |f.up| == |f.level| == |f.line|
  }

  /** Pops from shape k until the root or a shape shallower than `level`. */
  ghost function PopTo(f: Forest, k: nat, level: Level): (p: nat)
    requires Shaped(f) && k < |f.up|
    ensures p <= k
    decreases k
  {
    if k > 0 && level <= f.level[k] then PopTo(f, f.up[k], level) else k
  }

  ghost function Extend(f: Forest, p: nat, level: Level, t: nat): Forest
  {
    Forest(f.up + [p], f.level + [level], f.line + [t])
  }

  /** The forest and the last shape once the first t lines are read. */
  ghost function ReadTo(lines: seq<Line>, t: nat): (r: (Forest, nat))
    requires t <= |lines|
    ensures Shaped(r.0) && r.1 < |r.0.up|
    decreases t
  {
    if t == 0 then (ROOT_ALONE, 0) else ReadLine(ReadTo(lines, t - 1), lines[t - 1], t - 1)
  }

  ghost function ReadLine(r: (Forest, nat), line: Line, t: nat): (r': (Forest, nat))
    requires Shaped(r.0) && r.1 < |r.0.up|
    ensures Shaped(r'.0) && r'.1 < |r'.0.up|
  {
    if line.Condition? then r
    else
      var p := PopTo(r.0, r.1, line.level);
      if line.Dropped? then (r.0, p) else (Extend(r.0, p, line.level, t), |r.0.up|)
  }

  /** The forest of a whole plan text. */
  ghost function ForestOf(lines: seq<Line>): (f: Forest)
    ensures Shaped(f)
  {
    ReadTo(lines, |lines|).0
  }

  // ----- which shapes are still open

  /** No line after shape j's own, up to and including line t, is as shallow as shape j. */
  ghost predicate Open(lines: seq<Line>, f: Forest, j: nat, t: int)
    requires j < |f.level| && j < |f.line| && -1 <= f.line[j] && t < |lines|
  {
    forall k :: f.line[j] < k <= t && !lines[k].Condition? ==> f.level[j] < lines[k].level
  }

  ghost predicate WellFormed(lines: seq<Line>, f: Forest)
  {
    && Shaped(f) && f.level[0] == 0 && f.line[0] == -1
    && (forall i :: 0 < i < |f.up| ==>
          0 <= f.line[i] < |lines| && lines[f.line[i]].Plan? && lines[f.line[i]].level == f.level[i])
    && (forall i, j :: 0 <= i < j < |f.up| ==> f.line[i] < f.line[j])
  }

  ghost predicate NoneOpenAfter(lines: seq<Line>, f: Forest, at: nat, t: int)
    requires WellFormed(lines, f) && t < |lines|
  {
    forall j :: at < j < |f.up| ==> !Open(lines, f, j, t)
  }

  /** p is the latest shape before i that is still open at i's line. */
  ghost predicate LatestOpen(lines: seq<Line>, f: Forest, i: nat, p: nat)
    requires WellFormed(lines, f) && p < i < |f.up|
  {
    && Open(lines, f, p, f.line[i])
    && forall j :: p < j < i ==> !Open(lines, f, j, f.line[i])
  }

  ghost predicate ParentsLatestOpen(lines: seq<Line>, f: Forest)
    requires WellFormed(lines, f)
  {
    forall i {:trigger LatestOpen(lines, f, i, f.up[i])} :: 0 < i < |f.up| ==> LatestOpen(lines, f, i, f.up[i])
  }

  /** Exactly the plan lines among the first n became shapes. */
  ghost predicate CoversPlans(lines: seq<Line>, f: Forest, n: nat)
    requires n <= |lines|
  {
    && (forall i :: 0 < i < |f.line| ==> f.line[i] < n)
    && (forall k :: 0 <= k < n && lines[k].Plan? ==> k in f.line)
  }

  /** The forest a whole plan text denotes. */
  ghost predicate Denotes(lines: seq<Line>, f: Forest)
  {
    WellFormed(lines, f) && ParentsLatestOpen(lines, f) && CoversPlans(lines, f, |lines|)
  }

  lemma ParentsAreShallower(lines: seq<Line>, f: Forest)
    requires WellFormed(lines, f) && ParentsLatestOpen(lines, f)
    ensures LevelsGrow(f.up, f.level)
  {
    forall i | 0 < i < |f.up| ensures f.level[f.up[i]] < f.level[i] {
      assert LatestOpen(lines, f, i, f.up[i]);
      assert lines[f.line[i]].level == f.level[i];
    }
  }

  /** m is the most recent shape before i with a strictly smaller level. */
  ghost predicate MostRecentShallower(lines: seq<Line>, f: Forest, i: nat, m: nat)
    requires WellFormed(lines, f) && m < i < |f.up|
  {
    f.level[m] < f.level[i] && forall j :: m < j < i ==> f.level[i] <= f.level[j]
  }

  /** A dropped line between m and i is at least as shallow as m. */
  ghost predicate CutOff(lines: seq<Line>, f: Forest, m: nat, i: nat)
    requires WellFormed(lines, f) && m < i < |f.up|
  {
    exists k :: f.line[m] < k < f.line[i] && lines[k].Dropped? && lines[k].level <= f.level[m]
  }

  lemma ShapeOfLine(lines: seq<Line>, f: Forest, k: nat) returns (j: nat)
    requires Denotes(lines, f) && k < |lines| && lines[k].Plan?
    ensures 0 < j < |f.up| && f.line[j] == k && f.level[j] == lines[k].level
  {
    j :| 0 <= j < |f.line| && f.line[j] == k;
  }

  /**
   * A shape hangs below the most recent shallower shape if and only if no dropped line
   * between the two was as shallow as that shape.
   */
  lemma ParentIsMostRecentShallower(lines: seq<Line>, f: Forest, i: nat, m: nat)
    requires Denotes(lines, f) && 0 < i < |f.up| && m < i && MostRecentShallower(lines, f, i, m)
    ensures f.up[i] == m <==> !CutOff(lines, f, m, i)
  {
    var p, t := f.up[i], f.line[i];
    assert LatestOpen(lines, f, i, p);
    assert lines[t].level == f.level[i];
    assert p <= m;
    if CutOff(lines, f, m, i) {
      var k :| f.line[m] < k < t && lines[k].Dropped? && lines[k].level <= f.level[m];
      assert !Open(lines, f, m, t);
    } else if p < m {
      assert !Open(lines, f, m, t);
      var k :| f.line[m] < k <= t && !lines[k].Condition? && lines[k].level <= f.level[m];
      assert lines[k].Plan?;
      var j := ShapeOfLine(lines, f, k);
    }
  }

  /** With no dropped line at all, every shape hangs below the most recent shallower one. */
  lemma WithoutDroppedLines(lines: seq<Line>, f: Forest, i: nat)
    requires Denotes(lines, f) && 0 < i < |f.up|
    requires forall k :: 0 <= k < |lines| ==> !lines[k].Dropped?
    ensures f.up[i] < i && MostRecentShallower(lines, f, i, f.up[i])
  {
    var m := i - 1;
    while f.level[i] <= f.level[m]
      invariant 0 <= m < i
      invariant forall j :: m < j < i ==> f.level[i] <= f.level[j]
      decreases m
    {
      m := m - 1;
    }
    ParentIsMostRecentShallower(lines, f, i, m);
  }

  /** A plan text has one forest: the conditions above determine every shape and parent. */
  lemma {:induction false} ForestUnique(lines: seq<Line>, f: Forest, g: Forest, i: nat)
    requires Denotes(lines, f) && Denotes(lines, g) && i < |f.up|
    ensures i < |g.up| && f.line[i] == g.line[i] && f.level[i] == g.level[i]
    ensures i > 0 ==> f.up[i] == g.up[i]
    decreases i
  {
    forall j | 0 <= j < i
      ensures j < |g.up| && f.line[j] == g.line[j] && f.level[j] == g.level[j]
    {
      ForestUnique(lines, f, g, j);
    }
    if i > 0 {
      var j := ShapeOfLine(lines, g, f.line[i]);
      assert i <= j;
      var k := ShapeOfLine(lines, f, g.line[i]);
      assert i <= k;
      assert LatestOpen(lines, f, i, f.up[i]) && LatestOpen(lines, g, i, g.up[i]);
      assert forall m :: 0 <= m < i ==> (Open(lines, f, m, f.line[i]) <==> Open(lines, g, m, g.line[i]));
    }
  }

  // ----- the reading loop finds the latest open shape

  /** After the first t lines, `at` is the latest shape still open. */
  ghost predicate ReadUpTo(lines: seq<Line>, f: Forest, at: nat, t: nat)
    requires t <= |lines|
  {
    && WellFormed(lines, f) && ParentsLatestOpen(lines, f) && CoversPlans(lines, f, t)
    && at < |f.up| && Open(lines, f, at, t - 1) && NoneOpenAfter(lines, f, at, t - 1)
  }

  ghost predicate ReadRight(lines: seq<Line>, r: (Forest, nat), t: nat)
    requires t <= |lines|
  {
    ReadUpTo(lines, r.0, r.1, t)
  }

  /** Line t hangs below p: p is the latest shape still open there. */
  ghost predicate HangsBelow(lines: seq<Line>, f: Forest, p: nat, t: nat)
    requires WellFormed(lines, f) && t < |lines|
  {
    p < |f.up| && Open(lines, f, p, t) && NoneOpenAfter(lines, f, p, t)
  }

  lemma StaysClosed(lines: seq<Line>, f: Forest, at: nat, t: nat)
    requires WellFormed(lines, f) && t < |lines| && NoneOpenAfter(lines, f, at, t - 1)
    ensures NoneOpenAfter(lines, f, at, t)
  {
    forall j | at < j < |f.up| ensures !Open(lines, f, j, t) {
      assert !Open(lines, f, j, t - 1);
    }
  }

  /** Popping one shape that is not shallower than line t. */
  lemma PopOnce(lines: seq<Line>, f: Forest, at: nat, t: nat)
    requires t < |lines| && !lines[t].Condition?
    requires WellFormed(lines, f) && ParentsLatestOpen(lines, f) && CoversPlans(lines, f, t) && 0 < at < |f.up|
    requires Open(lines, f, at, t - 1) && lines[t].level <= f.level[at] && NoneOpenAfter(lines, f, at, t)
    ensures Open(lines, f, f.up[at], t - 1) && NoneOpenAfter(lines, f, f.up[at], t)
  {
    ParentsAreShallower(lines, f);
    assert LatestOpen(lines, f, at, f.up[at]);
    forall j | f.up[at] < j < |f.up| ensures !Open(lines, f, j, t) {
      if j < at { assert !Open(lines, f, j, f.line[at]); }
      else if j == at { assert f.line[at] < t; }
    }
  }

  lemma {:induction false} PopFindsLatestOpen(lines: seq<Line>, f: Forest, at: nat, t: nat)
    requires t < |lines| && !lines[t].Condition?
    requires WellFormed(lines, f) && ParentsLatestOpen(lines, f) && CoversPlans(lines, f, t) && at < |f.up|
    requires Open(lines, f, at, t - 1) && NoneOpenAfter(lines, f, at, t)
    ensures HangsBelow(lines, f, PopTo(f, at, lines[t].level), t)
    decreases at
  {
    if at > 0 && lines[t].level <= f.level[at] {
      PopOnce(lines, f, at, t);
      PopFindsLatestOpen(lines, f, f.up[at], t);
    }
  }

  lemma PlanStepShape(lines: seq<Line>, f: Forest, p: nat, t: nat)
    requires t < |lines| && lines[t].Plan? && WellFormed(lines, f) && CoversPlans(lines, f, t) && p < |f.up|
    ensures var g := Extend(f, p, lines[t].level, t);
            WellFormed(lines, g) && CoversPlans(lines, g, t + 1)
  {
    var g := Extend(f, p, lines[t].level, t);
    assert g.line[|f.up|] == t;
    forall k | 0 <= k <= t && lines[k].Plan? ensures k in g.line {
      if k < t { assert k in f.line; }
    }
  }

  lemma PlanStepParents(lines: seq<Line>, f: Forest, p: nat, t: nat)
    requires t < |lines| && lines[t].Plan? && WellFormed(lines, f) && ParentsLatestOpen(lines, f)
    requires HangsBelow(lines, f, p, t) && WellFormed(lines, Extend(f, p, lines[t].level, t))
    ensures ParentsLatestOpen(lines, Extend(f, p, lines[t].level, t))
  {
    var g := Extend(f, p, lines[t].level, t);
    assert forall j, k :: 0 <= j < |f.up| && k < |lines| ==> (Open(lines, g, j, k) <==> Open(lines, f, j, k));
    forall i | 0 < i < |g.up| ensures LatestOpen(lines, g, i, g.up[i]) {
      if i < |f.up| { assert LatestOpen(lines, f, i, f.up[i]); }
    }
  }

  /** Adding the shape of line t below the latest shape still open there. */
  lemma PlanStep(lines: seq<Line>, f: Forest, at: nat, p: nat, t: nat)
    requires t < |lines| && lines[t].Plan? && ReadUpTo(lines, f, at, t) && HangsBelow(lines, f, p, t)
    ensures ReadUpTo(lines, Extend(f, p, lines[t].level, t), |f.up|, t + 1)
  {
    PlanStepShape(lines, f, p, t);
    PlanStepParents(lines, f, p, t);
  }

  lemma ConditionStep(lines: seq<Line>, f: Forest, at: nat, t: nat)
    requires t < |lines| && lines[t].Condition? && ReadUpTo(lines, f, at, t)
    ensures ReadUpTo(lines, f, at, t + 1)
  {
    StaysClosed(lines, f, at, t);
  }

  lemma DroppedStep(lines: seq<Line>, f: Forest, at: nat, p: nat, t: nat)
    requires t < |lines| && lines[t].Dropped? && ReadUpTo(lines, f, at, t) && HangsBelow(lines, f, p, t)
    ensures ReadUpTo(lines, f, p, t + 1)
  {
  }

  lemma ReadOneMore(lines: seq<Line>, t: nat)
    requires t < |lines|
    ensures ReadTo(lines, t + 1) == ReadLine(ReadTo(lines, t), lines[t], t)
  {
  }

  lemma ReadNothing(lines: seq<Line>)
    ensures ReadRight(lines, (ROOT_ALONE, 0), 0)
  {
  }

  /** Reading a line leads from forests and last shapes with the property to such ones. */
  ghost predicate KeptByLines(lines: seq<Line>, Keeps: ((Forest, nat), nat) -> bool)
  {
    forall r: (Forest, nat), t: nat ::
      t < |lines| && Shaped(r.0) && r.1 < |r.0.up| && Keeps(r, t) ==> Keeps(ReadLine(r, lines[t], t), t + 1)
  }

  lemma {:induction false} ReadingKeeps(lines: seq<Line>, Keeps: ((Forest, nat), nat) -> bool, t: nat)
    requires t <= |lines| && Keeps((ROOT_ALONE, 0), 0) && KeptByLines(lines, Keeps)
    ensures Keeps(ReadTo(lines, t), t)
    decreases t
  {
    if t > 0 { ReadingKeeps(lines, Keeps, t - 1); }
  }

  lemma ReadToKeepsLatestOpen(lines: seq<Line>, t: nat)
    requires t <= |lines|
    ensures ReadRight(lines, ReadTo(lines, t), t)
  {
    var Keeps := (r: (Forest, nat), k: nat) => k <= |lines| && ReadRight(lines, r, k);
    assert Keeps((ROOT_ALONE, 0), 0) by { ReadNothing(lines); }
    assert KeptByLines(lines, Keeps) by {
      forall r: (Forest, nat), k: nat | k < |lines| && Shaped(r.0) && r.1 < |r.0.up| && Keeps(r, k)
        ensures Keeps(ReadLine(r, lines[k], k), k + 1)
      {
        ReadLineStep(lines, r, k);
      }
    }
    ReadingKeeps(lines, Keeps, t);
  }

  lemma ReadLineStep(lines: seq<Line>, r: (Forest, nat), t: nat)
    requires t < |lines| && ReadRight(lines, r, t)
    ensures ReadRight(lines, ReadLine(r, lines[t], t), t + 1)
  {
    var (f, at) := r;
    if lines[t].Condition? { ConditionStep(lines, f, at, t); return; }
    var p := PopTo(f, at, lines[t].level);
    assert HangsBelow(lines, f, p, t) by {
      StaysClosed(lines, f, at, t);
      PopFindsLatestOpen(lines, f, at, t);
    }
    if lines[t].Plan? { PlanStep(lines, f, at, p, t); } else { DroppedStep(lines, f, at, p, t); }
  }

  /** For every text, the popping loop hangs each shape below the latest shape still open there. */
  lemma ReadingFindsParents(lines: seq<Line>)
    ensures Denotes(lines, ForestOf(lines))
  {
    ReadToKeepsLatestOpen(lines, |lines|);
  }

  /** A dropped line can move a deeper line's parent up: here from the shape before it to the root. */
  lemma DroppedLineMovesParent()
    ensures var lines := [Plan(1), Dropped(1), Plan(2)];
            var f := ForestOf(lines);
            |f.up| == 3 && f.up[2] == 0 && Denotes(lines, f) && MostRecentShallower(lines, f, 2, 1)
  {
    var lines := [Plan(1), Dropped(1), Plan(2)];
    assert Denotes(lines, ForestOf(lines)) by { ReadingFindsParents(lines); }
    var f1 := Forest([0, 0], [0, 1], [-1, 0]);
    assert Extend(ROOT_ALONE, 0, 1, 0) == f1;
    assert ReadTo(lines, 0) == (ROOT_ALONE, 0);
    assert ReadTo(lines, 1) == ReadLine((ROOT_ALONE, 0), lines[0], 0) == (f1, 1);
    assert PopTo(f1, 0, 1) == 0;
    assert ReadTo(lines, 2) == ReadLine((f1, 1), lines[1], 1) == (f1, 0);
    assert Extend(f1, 0, 2, 2) == Forest([0, 0, 0], [0, 1, 2], [-1, 0, 2]);
    assert ReadTo(lines, 3) == ReadLine((f1, 0), lines[2], 2);
  }
}
