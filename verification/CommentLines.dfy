/** What commenting and uncommenting a selection do line by line. */
module CommentLines {
  import opened Basics
  import opened SqlText

  /** A line holds no line end. */
  ghost predicate IsLine(l: string, e: string)
  {
    forall i :: 0 <= i <= |l| ==> !(e <= l[i..])
  }

  ghost predicate AreLines(lines: seq<string>, e: string)
  {
    lines != [] && forall k :: 0 <= k < |lines| ==> IsLine(lines[k], e)
  }

  function Join(lines: seq<string>, e: string): string
    requires lines != []
  {
    if |lines| == 1 then lines[0] else lines[0] + (e + Join(lines[1..], e))
  }

  /** Every text is made of lines. */
  lemma {:induction false} EveryTextHasLines(s: string, e: string) returns (lines: seq<string>)
    requires IsLineEnd(e)
    ensures AreLines(lines, e) && Join(lines, e) == s
    decreases |s|
  {
    if s == "" { lines := [""]; }
    else if e <= s {
      var rest := EveryTextHasLines(s[|e|..], e);
      lines := [""] + rest;
      assert lines[1..] == rest && s == e + s[|e|..];
    } else {
      var rest := EveryTextHasLines(s[1..], e);
      lines := [[s[0]] + rest[0]] + rest[1..];
      assert lines[1..] == rest[1..];
      LongerLine(s, rest[0], e);
      assert forall k :: 0 < k < |lines| ==> lines[k] == rest[k];
      if |rest| == 1 { assert s == [s[0]] + s[1..]; }
      else {
        Regroup([s[0]], rest[0], e + Join(rest[1..], e));
        assert s == [s[0]] + s[1..];
      }
    }
  }

  lemma LongerLine(s: string, l: string, e: string)
    requires IsLineEnd(e) && s != "" && !(e <= s) && l <= s[1..] && IsLine(l, e)
    ensures IsLine([s[0]] + l, e)
  {
    var m := [s[0]] + l;
    forall i | 0 <= i <= |m| ensures !(e <= m[i..]) {
      if i == 0 { assert m == s[..|m|]; } else { assert m[i..] == l[i - 1..]; }
    }
  }

  // ----- replacing after line ends

  /** What follows a line: nothing, or a line end. */
  predicate AfterLine(rest: string, e: string)
  {
    rest == "" || e <= rest
  }

  lemma NoEndInside(l: string, rest: string, e: string)
    requires IsLineEnd(e) && IsLine(l, e) && l != "" && AfterLine(rest, e)
    ensures !(e <= l + rest)
  {
    assert l[0..] == l && (l + rest)[0] == l[0];
    if |l| > 1 { assert (l + rest)[1] == l[1]; } else if rest != "" { assert (l + rest)[1] == rest[0]; }
  }

  lemma ReplaceSkipsChar(l: string, rest: string, e: string, find: string, r: string)
    requires IsLineEnd(e) && IsLine(l, e) && l != "" && AfterLine(rest, e) && e <= find
    ensures Replace(l + rest, find, r) == [l[0]] + Replace(l[1..] + rest, find, r)
  {
    NoEndInside(l, rest, e);
    assert l + rest == [l[0]] + (l[1..] + rest);
    assert find <= l + rest ==> e <= l + rest;
    ReplaceAtOther(l[0], l[1..] + rest, find, r);
  }

  /** A replacement of something that starts with a line end leaves a line alone. */
  lemma {:induction false} ReplaceSkipsLine(l: string, rest: string, e: string, find: string, r: string)
    requires IsLineEnd(e) && IsLine(l, e) && AfterLine(rest, e) && e <= find
    ensures Replace(l + rest, find, r) == l + Replace(rest, find, r)
    decreases |l|
  {
    if l == "" { assert l + rest == rest; }
    else {
      var tail := l[1..];
      assert IsLine(tail, e) by { LineTail(l, e, 1); }
      ReplaceSkipsLine(tail, rest, e, find, r);
      ReplaceSkipsChar(l, rest, e, find, r);
      Regroup([l[0]], tail, Replace(rest, find, r));
      assert l == [l[0]] + tail;
    }
  }

  // ----- commenting

  function MarkEach(lines: seq<string>): (r: seq<string>)
    ensures |r| == |lines| && forall k :: 0 <= k < |lines| ==> r[k] == COMMENT + lines[k]
  {
    seq(|lines|, k requires 0 <= k < |lines| => COMMENT + lines[k])
  }

  lemma {:induction false} MarkedJoin(lines: seq<string>, e: string)
    requires IsLineEnd(e) && AreLines(lines, e)
    ensures COMMENT + Replace(Join(lines, e), e, e + COMMENT) == Join(MarkEach(lines), e)
    decreases |lines|
  {
    if |lines| == 1 {
      ReplaceSkipsLine(lines[0], "", e, e, e + COMMENT);
      assert lines[0] + "" == lines[0];
    } else {
      var tail := lines[1..];
      MarkedJoin(tail, e);
      ReplaceSkipsLine(lines[0], e + Join(tail, e), e, e, e + COMMENT);
      ReplaceAtMatch(e, Join(tail, e), e + COMMENT);
      assert MarkEach(lines)[1..] == MarkEach(tail);
      var m := Replace(Join(tail, e), e, e + COMMENT);
      Regroup(e, COMMENT, m);
      Regroup(COMMENT, lines[0], e + (COMMENT + m));
    }
  }

  /** The last line with its end cut off if that is a mark. */
  function CutMark(line: string): string
  {
    if EndsWith(line, COMMENT) then line[..|line| - |COMMENT|] else line
  }

  lemma CutBehind(a: string, j: string)
    requires |j| >= |COMMENT|
    ensures CutMark(a + j) == a + CutMark(j)
  {
    var s := a + j;
    assert s[|s| - 3..] == j[|j| - 3..] && s[..|s| - 3] == a + j[..|j| - 3];
  }

  lemma {:induction false} CutLast(lines: seq<string>, e: string)
    requires lines != [] && |lines[|lines| - 1]| >= |COMMENT|
    ensures CutMark(Join(lines, e)) == Join(lines[|lines| - 1 := CutMark(lines[|lines| - 1])], e)
    decreases |lines|
  {
    if |lines| > 1 {
      var tail, n := lines[1..], |lines| - 1;
      CutLast(tail, e);
      LastIsLong(tail, e);
      CutBehind(e, Join(tail, e));
      CutBehind(lines[0], e + Join(tail, e));
      assert lines[n := CutMark(lines[n])][1..] == tail[n - 1 := CutMark(tail[n - 1])];
    }
  }

  lemma {:induction false} LastIsLong(lines: seq<string>, e: string)
    requires lines != []
    ensures |Join(lines, e)| >= |lines[|lines| - 1]|
    decreases |lines|
  {
    if |lines| > 1 { LastIsLong(lines[1..], e); }
  }

  /** Commenting marks every line; if the last line then ends in a mark, it loses that one. */
  lemma CommentMarksLines(lines: seq<string>, e: string)
    requires IsLineEnd(e) && AreLines(lines, e)
    ensures var n := |lines| - 1;
            Comment(Join(lines, e), e) == Join(MarkEach(lines)[n := CutMark(COMMENT + lines[n])], e)
  {
    MarkedJoin(lines, e);
    CutLast(MarkEach(lines), e);
  }

  // ----- uncommenting

  function Unmark(line: string): string
  {
    if COMMENT <= line then line[|COMMENT|..] else line
  }

  function UnmarkEach(lines: seq<string>): (r: seq<string>)
    ensures |r| == |lines| && forall k :: 0 <= k < |lines| ==> r[k] == Unmark(lines[k])
  {
    seq(|lines|, k requires 0 <= k < |lines| => Unmark(lines[k]))
  }

  lemma JoinStartsAsLine(lines: seq<string>, e: string)
    requires IsLineEnd(e) && lines != []
    ensures COMMENT <= Join(lines, e) <==> COMMENT <= lines[0]
    ensures COMMENT <= lines[0] ==> Join(lines, e)[|COMMENT|..] == Join(lines[0 := lines[0][|COMMENT|..]], e)
  {
    var j := Join(lines, e);
    if COMMENT <= lines[0] {
      var cut := lines[0][|COMMENT|..];
      assert lines[0] == COMMENT + cut;
      if |lines| > 1 {
        assert lines[0 := cut][1..] == lines[1..];
        Regroup(COMMENT, cut, e + Join(lines[1..], e));
        assert j == COMMENT + (cut + (e + Join(lines[1..], e)));
      }
    } else if |lines| > 1 {
      var k := |lines[0]|;
      if k < |COMMENT| { assert j[k] == e[0]; } else { assert lines[0][..|COMMENT|] == j[..|COMMENT|]; }
    }
  }

  lemma LineTail(l: string, e: string, k: nat)
    requires IsLine(l, e) && k <= |l|
    ensures IsLine(l[k..], e)
  {
    assert forall i :: 0 <= i <= |l[k..]| ==> l[k..][i..] == l[k + i..];
  }

  lemma PrefixAfter(e: string, a: string, b: string)
    ensures e + a <= e + b <==> a <= b
  {
    if e + a <= e + b { assert b[..|a|] == (e + b)[|e|..|e + a|] == (e + a)[|e|..] == a; }
  }

  lemma EndKept(e: string, j: string)
    requires IsLineEnd(e) && !(COMMENT <= j)
    ensures Replace(e + j, e + COMMENT, e) == e + Replace(j, e + COMMENT, e)
  {
    var find := e + COMMENT;
    PrefixAfter(e, COMMENT, j);
    if |e| == 1 {
      assert e == [e[0]];
      ReplaceAtOther(e[0], j, find, e);
    } else {
      assert e + j == ['\r'] + (['\n'] + j);
      ReplaceAtOther('\r', ['\n'] + j, find, e);
      assert find[0] == '\r';
      ReplaceAtOther('\n', j, find, e);
      Regroup(['\r'], ['\n'], Replace(j, find, e));
    }
  }

  lemma EndAndMark(e: string, j: string)
    requires IsLineEnd(e) && COMMENT <= j
    ensures Replace(e + j, e + COMMENT, e) == e + Replace(j[|COMMENT|..], e + COMMENT, e)
  {
    var t := j[|COMMENT|..];
    assert j == COMMENT + t;
    Regroup(e, COMMENT, t);
    ReplaceAtMatch(e + COMMENT, t, e);
  }

  /** The lines with the mark at the very front removed, if there is one. */
  function UnmarkFirst(lines: seq<string>): (r: seq<string>)
    requires lines != []
    ensures |r| == |lines|
  {
    lines[0 := Unmark(lines[0])]
  }

  lemma UnmarkFirstLines(lines: seq<string>, e: string)
    requires IsLineEnd(e) && AreLines(lines, e)
    ensures AreLines(UnmarkFirst(lines), e)
    ensures Replace(e + Join(lines, e), e + COMMENT, e) == e + Replace(Join(UnmarkFirst(lines), e), e + COMMENT, e)
  {
    JoinStartsAsLine(lines, e);
    if COMMENT <= lines[0] {
      LineTail(lines[0], e, |COMMENT|);
      EndAndMark(e, Join(lines, e));
    } else {
      assert UnmarkFirst(lines) == lines;
      EndKept(e, Join(lines, e));
    }
  }

  lemma {:induction false} UnmarkedAfterEnd(tail: seq<string>, e: string)
    requires IsLineEnd(e) && AreLines(tail, e)
    ensures Replace(e + Join(tail, e), e + COMMENT, e) == e + Join(UnmarkEach(tail), e)
    decreases |tail|, 1
  {
    var cut := UnmarkFirst(tail);
    UnmarkFirstLines(tail, e);
    UnmarkedRest(cut, e);
    assert UnmarkEach(cut)[0 := cut[0]] == UnmarkEach(tail);
  }

  /** Removing marks after line ends leaves the first line alone and unmarks the others. */
  lemma {:induction false} UnmarkedRest(lines: seq<string>, e: string)
    requires IsLineEnd(e) && AreLines(lines, e)
    ensures Replace(Join(lines, e), e + COMMENT, e) == Join(UnmarkEach(lines)[0 := lines[0]], e)
    decreases |lines|, 0
  {
    var find := e + COMMENT;
    if |lines| == 1 {
      ReplaceSkipsLine(lines[0], "", e, find, e);
      assert lines[0] + "" == lines[0];
    } else {
      var tail := lines[1..];
      ReplaceSkipsLine(lines[0], e + Join(tail, e), e, find, e);
      UnmarkedAfterEnd(tail, e);
      assert UnmarkEach(lines)[0 := lines[0]][1..] == UnmarkEach(tail);
    }
  }

  /** Uncommenting takes one mark off the front of every line that has one and leaves the other lines. */
  lemma UncommentUnmarksLines(lines: seq<string>, e: string)
    requires IsLineEnd(e) && AreLines(lines, e)
    ensures Uncomment(Join(lines, e), e) == Join(UnmarkEach(lines), e)
  {
    UnmarkedRest(lines, e);
    var most := UnmarkEach(lines)[0 := lines[0]];
    JoinStartsAsLine(most, e);
    assert most[0 := Unmark(lines[0])] == UnmarkEach(lines);
    assert most[0 := lines[0]] == most;
  }
}
