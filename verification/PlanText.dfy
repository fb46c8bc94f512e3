/**
 * What the lines of an EXPLAIN text mean, on their characters: which of them are shown as shapes and
 * below which earlier shape each of them hangs.
 */
module PlanText {
  import opened ParentVector
  import opened PlanLines

  type TextLine = (Level, string)

  // ----- the first word

  /** w follows blanks only and ends at a blank or at the end; it is empty only in a blank text. */
  ghost predicate IsWordBetween(a: string, w: string, b: string)
  {
    && (forall i :: 0 <= i < |a| ==> a[i] == ' ')
    && ' ' !in w && (b == "" || b[0] == ' ') && (w == "" ==> b == "")
  }

  ghost predicate IsFirstWord(s: string, w: string)
  {
    exists a, b :: s == a + w + b && IsWordBetween(a, w, b)
  }

  lemma {:induction false} SplitAtBlanks(s: string) returns (a: string)
    ensures s == a + SkipSpaces(s) && forall i :: 0 <= i < |a| ==> a[i] == ' '
    ensures SkipSpaces(s) != "" ==> SkipSpaces(s)[0] != ' '
  {
    a := "";
    if s != "" && s[0] == ' ' {
      var t := SplitAtBlanks(s[1..]);
      a := [' '] + t;
    }
  }

  lemma {:induction false} SplitAfterWord(s: string) returns (b: string)
    ensures s == UpToSpace(s) + b && ' ' !in UpToSpace(s) && (b == "" || b[0] == ' ')
  {
    b := s;
    if s != "" && s[0] != ' ' {
      b := SplitAfterWord(s[1..]);
      assert s == [s[0]] + s[1..];
    }
  }

  lemma {:induction false} SkipsBlanks(a: string, t: string)
    requires (forall i :: 0 <= i < |a| ==> a[i] == ' ') && (t == "" || t[0] != ' ')
    ensures SkipSpaces(a + t) == t
  {
    if a == "" { assert a + t == t; }
    else {
      assert (a + t)[1..] == a[1..] + t;
      SkipsBlanks(a[1..], t);
    }
  }

  lemma {:induction false} StopsAfterWord(w: string, b: string)
    requires ' ' !in w && (b == "" || b[0] == ' ')
    ensures UpToSpace(w + b) == w
  {
    if w == "" { assert w + b == b; }
    else {
      assert (w + b)[1..] == w[1..] + b;
      StopsAfterWord(w[1..], b);
    }
  }

  lemma TokenOfWord(a: string, w: string, b: string)
    requires IsWordBetween(a, w, b)
    ensures UpToSpace(SkipSpaces(a + w + b)) == w
  {
    assert a + w + b == a + (w + b);
    SkipsBlanks(a, w + b);
    StopsAfterWord(w, b);
  }

  lemma TokenIsWord(s: string)
    ensures IsFirstWord(s, UpToSpace(SkipSpaces(s)))
  {
    var a := SplitAtBlanks(s);
    var b := SplitAfterWord(SkipSpaces(s));
    var w := UpToSpace(SkipSpaces(s));
    assert s == a + w + b && IsWordBetween(a, w, b);
  }

  /** The tokenizer's first token is the first word. */
  lemma FirstWordIsToken(s: string, w: string)
    ensures IsFirstWord(s, w) <==> w == UpToSpace(SkipSpaces(s))
  {
    TokenIsWord(s);
    if IsFirstWord(s, w) {
      var a, b :| s == a + w + b && IsWordBetween(a, w, b);
      TokenOfWord(a, w, b);
    }
  }

  // ----- lines

  /** A line at the top or with an arrow; any other continues the line before it. */
  ghost predicate IsNode(l: TextLine)
  {
    l.0 == 1 || "->  " <= l.1
  }

  ghost function AfterArrow(l: TextLine): string
    requires IsNode(l)
  {
    if l.0 == 1 then l.1 else l.1[4..]
  }

  /** A node is shown unless its first word says that it is a summary, a setting or a slice. */
  ghost predicate IsShown(l: TextLine)
  {
    IsNode(l) && forall w :: IsFirstWord(AfterArrow(l), w) ==>
                   && w != "Total" && w != "Trigger" && w != "Settings:" && w != "Slice"
                   && !("(slice" <= w)
  }

  /** The dropped first words are those named. */
  lemma DroppedWords(text: string)
    ensures IsDroppedText(text) <==>
            exists w :: IsFirstWord(text, w)
                        && (w == "Total" || w == "Trigger" || w == "Settings:" || w == "Slice" || "(slice" <= w)
  {
    var token := UpToSpace(SkipSpaces(text));
    assert DROPPED_TOKENS == ["Total", "Trigger", "Settings:", "Slice"];
    FirstWordIsToken(text, token);
    forall w | IsFirstWord(text, w) ensures w == token { FirstWordIsToken(text, w); }
  }

  /** How every line is read: shown as a shape of its level, only popping to its level, or neither. */
  lemma ClassifiedAsMeant(l: TextLine)
    ensures Classify(l.0, l.1).Plan? <==> IsShown(l)
    ensures Classify(l.0, l.1).Condition? <==> !IsNode(l)
    ensures IsNode(l) ==> Classify(l.0, l.1).level == l.0
  {
    if IsNode(l) { DroppedWords(AfterArrow(l)); }
  }

  // ----- the whole text

  /** No node after shape j's own line, up to line t, is as shallow as shape j. */
  ghost predicate StillOpen(text: seq<TextLine>, f: Forest, j: nat, t: int)
    requires j < |f.level| && j < |f.line| && -1 <= f.line[j] && t < |text|
  {
    forall k :: f.line[j] < k <= t && IsNode(text[k]) ==> f.level[j] < text[k].0
  }

  /** Besides the root, each shape after the first stands for a line, in the order of the text. */
  ghost predicate InTextOrder(text: seq<TextLine>, f: Forest)
  {
    && Shaped(f) && f.level[0] == 0 && f.line[0] == -1
    && (forall i :: 0 < i < |f.up| ==> 0 <= f.line[i] < |text| && f.level[i] == text[f.line[i]].0)
    && (forall i, j :: 0 <= i < j < |f.up| ==> f.line[i] < f.line[j])
  }

  /** Shape i hangs below the latest earlier shape that is still open at i's line. */
  ghost predicate HangsRight(text: seq<TextLine>, f: Forest, i: nat)
    requires InTextOrder(text, f) && 0 < i < |f.up|
  {
    && StillOpen(text, f, f.up[i], f.line[i])
    && forall j :: f.up[i] < j < i ==> !StillOpen(text, f, j, f.line[i])
  }

  /** The forest shows exactly the lines to be shown, each with its level, hanging where it should. */
  ghost predicate Depicts(text: seq<TextLine>, f: Forest)
  {
    && InTextOrder(text, f)
    && (forall t :: 0 <= t < |text| ==> (IsShown(text[t]) <==> t in f.line))
    && (forall i :: 0 < i < |f.up| ==> HangsRight(text, f, i))
  }

  lemma AllClassified(text: seq<TextLine>)
    ensures forall t {:trigger text[t]} :: 0 <= t < |text| ==>
              && (ClassifyAll(text)[t].Plan? <==> IsShown(text[t]))
              && (ClassifyAll(text)[t].Condition? <==> !IsNode(text[t]))
              && (IsNode(text[t]) ==> ClassifyAll(text)[t].level == text[t].0)
  {
    forall t {:trigger text[t]} | 0 <= t < |text|
      ensures ClassifyAll(text)[t].Plan? <==> IsShown(text[t])
      ensures ClassifyAll(text)[t].Condition? <==> !IsNode(text[t])
      ensures IsNode(text[t]) ==> ClassifyAll(text)[t].level == text[t].0
    {
      ClassifiedAsMeant(text[t]);
    }
  }

  lemma OpenIsStillOpen(text: seq<TextLine>, f: Forest, j: nat, t: int)
    requires j < |f.level| && j < |f.line| && -1 <= f.line[j] && t < |text|
    ensures Open(ClassifyAll(text), f, j, t) <==> StillOpen(text, f, j, t)
  {
    AllClassified(text);
    var lines := ClassifyAll(text);
    if Open(lines, f, j, t) {
      forall k | f.line[j] < k <= t && IsNode(text[k]) ensures f.level[j] < text[k].0 { assert !lines[k].Condition?; }
    }
    if StillOpen(text, f, j, t) {
      forall k | f.line[j] < k <= t && !lines[k].Condition? ensures f.level[j] < lines[k].level {
        assert IsNode(text[k]);
      }
    }
  }

  /** What the reading loop is proved to build is what the text means. */
  lemma ReadingDepicts(text: seq<TextLine>)
    ensures Depicts(text, ForestOf(ClassifyAll(text)))
  {
    var lines := ClassifyAll(text);
    var f := ForestOf(lines);
    ReadingFindsParents(lines);
    AllClassified(text);
    assert InTextOrder(text, f) by {
      forall i | 0 < i < |f.up| ensures 0 <= f.line[i] < |text| && f.level[i] == text[f.line[i]].0 {
        assert lines[f.line[i]].Plan?;
        assert IsShown(text[f.line[i]]);
      }
    }
    forall t | 0 <= t < |text| ensures IsShown(text[t]) <==> t in f.line {
      if t in f.line {
        var i :| 0 <= i < |f.line| && f.line[i] == t;
        assert lines[f.line[i]].Plan?;
      }
    }
    forall i | 0 < i < |f.up| ensures HangsRight(text, f, i) {
      assert LatestOpen(lines, f, i, f.up[i]);
      OpenIsStillOpen(text, f, f.up[i], f.line[i]);
      forall j | f.up[i] < j < i ensures !StillOpen(text, f, j, f.line[i]) { OpenIsStillOpen(text, f, j, f.line[i]); }
    }
  }
}
