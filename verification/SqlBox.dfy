/** The SQL editor's buffer: find, replace all and block comments on the selection. */
module SqlBox {
  import opened Basics
  import opened SqlText

  function UpperChar(c: char): char
  {
    if 'a' <= c <= 'z' then c - 'a' + 'A' else c
  }

  predicate SameChar(a: char, b: char, matchCase: bool)
  {
    if matchCase then a == b else UpperChar(a) == UpperChar(b)
  }

  predicate SameText(a: string, b: string, matchCase: bool)
  {
    |a| == |b| && forall i :: 0 <= i < |a| ==> SameChar(a[i], b[i], matchCase)
  }

  /** The same texts, up to the case of ASCII letters if case does not matter. */
  lemma SameTextMeans(a: string, b: string, matchCase: bool)
    ensures SameText(a, b, matchCase) <==> if matchCase then a == b else SameLetters(a, b)
  {
    forall i | 0 <= i < |a| && |a| == |b| ensures UpperChar(a[i]) == UpperChar(b[i]) <==> SameLetter(a[i], b[i]) {
    }
  }

  predicate MatchAt(s: string, p: int, find: string, matchCase: bool)
  {
    0 <= p <= p + |find| <= |s| && SameText(s[p..p + |find|], find, matchCase)
  }

  /** Replaces all matches from left to right without overlap. */
  function Substituted(s: string, find: string, replace: string, matchCase: bool): string
    requires find != ""
    decreases |s|
  {
    if s == "" then ""
    else if MatchAt(s, 0, find, matchCase) then replace + Substituted(s[|find|..], find, replace, matchCase)
    else [s[0]] + Substituted(s[1..], find, replace, matchCase)
  }

  /** How many there are. */
  function MatchCount(s: string, find: string, matchCase: bool): nat
    requires find != ""
    decreases |s|
  {
    if s == "" then 0
    else if MatchAt(s, 0, find, matchCase) then 1 + MatchCount(s[|find|..], find, matchCase)
    else MatchCount(s[1..], find, matchCase)
  }

  /** With matching case this is the string class's own replacement. */
  lemma {:induction false} SubstitutedIsReplace(s: string, find: string, replace: string)
    requires find != ""
    ensures Substituted(s, find, replace, true) == Replace(s, find, replace)
    decreases |s|
  {
    if s != "" {
      assert MatchAt(s, 0, find, true) <==> find <= s by {
        if find <= s { assert s[0..|find|] == find; }
        if MatchAt(s, 0, find, true) { assert forall i :: 0 <= i < |find| ==> s[0..|find|][i] == find[i]; }
      }
      SubstitutedIsReplace(s[if find <= s then |find| else 1..], find, replace);
    }
  }

  ghost predicate NoMatchBefore(s: string, p: int, find: string, matchCase: bool)
  {
    forall i :: 0 <= i < p ==> !MatchAt(s, i, find, matchCase)
  }

  lemma MatchAtTail(s: string, k: nat, p: nat, find: string, matchCase: bool)
    requires k <= |s|
    ensures MatchAt(s[k..], p, find, matchCase) <==> MatchAt(s, k + p, find, matchCase)
  {
    if k + p + |find| <= |s| { assert s[k..][p..p + |find|] == s[k + p..k + p + |find|]; }
  }

  /** Text before the first match stays as it is. */
  lemma {:induction false} SkipToMatch(s: string, p: nat, find: string, replace: string, matchCase: bool)
    requires find != "" && p <= |s| && NoMatchBefore(s, p, find, matchCase)
    ensures Substituted(s, find, replace, matchCase) == s[..p] + Substituted(s[p..], find, replace, matchCase)
    ensures MatchCount(s, find, matchCase) == MatchCount(s[p..], find, matchCase)
    decreases p
  {
    if p == 0 {
      assert s[..p] + Substituted(s[p..], find, replace, matchCase) == Substituted(s, find, replace, matchCase);
    }
    else {
      assert !MatchAt(s, 0, find, matchCase);
      forall i | 0 <= i < p - 1 ensures !MatchAt(s[1..], i, find, matchCase) { MatchAtTail(s, 1, i, find, matchCase); }
      SkipToMatch(s[1..], p - 1, find, replace, matchCase);
      assert s[1..][p - 1..] == s[p..];
      assert [s[0]] + s[1..][..p - 1] == s[..p];
      Regroup([s[0]], s[1..][..p - 1], Substituted(s[p..], find, replace, matchCase));
    }
  }

  /** Splicing a text: what is kept in front, put in, and kept behind. */
  function Spliced(s: string, from: nat, upto: nat, replacement: string): string
    requires from <= upto <= |s|
  {
    s[..from] + replacement + s[upto..]
  }

  // ----- replacing all, step by step

  datatype Job = Job(original: string, find: string, replace: string, matchCase: bool)

  /** In front of `at` all is done; from there on the text is as it was; `count` matches were replaced. */
  ghost predicate Progress(j: Job, text: string, at: nat, count: nat)
    requires j.find != "" && at <= |text|
  {
    && Substituted(j.original, j.find, j.replace, j.matchCase) ==
       text[..at] + Substituted(text[at..], j.find, j.replace, j.matchCase)
    && MatchCount(j.original, j.find, j.matchCase) == count + MatchCount(text[at..], j.find, j.matchCase)
  }

  lemma StartOfJob(j: Job)
    requires j.find != ""
    ensures Progress(j, j.original, 0, 0)
  {
    assert j.original[0..] == j.original && j.original[..0] == "";
  }

  /** Passing over text without a match. */
  lemma Advance(j: Job, text: string, at: nat, p: nat, count: nat)
    requires j.find != "" && at <= p <= |text| && Progress(j, text, at, count)
    requires forall i :: at <= i < p ==> !MatchAt(text, i, j.find, j.matchCase)
    ensures Progress(j, text, p, count)
  {
    var tail := text[at..];
    forall i | 0 <= i < p - at ensures !MatchAt(tail, i, j.find, j.matchCase) {
      MatchAtTail(text, at, i, j.find, j.matchCase);
    }
    SkipToMatch(tail, p - at, j.find, j.replace, j.matchCase);
    assert tail[p - at..] == text[p..] && text[..at] + tail[..p - at] == text[..p];
    Regroup(text[..at], tail[..p - at], Substituted(text[p..], j.find, j.replace, j.matchCase));
  }

  /** Replacing the match at `at`; the search goes on behind the replacement. */
  lemma ReplaceOne(j: Job, text: string, at: nat, count: nat)
    requires j.find != "" && at <= |text| && Progress(j, text, at, count) && MatchAt(text, at, j.find, j.matchCase)
    ensures Progress(j, Spliced(text, at, at + |j.find|, j.replace), at + |j.replace|, count + 1)
  {
    var next, a := Spliced(text, at, at + |j.find|, j.replace), at + |j.replace|;
    var tail := text[at..];
    MatchAtTail(text, at, 0, j.find, j.matchCase);
    assert tail[|j.find|..] == text[at + |j.find|..] == next[a..];
    assert next[..a] == text[..at] + j.replace;
    Regroup(text[..at], j.replace, Substituted(next[a..], j.find, j.replace, j.matchCase));
  }

  /** Passing over text without a match and replacing the match after it leaves less to search. */
  lemma MatchReplaced(j: Job, text: string, from: nat, at: nat, count: nat)
    requires j.find != "" && from <= at <= |text| && Progress(j, text, from, count)
    requires MatchAt(text, at, j.find, j.matchCase)
    requires forall i :: from <= i < at ==> !MatchAt(text, i, j.find, j.matchCase)
    ensures var next := Spliced(text, at, at + |j.find|, j.replace);
            && at + |j.replace| <= |next| && |next| - (at + |j.replace|) < |text| - from
            && Progress(j, next, at + |j.replace|, count + 1)
  {
    Advance(j, text, from, at, count);
    ReplaceOne(j, text, at, count);
  }

  /** When no match is left, the text is the result and the count complete. */
  lemma EndOfJob(j: Job, text: string, at: nat, count: nat)
    requires j.find != "" && at <= |text| && Progress(j, text, at, count)
    requires forall i :: at <= i <= |text| ==> !MatchAt(text, i, j.find, j.matchCase)
    ensures text == Substituted(j.original, j.find, j.replace, j.matchCase)
    ensures count == MatchCount(j.original, j.find, j.matchCase)
  {
    Advance(j, text, at, |text|, count);
    assert text[|text|..] == "" && text[..|text|] + "" == text;
  }

  class Editor {
    var text: string
    var anchor: nat
    var caret: nat

    ghost predicate Valid() reads this { anchor <= |text| && caret <= |text| }

    function SelectionStart(): nat reads this { if anchor <= caret then anchor else caret }

    function SelectionEnd(): nat reads this { if anchor <= caret then caret else anchor }

    function Selected(): string
      reads this
      requires Valid()
    {
      text[SelectionStart()..SelectionEnd()]
    }

    constructor (text: string)
      ensures Valid() && this.text == text && anchor == caret == 0
    {
      this.text, anchor, caret := text, 0, 0;
    }

    method GotoPos(pos: nat)
      requires Valid()
      modifies this`anchor, this`caret
      ensures Valid() && anchor == caret == if pos <= |text| then pos else |text|
    {
      caret := if pos <= |text| then pos else |text|;
      anchor := caret;
    }

    method ReplaceSelection(replacement: string)
      requires Valid()
      modifies this
      ensures text == Spliced(old(text), old(SelectionStart()), old(SelectionEnd()), replacement)
      ensures Valid() && anchor == caret == old(SelectionStart()) + |replacement|
    {
      var start, end := SelectionStart(), SelectionEnd();
      text := text[..start] + replacement + text[end..];
      anchor, caret := start + |replacement|, start + |replacement|;
    }

    method SetSelection(from: nat, upto: nat)
      requires from <= |text| && upto <= |text|
      modifies this`anchor, this`caret
      ensures anchor == from && caret == upto
    {
      anchor, caret := from, upto;
    }

    /** The first match at or after `start`, or -1. */
    method FindText(start: nat, find: string, matchCase: bool) returns (p: int)
      requires start <= |text|
      ensures p == -1 || start <= p
      ensures p != -1 ==> MatchAt(text, p, find, matchCase)
      ensures forall i :: start <= i < (if p == -1 then |text| + 1 else p) ==> !MatchAt(text, i, find, matchCase)
    {
      p := start;
      while p + |find| <= |text|
        invariant start <= p
        invariant forall i :: start <= i < p ==> !MatchAt(text, i, find, matchCase)
      {
        if MatchAt(text, p, find, matchCase) { return; }
        p := p + 1;
      }
      p := -1;
    }

    /** A search from `from` selected the first match, or found none. */
    ghost predicate Searched(from: nat, find: string, matchCase: bool, found: bool)
      reads this
    {
      && from <= |text|
      && (found ==> from <= anchor && caret == anchor + |find| && MatchAt(text, anchor, find, matchCase)
                    && forall i :: from <= i < anchor ==> !MatchAt(text, i, find, matchCase))
      && (!found ==> forall i :: from <= i <= |text| ==> !MatchAt(text, i, find, matchCase))
    }

    /** Replaces the selection if it matches, then selects the next match after the caret. */
    method DoFind(find: string, replace: string, doReplace: bool, matchCase: bool) returns (found: bool)
      requires Valid() && find != ""
      modifies this
      ensures Valid()
      ensures var hit := doReplace && old(SameText(Selected(), find, matchCase));
              var from := if hit then old(SelectionStart()) + |replace| else old(caret);
              && text == (if hit then Spliced(old(text), old(SelectionStart()), old(SelectionEnd()), replace)
                          else old(text))
              && Searched(from, find, matchCase, found)
    {
      var startPos := SelectionStart();
      var current := Selected();
      if doReplace && SameText(current, find, matchCase) {
        ReplaceSelection(replace);
        SetSelection(startPos, startPos + |replace|);
      }
      var selStart := FindText(caret, find, matchCase);
      if selStart != -1 {
        SetSelection(selStart, selStart + |find|);
        return true;
      }
      return false;
    }

    /** One more DoFind: replaces the selected match and selects the next. */
    method ReplaceNext(job: Job, ghost from: nat, ghost count: nat) returns (ghost next: nat, found: bool)
      requires Valid() && job.find != "" && Searched(from, job.find, job.matchCase, true)
      requires Progress(job, text, from, count)
      modifies this
      ensures Valid() && Searched(next, job.find, job.matchCase, found) && Progress(job, text, next, count + 1)
      ensures |text| - next < old(|text|) - from
    {
      MatchReplaced(job, text, from, anchor, count);
      ghost var replaced := Spliced(text, anchor, caret, job.replace);
      next := anchor + |job.replace|;
      assert SameText(Selected(), job.find, job.matchCase);
      found := DoFind(job.find, job.replace, true, job.matchCase);
      assert text == replaced;
    }

    /** Repeats DoFind from the top until nothing more is found. */
    method ReplaceAll(find: string, replace: string, matchCase: bool) returns (count: nat)
      requires Valid() && find != ""
      modifies this
      ensures Valid()
      ensures text == Substituted(old(text), find, replace, matchCase)
      ensures count == MatchCount(old(text), find, matchCase)
      ensures anchor == caret == if old(caret) <= |text| then old(caret) else |text|
    {
      var job := Job(text, find, replace, matchCase);
      var initialPos := caret;
      count := 0;
      GotoPos(0);
      assert Selected() == "";
      StartOfJob(job);
      ghost var from: nat := 0;
      var found := DoFind(find, replace, true, matchCase);
      while found
        invariant Valid() && Searched(from, find, matchCase, found) && Progress(job, text, from, count)
        decreases |text| - from
      {
        from, found := ReplaceNext(job, from, count);
        count := count + 1;
      }
      EndOfJob(job, text, from, count);
      GotoPos(initialPos);
    }

    /** Comments or uncomments the selected text and leaves the new text selected. */
    method BlockComment(uncomment: bool, lineEnd: string)
      requires Valid() && IsLineEnd(lineEnd) && Selected() != ""
      modifies this
      ensures Valid()
      ensures var changed := if uncomment then Uncomment(old(Selected()), lineEnd)
                             else Comment(old(Selected()), lineEnd);
              && text == Spliced(old(text), old(SelectionStart()), old(SelectionEnd()), changed)
              && anchor == old(SelectionStart()) && Selected() == changed
    {
      var start := SelectionStart();
      var selection := Selected();
      if !uncomment {
        selection := Replace(selection, lineEnd, lineEnd + COMMENT);
        selection := COMMENT + selection;
        if EndsWith(selection, COMMENT) { selection := selection[..|selection| - |COMMENT|]; }
      } else {
        selection := Replace(selection, lineEnd + COMMENT, lineEnd);
        if COMMENT <= selection { selection := selection[|COMMENT|..]; }
      }
      ReplaceSelection(selection);
      SetSelection(start, start + |selection|);
      assert text[start..start + |selection|] == selection;
    }
  }

  /** Commenting a selection and uncommenting the result restores the whole buffer iff no mark was at its end. */
  lemma CommentUncommentRestores(s: string, from: nat, upto: nat, lineEnd: string)
    requires from < upto <= |s| && IsLineEnd(lineEnd)
    ensures var c := Comment(s[from..upto], lineEnd);
            Spliced(Spliced(s, from, upto, c), from, from + |c|, Uncomment(c, lineEnd)) == s
            <==> !EndsWith(s[from..upto], COMMENT)
  {
    var sel := s[from..upto];
    var c := Comment(sel, lineEnd);
    CommentRoundTrip(sel, lineEnd);
    SplicedTwice(s, from, upto, c, Uncomment(c, lineEnd));
  }

  /** Replacing the selection twice restores the buffer if and only if the second replacement is the selection. */
  lemma SplicedTwice(s: string, from: nat, upto: nat, c: string, u: string)
    requires from <= upto <= |s|
    ensures Spliced(Spliced(s, from, upto, c), from, from + |c|, u) == s <==> u == s[from..upto]
  {
    var sel, mid := s[from..upto], Spliced(s, from, upto, c);
    assert mid[..from] == s[..from] && mid[from + |c|..] == s[upto..];
    var end := s[..from] + u + s[upto..];
    assert s == s[..from] + sel + s[upto..];
    if end == s { assert |u| == |sel| && end[from..upto] == u; }
  }
}
