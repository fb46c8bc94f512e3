/** Vocabulary shared by the other modules. */
module Basics {

  datatype Option<+T> = None | Some(value: T)

  /** Lower case for ASCII letters; other characters stay. */
  function LowerChar(c: char): char
  {
    if 'A' <= c <= 'Z' then c + 'a' - 'A' else c
  }

  /** The two cases of one ASCII letter. */
  predicate CasePair(upper: char, lower: char)
  {
    'A' <= upper <= 'Z' && 'a' <= lower <= 'z' && upper as int - 'A' as int == lower as int - 'a' as int
  }

  /** The same character, or the same ASCII letter in either case. */
  predicate SameLetter(a: char, b: char)
  {
    a == b || CasePair(a, b) || CasePair(b, a)
  }

  /** Lower case identifies exactly the two cases of a letter, and changes capital letters only. */
  lemma LowerCharMeans(a: char, b: char)
    ensures LowerChar(a) == LowerChar(b) <==> SameLetter(a, b)
    ensures if 'A' <= a <= 'Z' then CasePair(a, LowerChar(a)) else LowerChar(a) == a
  {
  }

  function Lower(s: string): (r: string)
    ensures |r| == |s|
  {
    seq(|s|, i requires 0 <= i < |s| => LowerChar(s[i]))
  }

  /** The word is the text with its capital letters, and nothing else, changed to small ones. */
  predicate IsLowered(word: string, text: string)
  {
    |word| == |text|
    && forall i :: 0 <= i < |text| ==>
         if 'A' <= text[i] <= 'Z' then CasePair(text[i], word[i]) else word[i] == text[i]
  }

  lemma LowerMeans(word: string, text: string)
    ensures IsLowered(word, text) <==> word == Lower(text)
  {
  }

  /** The texts differ at most in the case of ASCII letters. */
  predicate SameLetters(a: string, b: string)
  {
    |a| == |b| && forall i :: 0 <= i < |a| ==> SameLetter(a[i], b[i])
  }

  lemma SameLettersMeans(a: string, b: string)
    ensures SameLetters(a, b) <==> Lower(a) == Lower(b)
  {
    if |a| == |b| {
      forall i | 0 <= i < |a| ensures LowerChar(a[i]) == LowerChar(b[i]) <==> SameLetter(a[i], b[i]) {
        LowerCharMeans(a[i], b[i]);
      }
      if Lower(a) == Lower(b) {
        forall i | 0 <= i < |a| ensures LowerChar(a[i]) == LowerChar(b[i]) { assert Lower(a)[i] == Lower(b)[i]; }
      }
    }
  }

  lemma Regroup<T>(a: seq<T>, b: seq<T>, c: seq<T>)
    ensures (a + b) + c == a + (b + c)
  {
  }

  /** Puts an element before a list that was read, if it could be read. */
  function WithFirst<T>(first: T, rest: Option<seq<T>>): Option<seq<T>>
  {
    if rest.Some? then Some([first] + rest.value) else None
  }

  lemma WithFirstSame<T>(first: T, read: Option<seq<T>>, rest: seq<T>)
    ensures WithFirst(first, read) == Some([first] + rest) <==> read == Some(rest)
  {
    if read.Some? { assert ([first] + read.value)[1..] == read.value && ([first] + rest)[1..] == rest; }
  }

  // ----- blanks at the ends of a string

  predicate IsSpace(c: char)
  {
    c == ' ' || ('\t' <= c <= '\r')
  }

  function TrimLeft(s: string): string
  {
    if s != "" && IsSpace(s[0]) then TrimLeft(s[1..]) else s
  }

  function TrimRight(s: string): string
  {
    if s != "" && IsSpace(s[|s| - 1]) then TrimRight(s[..|s| - 1]) else s
  }

  function Trim(s: string): string
  {
    TrimRight(TrimLeft(s))
  }

  predicate Trimmed(s: string)
  {
    s == "" || (!IsSpace(s[0]) && !IsSpace(s[|s| - 1]))
  }

  lemma {:induction false} TrimRightPrefix(s: string)
    ensures TrimRight(s) <= s && (TrimRight(s) != "" ==> !IsSpace(TrimRight(s)[|TrimRight(s)| - 1]))
  {
    if s != "" && IsSpace(s[|s| - 1]) { TrimRightPrefix(s[..|s| - 1]); }
  }

  lemma {:induction false} TrimLeftSuffix(s: string)
    ensures |TrimLeft(s)| <= |s| && TrimLeft(s) == s[|s| - |TrimLeft(s)|..]
    ensures TrimLeft(s) != "" ==> !IsSpace(TrimLeft(s)[0])
  {
    if s != "" && IsSpace(s[0]) { TrimLeftSuffix(s[1..]); }
  }

  ghost predicate Blank(s: string)
  {
    forall i :: 0 <= i < |s| ==> IsSpace(s[i])
  }

  lemma {:induction false} TrimLeftOfBlank(l: string, t: string)
    requires Blank(l) && (t == "" || !IsSpace(t[0]))
    ensures TrimLeft(l + t) == t
  {
    if l == "" { assert l + t == t; }
    else {
      assert (l + t)[1..] == l[1..] + t;
      TrimLeftOfBlank(l[1..], t);
    }
  }

  lemma {:induction false} TrimRightOfBlank(t: string, r: string)
    requires Blank(r) && (t == "" || !IsSpace(t[|t| - 1]))
    ensures TrimRight(t + r) == t
    decreases |r|
  {
    if r == "" { assert t + r == t; }
    else {
      assert (t + r)[..|t + r| - 1] == t + r[..|r| - 1];
      TrimRightOfBlank(t, r[..|r| - 1]);
    }
  }

  /** Trimming removes exactly the blanks at both ends. */
  lemma TrimOfPadded(l: string, v: string, r: string)
    requires Blank(l) && Blank(r) && Trimmed(v)
    ensures Trim(l + v + r) == v
  {
    if v == "" {
      assert l + v + r == l + r && Blank(l + r) && (l + r) + "" == l + r;
      TrimLeftOfBlank(l + r, "");
    } else {
      assert l + v + r == l + (v + r);
      TrimLeftOfBlank(l, v + r);
      TrimRightOfBlank(v, r);
    }
  }

  lemma {:induction false} BlankBefore(s: string) returns (l: string)
    ensures Blank(l) && s == l + TrimLeft(s)
  {
    l := "";
    if s != "" && IsSpace(s[0]) {
      var t := BlankBefore(s[1..]);
      l := [s[0]] + t;
    }
  }

  lemma {:induction false} BlankAfter(s: string) returns (r: string)
    ensures Blank(r) && s == TrimRight(s) + r
    decreases |s|
  {
    r := "";
    if s != "" && IsSpace(s[|s| - 1]) {
      var t := BlankAfter(s[..|s| - 1]);
      r := t + [s[|s| - 1]];
    }
  }

  lemma TrimmedStays(s: string)
    requires Trimmed(s)
    ensures Trim(s) == s
  {
  }

  lemma TrimTrims(s: string, c: char)
    ensures Trimmed(Trim(s))
    ensures c !in s ==> c !in Trim(s)
  {
    TrimLeftSuffix(s);
    TrimRightPrefix(TrimLeft(s));
  }
}
