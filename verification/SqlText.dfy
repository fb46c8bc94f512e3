/** String replacement as the string class does it, and the text edits built on it. */
module SqlText {
  import opened Basics

  /** Replaces every match from left to right; the search goes on after the match. */
  function Replace(s: string, find: string, replacement: string): string
    requires find != ""
  {
    if s == "" then ""
    else if find <= s then replacement + Replace(s[|find|..], find, replacement)
    else [s[0]] + Replace(s[1..], find, replacement)
  }

  predicate EndsWith(s: string, t: string)
  {
    |t| <= |s| && s[|s| - |t|..] == t
  }

  // ----- string literals

  /** One character of a literal's body. */
  function EncodeChar(c: char): string
  {
    if c == '\\' then "\\\\" else if c == '\'' then "''" else [c]
  }

  function Encode(s: string): string
  {
    if s == "" then "" else EncodeChar(s[0]) + Encode(s[1..])
  }

  lemma {:induction false} ReplaceCharConcat(a: string, b: string, c: char, r: string)
    ensures Replace(a + b, [c], r) == Replace(a, [c], r) + Replace(b, [c], r)
    decreases |a|
  {
    if a == "" { assert a + b == b; }
    else {
      assert (a + b)[1..] == a[1..] + b;
      ReplaceCharConcat(a[1..], b, c, r);
      assert [c] <= a + b <==> [c] <= a;
    }
  }

  lemma ReplaceOtherChar(c: char, find: char, r: string)
    ensures Replace([c], [find], r) == if c == find then r else [c]
  {
    assert [c][1..] == "" && Replace("", [find], r) == "";
    assert [find][0] == find && [c][0] == c;
  }

  lemma EncodeOneChar(c: char)
    ensures Replace(Replace([c], "\\", "\\\\"), "'", "''") == EncodeChar(c)
  {
    ReplaceOtherChar(c, '\\', "\\\\");
    ReplaceOtherChar(c, '\'', "''");
    assert "\\\\"[1..] == "\\" && "\\"[1..] == "";
    assert Replace("\\", "'", "''") == "\\";
    assert Replace("\\\\", "'", "''") == "\\\\";
  }

  /** Doubling backslashes and then quotes is the same as encoding character by character. */
  lemma {:induction false} ReplacementsEncode(s: string)
    ensures Replace(Replace(s, "\\", "\\\\"), "'", "''") == Encode(s)
    decreases |s|
  {
    if s != "" {
      var h, t := [s[0]], s[1..];
      assert s == h + t;
      ReplaceCharConcat(h, t, '\\', "\\\\");
      ReplaceCharConcat(Replace(h, "\\", "\\\\"), Replace(t, "\\", "\\\\"), '\'', "''");
      EncodeOneChar(s[0]);
      ReplacementsEncode(t);
    }
  }

  lemma {:induction false} EncodedBackslash(s: string)
    ensures '\\' in Encode(s) <==> '\\' in s
    decreases |s|
  {
    if s != "" {
      EncodedBackslash(s[1..]);
      assert '\\' in EncodeChar(s[0]) <==> s[0] == '\\';
      assert '\\' in s <==> s[0] == '\\' || '\\' in s[1..];
    }
  }

  /** The character after a backslash; octal, hexadecimal and Unicode escapes are not decoded here. */
  function Escape(c: char): Option<char>
  {
    if c == 'b' then Some('\U{0008}')
    else if c == 'f' then Some('\U{000c}')
    else if c == 'n' then Some('\n')
    else if c == 'r' then Some('\r')
    else if c == 't' then Some('\t')
    else if '0' <= c <= '7' || c == 'x' || c == 'u' || c == 'U' then None
    else Some(c)
  }

  function Prepend(c: char, r: Option<(string, string)>): Option<(string, string)>
  {
    if r.Some? then Some(([c] + r.value.0, r.value.1)) else None
  }

  /**
   * Reads the body of a literal or a delimited identifier up to its closing quote q (sections
   * 4.1.1, 4.1.2.1 and 4.1.2.2 of the PostgreSQL manual): the value and the text after the quote.
   */
  function DecodeBody(s: string, q: char, escapes: bool): Option<(string, string)>
    decreases |s|
  {
    if s == "" then None
    else if s[0] == q then
      (if |s| > 1 && s[1] == q then Prepend(q, DecodeBody(s[2..], q, escapes)) else Some(("", s[1..])))
    else if escapes && s[0] == '\\' then
      (if |s| > 1 && Escape(s[1]).Some? then Prepend(Escape(s[1]).value, DecodeBody(s[2..], q, escapes)) else None)
    else Prepend(s[0], DecodeBody(s[1..], q, escapes))
  }

  predicate StartsWithQuote(s: string)
  {
    s != "" && s[0] == '\''
  }

  /** Reads a literal; in plain ones the server takes backslashes as escapes or not. */
  function DecodeLiteral(s: string, plainEscapes: bool): Option<(string, string)>
  {
    if |s| >= 2 && s[0] == 'E' && s[1] == '\'' then DecodeBody(s[2..], '\'', true)
    else if |s| >= 1 && s[0] == '\'' then DecodeBody(s[1..], '\'', plainEscapes)
    else None
  }

  lemma CharDecodes(c: char, tail: string, escapes: bool)
    requires escapes || c != '\\'
    ensures DecodeBody(EncodeChar(c) + tail, '\'', escapes) == Prepend(c, DecodeBody(tail, '\'', escapes))
  {
    var e := EncodeChar(c);
    assert (e + tail)[|e|..] == tail && (e + tail)[0] == e[0];
  }

  lemma EndDecodes(rest: string, escapes: bool)
    requires !StartsWithQuote(rest)
    ensures DecodeBody("'" + rest, '\'', escapes) == Some(("", rest))
  {
    var s := "'" + rest;
    assert s[0] == '\'' && s[1..] == rest && (|s| > 1 ==> s[1] == rest[0]);
  }

  /** An encoded body, its closing quote and whatever follows decode to the value and the rest. */
  lemma {:induction false} EncodedDecodes(v: string, rest: string, escapes: bool)
    requires !StartsWithQuote(rest) && (escapes || '\\' !in v)
    ensures DecodeBody(Encode(v) + ("'" + rest), '\'', escapes) == Some((v, rest))
    decreases |v|
  {
    var end := "'" + rest;
    if v == "" {
      EndDecodes(rest, escapes);
      assert "" + end == end;
    } else {
      var c, t := v[0], v[1..];
      EncodedDecodes(t, rest, escapes);
      Regroup(EncodeChar(c), Encode(t), end);
      CharDecodes(c, Encode(t) + end, escapes);
      assert v == [c] + t;
    }
  }

  lemma LiteralDecodes(v: string, rest: string, withE: bool, plainEscapes: bool)
    requires !StartsWithQuote(rest) && (withE || plainEscapes || '\\' !in v)
    ensures DecodeLiteral((if withE then "E'" else "'") + (Encode(v) + "'") + rest, plainEscapes) == Some((v, rest))
  {
    var open := if withE then "E'" else "'";
    var body := Encode(v) + ("'" + rest);
    Regroup(open, Encode(v) + "'", rest);
    Regroup(Encode(v), "'", rest);
    OpenDecodes(body, withE, plainEscapes);
    EncodedDecodes(v, rest, withE || plainEscapes);
  }

  lemma OpenDecodes(body: string, withE: bool, plainEscapes: bool)
    ensures DecodeLiteral((if withE then "E'" else "'") + body, plainEscapes) ==
            DecodeBody(body, '\'', withE || plainEscapes)
  {
    var open := if withE then "E'" else "'";
    var all := open + body;
    assert all[|open|..] == body && all[0] == open[0] && (withE ==> all[1] == open[1]);
  }

  /** Quotes a value as a literal, for servers from 8.1 on with an E in front if needed. */
  method QtDbString(value: string, backend81: bool) returns (result: string)
    ensures forall rest: string, plainEscapes: bool ::
              !StartsWithQuote(rest) && (backend81 || plainEscapes) ==>
              DecodeLiteral(result + rest, plainEscapes) == Some((value, rest))
    ensures !backend81 ==> StartsWithQuote(result)
  {
    result := value;
    result := Replace(result, "\\", "\\\\");
    result := Replace(result, "'", "''");
    ReplacementsEncode(value);
    EncodedBackslash(value);
    result := result + "'";
    var withE := backend81 && '\\' in result;
    result := (if withE then "E'" else "'") + result;
    forall rest: string, plainEscapes: bool | !StartsWithQuote(rest) && (backend81 || plainEscapes)
      ensures DecodeLiteral(result + rest, plainEscapes) == Some((value, rest))
    {
      LiteralDecodes(value, rest, withE, plainEscapes);
    }
  }

  // ----- text put between quotes as it is

  /** How many q the text starts with. */
  ghost function Lead(s: string, q: char): nat
  {
    if s != "" && s[0] == q then 1 + Lead(s[1..], q) else 0
  }

  lemma {:induction false} LeadConcat(a: string, b: string, q: char)
    ensures Lead(a, q) <= |a|
    ensures Lead(a + b, q) == if Lead(a, q) == |a| then |a| + Lead(b, q) else Lead(a, q)
    decreases |a|
  {
    if a == "" { assert a + b == b; }
    else {
      assert (a + b)[1..] == a[1..] + b;
      LeadConcat(a[1..], b, q);
    }
  }

  /** Each quote at the start of a value takes two in the text, and one more closes it. */
  lemma {:induction false} DecodedLead(s: string, q: char)
    requires DecodeBody(s, q, false).Some?
    ensures var v := DecodeBody(s, q, false).value.0;
            Lead(s, q) >= 2 * Lead(v, q) + (if Lead(v, q) == |v| then 1 else 0)
    decreases |s|
  {
    if s[0] == q && |s| > 1 && s[1] == q {
      DecodedLead(s[2..], q);
      assert Lead(s, q) == 2 + Lead(s[2..], q) by { assert s[1..][1..] == s[2..]; }
      var w := DecodeBody(s[2..], q, false).value.0;
      LeadConcat([q], w, q);
      assert Lead([q], q) == 1;
    }
  }

  lemma RawStep(v: string, q: char, rest: string)
    requires v != "" && v[0] != q
    ensures DecodeBody(v + [q] + rest, q, false) == Prepend(v[0], DecodeBody(v[1..] + [q] + rest, q, false))
  {
    assert (v + [q] + rest)[1..] == v[1..] + [q] + rest;
  }

  lemma RawStartingWithQuote(v: string, q: char, rest: string, r: string)
    requires v != "" && v[0] == q && Lead(rest, q) == 0
    ensures DecodeBody(v + [q] + rest, q, false) != Some((v, r))
  {
    var s := v + [q] + rest;
    LeadConcat(v, [q] + rest, q);
    LeadConcat([q], rest, q);
    Regroup(v, [q], rest);
    assert Lead([q], q) == 1;
    if DecodeBody(s, q, false) == Some((v, r)) { DecodedLead(s, q); }
  }

  /** A text put between quotes as it is reads back as itself if and only if it holds no quote. */
  lemma {:induction false} RawReadsBack(v: string, q: char, rest: string)
    requires Lead(rest, q) == 0
    ensures q !in v ==> DecodeBody(v + [q] + rest, q, false) == Some((v, rest))
    ensures q in v ==> forall r :: DecodeBody(v + [q] + rest, q, false) != Some((v, r))
    decreases |v|
  {
    if v == "" { assert v + [q] + rest == [q] + rest; }
    else if v[0] != q {
      RawReadsBack(v[1..], q, rest);
      RawStep(v, q, rest);
      assert v == [v[0]] + v[1..];
    } else {
      forall r ensures DecodeBody(v + [q] + rest, q, false) != Some((v, r)) { RawStartingWithQuote(v, q, rest, r); }
    }
  }

  // ----- block comments

  const COMMENT := "-- "

  predicate IsLineEnd(e: string)
  {
    e == "\n" || e == "\r\n" || e == "\r"
  }

  function Comment(selection: string, lineEnd: string): string
    requires IsLineEnd(lineEnd)
  {
    var s := COMMENT + Replace(selection, lineEnd, lineEnd + COMMENT);
    if EndsWith(s, COMMENT) then s[..|s| - |COMMENT|] else s
  }

  function Uncomment(selection: string, lineEnd: string): string
    requires IsLineEnd(lineEnd)
  {
    var s := Replace(selection, lineEnd + COMMENT, lineEnd);
    if COMMENT <= s then s[|COMMENT|..] else s
  }

  /** No line end lies across the seam. */
  predicate Seamless(a: string, b: string)
  {
    !(EndsWith(a, "\r") && "\n" <= b)
  }

  lemma ReplaceAtMatch(find: string, y: string, r: string)
    requires find != ""
    ensures Replace(find + y, find, r) == r + Replace(y, find, r)
  {
    assert (find + y)[|find|..] == y;
  }

  lemma ReplaceAtOther(c: char, y: string, find: string, r: string)
    requires find != "" && !(find <= [c] + y)
    ensures Replace([c] + y, find, r) == [c] + Replace(y, find, r)
  {
    assert ([c] + y)[1..] == y;
  }

  lemma SameHeadMatch(a: string, b: string, e: string)
    requires IsLineEnd(e) && a != "" && (e == "\r\n" ==> Seamless(a, b))
    ensures e <= a + b <==> e <= a
  {
    var s := a + b;
    if |a| >= |e| { assert s[..|e|] == a[..|e|]; }
    else { assert |a| == 1 && s[0] == a[0] && (|s| > 1 ==> s[1] == b[0]); }
  }

  lemma SeamStays(a: string, b: string, k: nat)
    requires Seamless(a, b) && k <= |a|
    ensures Seamless(a[k..], b)
  {
    if EndsWith(a[k..], "\r") { assert a[k..][|a| - k - 1] == a[|a| - 1]; }
  }

  /** Marking line ends treats two pieces separately unless one lies across the seam. */
  lemma {:induction false} MarkConcat(a: string, b: string, e: string)
    requires IsLineEnd(e) && (e == "\r\n" ==> Seamless(a, b))
    ensures Replace(a + b, e, e + COMMENT) == Replace(a, e, e + COMMENT) + Replace(b, e, e + COMMENT)
    decreases |a|
  {
    if a == "" { assert a + b == b; return; }
    SameHeadMatch(a, b, e);
    var k := if e <= a then |e| else 1;
    var t := a[k..];
    if e == "\r\n" { SeamStays(a, b, k); }
    MarkConcat(t, b, e);
    var x, y := Replace(t, e, e + COMMENT), Replace(b, e, e + COMMENT);
    if e <= a {
      assert a == e + t;
      Regroup(e, t, b);
      ReplaceAtMatch(e, t + b, e + COMMENT);
      Regroup(e + COMMENT, x, y);
    } else {
      assert a == [a[0]] + t;
      Regroup([a[0]], t, b);
      ReplaceAtOther(a[0], t + b, e, e + COMMENT);
      Regroup([a[0]], x, y);
    }
  }

  lemma MarkKeepsFirst(s: string, e: string)
    requires IsLineEnd(e) && s != ""
    ensures Replace(s, e, e + COMMENT) != "" && Replace(s, e, e + COMMENT)[0] == s[0]
  {
  }

  /** Unmarking what marking gave, with an unmarked line end after it or not, gives the text back. */
  lemma {:induction false} UnmarkMarked(s: string, e: string, last: string)
    requires IsLineEnd(e) && (last == "" || last == e)
    ensures Replace(Replace(s, e, e + COMMENT) + last, e + COMMENT, e) == s + last
    decreases |s|
  {
    var m := Replace(s, e, e + COMMENT) + last;
    if s == "" {
      assert m == last;
      LineEndAlone(e);
    } else {
      var t := s[if e <= s then |e| else 1..];
      var rest := Replace(t, e, e + COMMENT) + last;
      UnmarkMarked(t, e, last);
      if e <= s {
        assert s == e + t;
        Regroup(e + COMMENT, Replace(t, e, e + COMMENT), last);
        ReplaceAtMatch(e + COMMENT, rest, e);
        Regroup(e, t, last);
      } else {
        assert s == [s[0]] + t;
        Regroup([s[0]], Replace(t, e, e + COMMENT), last);
        NoMarkAtOther(s, e, last);
        ReplaceAtOther(s[0], rest, e + COMMENT, e);
        Regroup([s[0]], t, last);
      }
    }
  }

  lemma LineEndAlone(e: string)
    requires IsLineEnd(e)
    ensures Replace(e, e + COMMENT, e) == e && Replace("", e + COMMENT, e) == ""
  {
    assert |e| == 1 ==> e[1..] == "";
    assert |e| == 2 ==> e[1..][1..] == "" && e == [e[0]] + [e[1]];
    assert |e| == 2 ==> Replace(e[1..], e + COMMENT, e) == [e[1]];
  }

  lemma NoMarkAtOther(s: string, e: string, last: string)
    requires IsLineEnd(e) && s != "" && !(e <= s) && (last == "" || last == e)
    ensures !(e + COMMENT <= [s[0]] + (Replace(s[1..], e, e + COMMENT) + last))
  {
    var r := Replace(s[1..], e, e + COMMENT);
    var m := [s[0]] + (r + last);
    assert m[0] == s[0] && (e + COMMENT)[0] == e[0] && (|e| == 2 ==> (e + COMMENT)[1] == e[1]);
    assert |s| >= |e| ==> s[..|e|] != e;
    if |s| > 1 {
      MarkKeepsFirst(s[1..], e);
      assert m[1] == s[1];
    } else {
      assert |m| == 1 + |last|;
    }
  }

  /** Unmarking passes over a comment mark that no line end precedes. */
  lemma UnmarkAfterComment(y: string, e: string)
    requires IsLineEnd(e)
    ensures Replace(COMMENT + y, e + COMMENT, e) == COMMENT + Replace(y, e + COMMENT, e)
  {
    var u := Replace(y, e + COMMENT, e);
    assert (e + COMMENT)[0] == e[0];
    assert COMMENT + y == ['-'] + (['-'] + ([' '] + y));
    assert ([' '] + y)[0] == ' ' && (['-'] + ([' '] + y))[0] == '-' && (['-'] + (['-'] + ([' '] + y)))[0] == '-';
    ReplaceAtOther(' ', y, e + COMMENT, e);
    ReplaceAtOther('-', [' '] + y, e + COMMENT, e);
    ReplaceAtOther('-', ['-'] + ([' '] + y), e + COMMENT, e);
    assert ['-'] + (['-'] + ([' '] + u)) == COMMENT + u;
  }

  lemma UncommentStrips(y: string, e: string, s: string)
    requires IsLineEnd(e) && Replace(y, e + COMMENT, e) == s
    ensures Uncomment(COMMENT + y, e) == s
  {
    UnmarkAfterComment(y, e);
    assert (COMMENT + s)[|COMMENT|..] == s;
  }

  lemma EndsInCrLf(t: string, c: string)
    requires |c| == 1 && !Seamless(t, c)
    ensures EndsWith(t + c, "\r\n")
  {
    assert (t + c)[|t| - 1..] == "\r\n";
  }

  lemma EndsInWhole(t: string, c: string, e: string)
    requires |c| == 1 && e != "" && e <= c
    ensures EndsWith(t + c, e)
  {
    assert e == c && (t + c)[|t|..] == c;
  }

  lemma MarkOne(c: char, e: string)
    requires IsLineEnd(e) && !(e <= [c])
    ensures Replace([c], e, e + COMMENT) == [c]
  {
    assert [c] + "" == [c] && Replace("", e, e + COMMENT) == "";
    ReplaceAtOther(c, "", e, e + COMMENT);
  }

  lemma MarkSnoc(t: string, c: char, e: string)
    requires IsLineEnd(e) && !EndsWith(t + [c], e)
    ensures Replace(t + [c], e, e + COMMENT) == Replace(t, e, e + COMMENT) + [c]
  {
    if !Seamless(t, [c]) { EndsInCrLf(t, [c]); }
    if e <= [c] { EndsInWhole(t, [c], e); }
    MarkConcat(t, [c], e);
    MarkOne(c, e);
  }

  /** Without a line end at the end, marking leaves the last character in place. */
  lemma MarkKeepsLast(s: string, e: string)
    requires IsLineEnd(e) && s != "" && !EndsWith(s, e)
    ensures Replace(s, e, e + COMMENT) == Replace(s[..|s| - 1], e, e + COMMENT) + [s[|s| - 1]]
  {
    assert s == s[..|s| - 1] + [s[|s| - 1]];
    MarkSnoc(s[..|s| - 1], s[|s| - 1], e);
  }

  lemma MarkAtEnd(x: string, e: string)
    requires IsLineEnd(e)
    ensures Replace(x + e, e, e + COMMENT) == (Replace(x, e, e + COMMENT) + e) + COMMENT
  {
    assert !("\n" <= e) || e == "\n" by { if "\n" <= e { assert e[0] == '\n'; } }
    MarkConcat(x, e, e);
    assert e + "" == e && Replace("", e, e + COMMENT) == "";
    ReplaceAtMatch(e, "", e + COMMENT);
    assert (e + COMMENT) + "" == e + COMMENT;
    Regroup(Replace(x, e, e + COMMENT), e, COMMENT);
  }

  lemma MarkBeforeComment(z: string, e: string)
    requires IsLineEnd(e)
    ensures Replace(z + COMMENT, e, e + COMMENT) == Replace(z, e, e + COMMENT) + COMMENT
  {
    assert COMMENT[0] == '-';
    MarkConcat(z, COMMENT, e);
    assert COMMENT == ['-'] + "- " && "- " == ['-'] + " " && " " == [' '] + "";
    assert "- "[0] == '-' && " "[0] == ' ';
    ReplaceAtOther(' ', "", e, e + COMMENT);
    ReplaceAtOther('-', " ", e, e + COMMENT);
    ReplaceAtOther('-', "- ", e, e + COMMENT);
  }

  /** The last character of marked text is that of the text, or the blank of a mark. */
  lemma MarkedLastChar(s: string, e: string)
    requires IsLineEnd(e) && s != ""
    ensures var m := Replace(s, e, e + COMMENT);
            m != "" && (m[|m| - 1] == ' ' || (!EndsWith(s, e) && m[|m| - 1] == s[|s| - 1]))
  {
    if EndsWith(s, e) {
      assert s == s[..|s| - |e|] + e;
      MarkAtEnd(s[..|s| - |e|], e);
    } else {
      MarkKeepsLast(s, e);
    }
  }

  predicate LastIs(s: string, c: char)
  {
    s != "" && s[|s| - 1] == c
  }

  lemma LastAfterComment(m: string)
    requires LastIs(COMMENT + m, '-')
    ensures LastIs(m, '-')
  {
    var s := COMMENT + m;
    assert m == "" ==> s == COMMENT;
    assert m != "" ==> s[|s| - 1] == m[|m| - 1];
  }

  /** A dash at the end of marked text was at the end of the text. */
  lemma MarkedLastDash(t: string, e: string)
    requires IsLineEnd(e) && t != "" && LastIs(Replace(t, e, e + COMMENT), '-')
    ensures LastIs(t, '-') && Replace(t, e, e + COMMENT) == Replace(t[..|t| - 1], e, e + COMMENT) + ['-']
  {
    MarkedLastChar(t, e);
    MarkKeepsLast(t, e);
  }

  lemma EndingInComment(a: string, c: char)
    requires EndsWith(a + [c], COMMENT)
    ensures c == ' ' && LastIs(a, '-') && LastIs(a[..|a| - 1], '-')
  {
    var s := a + [c];
    var k := |s| - 3;
    assert s[k..][0] == s[k] && s[k..][1] == s[k + 1] && s[k..][2] == s[k + 2];
  }

  lemma WithoutLast(a: string, b: string, c: char)
    ensures LastIs(a + (b + [c]), c) && (a + (b + [c]))[..|a + (b + [c])| - 1] == a + b
  {
  }

  lemma ThreeLast(s: string)
    requires |s| >= 3 && LastIs(s, ' ') && LastIs(s[..|s| - 1], '-') && LastIs(s[..|s| - 1][..|s| - 2], '-')
    ensures EndsWith(s, COMMENT)
  {
    assert s[|s| - 3..] == ['-', '-', ' '];
  }

  lemma OneDash(t: string, e: string)
    requires IsLineEnd(e) && LastIs(COMMENT + Replace(t, e, e + COMMENT), '-')
    ensures LastIs(t, '-')
  {
    LastAfterComment(Replace(t, e, e + COMMENT));
    MarkedLastDash(t, e);
  }

  lemma TwoDashes(t: string, e: string)
    requires IsLineEnd(e)
    requires var a := COMMENT + Replace(t, e, e + COMMENT); LastIs(a, '-') && LastIs(a[..|a| - 1], '-')
    ensures LastIs(t, '-') && LastIs(t[..|t| - 1], '-')
  {
    LastAfterComment(Replace(t, e, e + COMMENT));
    MarkedLastDash(t, e);
    var u := t[..|t| - 1];
    WithoutLast(COMMENT, Replace(u, e, e + COMMENT), '-');
    OneDash(u, e);
  }

  /** Marked text ends in a mark only if the text ended in a line end or in a mark itself. */
  lemma MarkedEndsInComment(s: string, e: string)
    requires IsLineEnd(e) && s != "" && !EndsWith(s, e) && EndsWith(COMMENT + Replace(s, e, e + COMMENT), COMMENT)
    ensures EndsWith(s, COMMENT)
  {
    var t, c := s[..|s| - 1], s[|s| - 1];
    var mt := Replace(t, e, e + COMMENT);
    MarkKeepsLast(s, e);
    Regroup(COMMENT, mt, [c]);
    EndingInComment(COMMENT + mt, c);
    TwoDashes(t, e);
    ThreeLast(s);
  }

  lemma LastOfEnd(s: string, t: string)
    requires t != ""
    ensures EndsWith(s, t) ==> LastIs(s, t[|t| - 1])
  {
    if EndsWith(s, t) { assert s[|s| - |t|..][|t| - 1] == s[|s| - 1]; }
  }

  lemma CommentAtLineEnd(x: string, e: string)
    requires IsLineEnd(e)
    ensures Uncomment(Comment(x + e, e), e) == x + e && !EndsWith(x + e, COMMENT)
  {
    var mx := Replace(x, e, e + COMMENT);
    MarkAtEnd(x, e);
    Regroup(COMMENT, mx + e, COMMENT);
    assert (COMMENT + (mx + e) + COMMENT)[..|COMMENT + (mx + e)|] == COMMENT + (mx + e);
    UnmarkMarked(x, e, e);
    UncommentStrips(mx + e, e, x + e);
    LastOfEnd(x + e, COMMENT);
    assert LastIs(x + e, e[|e| - 1]);
  }

  lemma CommentAtMark(z: string, e: string)
    requires IsLineEnd(e)
    ensures Uncomment(Comment(z + COMMENT, e), e) == z
  {
    var mz := Replace(z, e, e + COMMENT);
    MarkBeforeComment(z, e);
    Regroup(COMMENT, mz, COMMENT);
    assert (COMMENT + mz + COMMENT)[..|COMMENT + mz|] == COMMENT + mz;
    UnmarkMarked(z, e, "");
    assert mz + "" == mz && z + "" == z;
    UncommentStrips(mz, e, z);
  }

  lemma CommentElsewhere(s: string, e: string)
    requires IsLineEnd(e) && s != "" && !EndsWith(s, e) && !EndsWith(s, COMMENT)
    ensures Uncomment(Comment(s, e), e) == s
  {
    var m := Replace(s, e, e + COMMENT);
    if EndsWith(COMMENT + m, COMMENT) { MarkedEndsInComment(s, e); }
    UnmarkMarked(s, e, "");
    assert m + "" == m && s + "" == s;
    UncommentStrips(m, e, s);
  }

  /**
   * For every line-end mode and every non-empty selection, commenting and then uncommenting gives
   * the selection back, except that a comment mark at its very end is lost.
   */
  lemma CommentRoundTrip(selection: string, e: string)
    requires IsLineEnd(e) && selection != ""
    ensures Uncomment(Comment(selection, e), e) ==
            if EndsWith(selection, COMMENT) then selection[..|selection| - |COMMENT|] else selection
    ensures Uncomment(Comment(selection, e), e) == selection <==> !EndsWith(selection, COMMENT)
  {
    if EndsWith(selection, e) {
      var x := selection[..|selection| - |e|];
      assert selection == x + e;
      CommentAtLineEnd(x, e);
    } else if EndsWith(selection, COMMENT) {
      var z := selection[..|selection| - |COMMENT|];
      assert selection == z + COMMENT;
      CommentAtMark(z, e);
    } else {
      CommentElsewhere(selection, e);
    }
  }
}
