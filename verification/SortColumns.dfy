/**
 * The sort order of the data editor: a list of columns and directions, printed as an ORDER BY list
 * and parsed back character by character.
 */
module SortColumns {
  import Basics
  import Keywords
  import SqlText

  const QUOTE := '"'

  datatype SortColumn = SortColumn(name: string, descending: bool)

  // ----- quoting identifiers

  predicate IsDigit(c: char) { '0' <= c <= '9' }

  /** An optional sign and digits. */
  predicate IsNumber(s: string)
  {
    s != "" && (s[0] == '-' || s[0] == '+' || IsDigit(s[0])) && forall i :: 1 <= i < |s| ==> IsDigit(s[i])
  }

  predicate PlainAt(s: string, i: nat)
    requires i < |s|
  {
    (i > 0 && IsDigit(s[i])) || 'a' <= s[i] <= 'z' || s[i] == '_'
  }

  predicate NeedsQuoting(main: seq<Keywords.Keyword>, value: string)
  {
    if IsNumber(value) then true
    else if exists i :: 0 <= i < |value| && !PlainAt(value, i) then true
    else
      var sk := Keywords.Lookup(main, value);
      sk.Some? && sk.value.category != Keywords.Unreserved
  }

  function QtIdent(main: seq<Keywords.Keyword>, value: string): string
  {
    if value == "" then value
    else if NeedsQuoting(main, value) then [QUOTE] + SqlText.Replace(value, [QUOTE], [QUOTE, QUOTE]) + [QUOTE]
    else value
  }

  // ----- printing

  function PrintColumn(main: seq<Keywords.Keyword>, c: SortColumn): string
  {
    QtIdent(main, c.name) + (if c.descending then " DESC" else " ASC")
  }

  function PrintAll(main: seq<Keywords.Keyword>, cols: seq<SortColumn>): string
  {
    if cols == [] then "" else PrintAll(main, cols[..|cols| - 1]) + (PrintColumn(main, cols[|cols| - 1]) + ", ")
  }

  function Print(main: seq<Keywords.Keyword>, cols: seq<SortColumn>): string
  {
    var s := PrintAll(main, cols);
    if |s| > 2 then s[..|s| - 2] else s
  }

  method PrintSortColumns(main: seq<Keywords.Keyword>, cols: seq<SortColumn>) returns (sortCols: string)
    ensures sortCols == Print(main, cols)
  {
    sortCols := "";
    for x := 0 to |cols|
      invariant sortCols == PrintAll(main, cols[..x])
    {
      assert cols[..x + 1][..x] == cols[..x];
      var ident := QtIdent(main, cols[x].name);
      var direction := if cols[x].descending then " DESC" else " ASC";
      Basics.Regroup(sortCols, ident, direction);
      Basics.Regroup(sortCols, ident + direction, ", ");
      sortCols := sortCols + ident;
      sortCols := sortCols + direction;
      sortCols := sortCols + ", ";
    }
    assert cols[..|cols|] == cols;
    if |sortCols| > 2 { sortCols := sortCols[..|sortCols| - 2]; }
  }

  // ----- parsing

  /** The parser's variables; the list gets a row when the next column begins. */
  datatype Parser = Parser(inColumn: bool, inQuote: bool, col: string, dir: string, items: seq<SortColumn>)

  const START := Parser(true, false, "", "", [])

  predicate IsDescending(dir: string)
  {
    dir != "" && dir[0] == 'D'
  }

  /** One character; `prev` is the one before it. */
  function Step(p: Parser, prev: char, c: char): Parser
  {
    if p.inColumn then
      var inQuote := if c == QUOTE then !p.inQuote else p.inQuote;
      if !inQuote && (c == ' ' || c == ',') then p.(inColumn := false, inQuote := inQuote)
      else p.(inQuote := inQuote, col := if c != QUOTE then p.col + [c] else p.col)
    else if prev == ',' then
      Parser(true, p.inQuote, "", "", p.items + [SortColumn(p.col, IsDescending(p.dir))])
    else p.(dir := p.dir + [c])
  }

  function Feed(p: Parser, prev: char, s: string): Parser
    decreases |s|
  {
    if s == "" then p else Feed(Step(p, prev, s[0]), s[0], s[1..])
  }

  function Finish(p: Parser): seq<SortColumn>
  {
    if p.col != "" then p.items + [SortColumn(p.col, IsDescending(p.dir))] else p.items
  }

  function Parse(s: string): seq<SortColumn>
  {
    Finish(Feed(START, ' ', s))
  }

  function LastOr(s: string, prev: char): char
  {
    if s == "" then prev else s[|s| - 1]
  }

  lemma {:induction false} FeedConcat(p: Parser, prev: char, a: string, b: string)
    ensures Feed(p, prev, a + b) == Feed(Feed(p, prev, a), LastOr(a, prev), b)
    decreases |a|
  {
    if a == "" { assert a + b == b; }
    else {
      assert (a + b)[1..] == a[1..] + b && (a + b)[0] == a[0];
      FeedConcat(Step(p, prev, a[0]), a[0], a[1..], b);
      assert LastOr(a, prev) == LastOr(a[1..], a[0]);
    }
  }

  method ParseSortColumns(sortCols: string) returns (list: seq<SortColumn>)
    ensures list == Parse(sortCols)
  {
    var inColumn, inQuote := true, false;
    var col, dir := "", "";
    list := [];
    for pos := 0 to |sortCols|
      invariant var prev := if pos == 0 then ' ' else sortCols[pos - 1];
                Feed(START, ' ', sortCols) == Feed(Parser(inColumn, inQuote, col, dir, list), prev, sortCols[pos..])
      invariant pos == 0 ==> inColumn
    {
      var c := sortCols[pos];
      assert sortCols[pos..][1..] == sortCols[pos + 1..];
      if inColumn {
        if c == QUOTE { inQuote := !inQuote; }
        if !inQuote && (c == ' ' || c == ',') { inColumn := false; }
        else if c != QUOTE { col := col + [c]; }
      } else {
        if sortCols[pos - 1] == ',' {
          inColumn := true;
          list := list + [SortColumn(col, IsDescending(dir))];
          col, dir := "", "";
        } else {
          dir := dir + [c];
        }
      }
    }
    if col != "" { list := list + [SortColumn(col, IsDescending(dir))]; }
  }

  // ----- round trip

  /** The name without double quotes. */
  function Unquoted(s: string): string
  {
    if s == "" then "" else (if s[0] == QUOTE then "" else [s[0]]) + Unquoted(s[1..])
  }

  lemma {:induction false} UnquotedSame(s: string)
    ensures Unquoted(s) == s <==> QUOTE !in s
    ensures |Unquoted(s)| <= |s|
  {
    if s != "" {
      UnquotedSame(s[1..]);
      assert s == [s[0]] + s[1..];
    }
  }

  lemma FeedFirst(p: Parser, prev: char, c: char, rest: string)
    ensures Feed(p, prev, [c] + rest) == Feed(Step(p, prev, c), c, rest)
  {
    assert ([c] + rest)[1..] == rest;
  }

  lemma FeedDoubledQuote(p: Parser, prev: char, rest: string)
    requires p.inColumn && p.inQuote
    ensures Feed(p, prev, [QUOTE, QUOTE] + rest) == Feed(p, QUOTE, rest)
  {
    assert [QUOTE, QUOTE] + rest == [QUOTE] + ([QUOTE] + rest);
    FeedFirst(p, prev, QUOTE, [QUOTE] + rest);
    FeedFirst(p.(inQuote := false), QUOTE, QUOTE, rest);
  }

  /** Inside quotes everything but the quotes goes into the name. */
  lemma {:induction false} FeedQuotedBody(p: Parser, prev: char, name: string)
    requires p.inColumn && p.inQuote
    ensures Feed(p, prev, SqlText.Replace(name, [QUOTE], [QUOTE, QUOTE])) == p.(col := p.col + Unquoted(name))
    decreases |name|
  {
    if name == "" { assert p.col + "" == p.col; return; }
    var c, t := name[0], name[1..];
    var rest := SqlText.Replace(t, [QUOTE], [QUOTE, QUOTE]);
    assert name == [c] + t;
    if c == QUOTE {
      SqlText.ReplaceAtMatch([QUOTE], t, [QUOTE, QUOTE]);
      FeedDoubledQuote(p, prev, rest);
      FeedQuotedBody(p, QUOTE, t);
      assert Unquoted(name) == "" + Unquoted(t) == Unquoted(t);
    } else {
      assert [QUOTE][0] == QUOTE && ([c] + t)[0] == c;
      SqlText.ReplaceAtOther(c, t, [QUOTE], [QUOTE, QUOTE]);
      FeedFirst(p, prev, c, rest);
      FeedQuotedBody(p.(col := p.col + [c]), c, t);
      Basics.Regroup(p.col, [c], Unquoted(t));
    }
  }

  /** A name that needs no quotes goes in character by character. */
  lemma {:induction false} FeedPlain(p: Parser, prev: char, name: string)
    requires p.inColumn && !p.inQuote
    requires forall i :: 0 <= i < |name| ==> name[i] != QUOTE && name[i] != ' ' && name[i] != ','
    ensures Feed(p, prev, name) == p.(col := p.col + Unquoted(name))
    decreases |name|
  {
    if name == "" { assert p.col + "" == p.col; }
    else {
      var c, t := name[0], name[1..];
      assert name == [c] + t;
      FeedFirst(p, prev, c, t);
      FeedPlain(p.(col := p.col + [c]), c, t);
      Basics.Regroup(p.col, [c], Unquoted(t));
    }
  }

  /** Whatever the name, reading its quoted form leaves the name without double quotes, outside quotes. */
  lemma FeedIdent(main: seq<Keywords.Keyword>, p: Parser, prev: char, name: string)
    requires p.inColumn && !p.inQuote && p.col == ""
    ensures Feed(p, prev, QtIdent(main, name)) == p.(col := Unquoted(name))
  {
    if name == "" { assert p.(col := "") == p; return; }
    assert "" + Unquoted(name) == Unquoted(name);
    if NeedsQuoting(main, name) {
      var body := SqlText.Replace(name, [QUOTE], [QUOTE, QUOTE]);
      var p1 := p.(inQuote := true);
      FeedConcat(p, prev, [QUOTE] + body, [QUOTE]);
      FeedConcat(p, prev, [QUOTE], body);
      assert [QUOTE][1..] == "";
      assert Feed(p, prev, [QUOTE]) == p1;
      FeedQuotedBody(p1, QUOTE, name);
    } else {
      forall i | 0 <= i < |name| ensures name[i] != QUOTE && name[i] != ' ' && name[i] != ',' {
        assert PlainAt(name, i);
      }
      FeedPlain(p, prev, name);
    }
  }

  function DirectionText(descending: bool): string
  {
    if descending then "DESC" else "ASC"
  }

  lemma FeedDirection(p: Parser, prev: char, descending: bool)
    requires p.inColumn && !p.inQuote && p.dir == ""
    ensures Feed(p, prev, " " + DirectionText(descending)) == p.(inColumn := false, dir := DirectionText(descending))
  {
    var p1 := p.(inColumn := false);
    var d := DirectionText(descending);
    FeedFirst(p, prev, ' ', d);
    FeedLetters(p1, ' ', d);
    assert "" + d == d;
  }

  lemma {:induction false} FeedLetters(p: Parser, prev: char, s: string)
    requires !p.inColumn && prev != ',' && forall i :: 0 <= i < |s| ==> s[i] != ','
    ensures Feed(p, prev, s) == p.(dir := p.dir + s)
    decreases |s|
  {
    if s == "" { assert p.dir + "" == p.dir; }
    else {
      FeedLetters(p.(dir := p.dir + [s[0]]), s[0], s[1..]);
      assert (p.dir + [s[0]]) + s[1..] == p.dir + s;
    }
  }

  /** The row a printed column becomes. */
  function Reread(c: SortColumn): SortColumn
  {
    SortColumn(Unquoted(c.name), c.descending)
  }

  lemma FeedColumn(main: seq<Keywords.Keyword>, p: Parser, prev: char, c: SortColumn)
    requires p.inColumn && !p.inQuote && p.col == "" && p.dir == ""
    ensures Feed(p, prev, PrintColumn(main, c)) ==
            Parser(false, false, Unquoted(c.name), DirectionText(c.descending), p.items)
    ensures LastOr(PrintColumn(main, c), prev) != ','
  {
    var ident, d := QtIdent(main, c.name), DirectionText(c.descending);
    assert PrintColumn(main, c) == ident + (" " + d);
    FeedConcat(p, prev, ident, " " + d);
    FeedIdent(main, p, prev, c.name);
    FeedDirection(p.(col := Unquoted(c.name)), LastOr(ident, prev), c.descending);
  }

  lemma FeedSeparator(p: Parser, prev: char)
    requires !p.inColumn && !p.inQuote && prev != ','
    ensures Feed(p, prev, ", ") ==
            Parser(true, false, "", "", p.items + [SortColumn(p.col, IsDescending(p.dir + [',']))])
  {
    assert ", "[1..] == " " && " "[1..] == "";
  }

  lemma FeedColumnAndSeparator(main: seq<Keywords.Keyword>, items: seq<SortColumn>, prev: char, c: SortColumn)
    ensures Feed(Parser(true, false, "", "", items), prev, PrintColumn(main, c) + ", ") ==
            Parser(true, false, "", "", items + [Reread(c)])
  {
    var p, own := Parser(true, false, "", "", items), PrintColumn(main, c);
    FeedConcat(p, prev, own, ", ");
    FeedColumn(main, p, prev, c);
    FeedSeparator(Parser(false, false, Unquoted(c.name), DirectionText(c.descending), items), LastOr(own, prev));
    assert DirectionText(c.descending) + [','] != "";
  }

  function RereadAll(cols: seq<SortColumn>): (r: seq<SortColumn>)
    ensures |r| == |cols|
  {
    seq(|cols|, i requires 0 <= i < |cols| => Reread(cols[i]))
  }

  lemma RereadSnoc(cols: seq<SortColumn>)
    requires cols != []
    ensures RereadAll(cols) == RereadAll(cols[..|cols| - 1]) + [Reread(cols[|cols| - 1])]
  {
  }

  lemma {:induction false} FeedAll(main: seq<Keywords.Keyword>, cols: seq<SortColumn>)
    ensures Feed(START, ' ', PrintAll(main, cols)) == Parser(true, false, "", "", RereadAll(cols))
    decreases |cols|
  {
    if cols == [] { return; }
    var init, c := cols[..|cols| - 1], cols[|cols| - 1];
    var before := PrintAll(main, init);
    FeedAll(main, init);
    FeedConcat(START, ' ', before, PrintColumn(main, c) + ", ");
    FeedColumnAndSeparator(main, RereadAll(init), LastOr(before, ' '), c);
    RereadSnoc(cols);
  }

  lemma PrintWithoutSeparator(main: seq<Keywords.Keyword>, cols: seq<SortColumn>)
    requires cols != []
    ensures Print(main, cols) == PrintAll(main, cols[..|cols| - 1]) + PrintColumn(main, cols[|cols| - 1])
  {
    var before, own := PrintAll(main, cols[..|cols| - 1]), PrintColumn(main, cols[|cols| - 1]);
    Basics.Regroup(before, own, ", ");
    assert ((before + own) + ", ")[..|before + own|] == before + own;
  }

  lemma FeedPrinted(main: seq<Keywords.Keyword>, cols: seq<SortColumn>)
    requires cols != []
    ensures var c := cols[|cols| - 1];
            Feed(START, ' ', Print(main, cols)) ==
            Parser(false, false, Unquoted(c.name), DirectionText(c.descending), RereadAll(cols[..|cols| - 1]))
  {
    var init, c := cols[..|cols| - 1], cols[|cols| - 1];
    var before, own := PrintAll(main, init), PrintColumn(main, c);
    PrintWithoutSeparator(main, cols);
    FeedAll(main, init);
    FeedConcat(START, ' ', before, own);
    FeedColumn(main, Parser(true, false, "", "", RereadAll(init)), LastOr(before, ' '), c);
  }

  /** Parsing what was printed: names lose their double quotes, and a last name left empty is dropped. */
  lemma ParsePrinted(main: seq<Keywords.Keyword>, cols: seq<SortColumn>)
    ensures Parse(Print(main, cols)) ==
            if cols != [] && Unquoted(cols[|cols| - 1].name) == "" then RereadAll(cols[..|cols| - 1])
            else RereadAll(cols)
  {
    if cols != [] {
      FeedPrinted(main, cols);
      RereadSnoc(cols);
    }
  }

  /**
   * Printing and parsing gives the list back if and only if no name holds a double quote and the
   * last name is not empty; commas and blanks do no harm.
   */
  lemma SortListRoundTrip(main: seq<Keywords.Keyword>, cols: seq<SortColumn>)
    ensures Parse(Print(main, cols)) == cols <==>
            (forall i :: 0 <= i < |cols| ==> QUOTE !in cols[i].name) && (cols != [] ==> cols[|cols| - 1].name != "")
  {
    ParsePrinted(main, cols);
    forall i | 0 <= i < |cols| ensures Unquoted(cols[i].name) == cols[i].name <==> QUOTE !in cols[i].name {
      UnquotedSame(cols[i].name);
    }
    assert RereadAll(cols) == cols <==> forall i :: 0 <= i < |cols| ==> Unquoted(cols[i].name) == cols[i].name by {
      assert forall i :: 0 <= i < |cols| ==> RereadAll(cols)[i] == Reread(cols[i]);
    }
    if cols != [] { UnquotedSame(cols[|cols| - 1].name); }
  }
}
