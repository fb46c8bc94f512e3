/**
 * The printed sort order as the server reads it: an ORDER BY list of names, quoted where they must be,
 * each with its direction.
 */
module SortText {
  import opened Basics
  import opened SqlText
  import opened OptionText
  import opened SortColumns
  import Keywords

  // ----- names

  /** The table has the word as one that the grammar takes. */
  ghost predicate Guards(table: seq<Keywords.Keyword>, word: string)
  {
    exists k :: k in table && k.name == word && !k.category.Unreserved?
  }

  /** The server's grammar takes the word: the main table says so, or the extra one for a word unknown to it. */
  ghost predicate IsTaken(main: seq<Keywords.Keyword>, word: string)
  {
    Guards(main, word) || (Keywords.NotIn(main, word) && Guards(Keywords.EXTRA, word))
  }

  /** Small letters, digits and underscores, no digit first. */
  ghost predicate IsPlain(name: string)
  {
    && (forall i :: 0 <= i < |name| ==> 'a' <= name[i] <= 'z' || '0' <= name[i] <= '9' || name[i] == '_')
    && (name != "" ==> !('0' <= name[0] <= '9'))
  }

  lemma PlainLower(name: string)
    requires IsPlain(name)
    ensures Lower(name) == name
  {
  }

  /** No two entries of a sorted table have one name. */
  lemma OneEntry(table: seq<Keywords.Keyword>, a: Keywords.Keyword, b: Keywords.Keyword)
    requires Keywords.Sorted(table) && a in table && b in table && a.name == b.name
    ensures a == b
  {
    var i :| 0 <= i < |table| && table[i] == a;
    var j :| 0 <= j < |table| && table[j] == b;
    if i < j { Keywords.CompareEqual(table[i].name, table[j].name); }
    if j < i { Keywords.CompareEqual(table[j].name, table[i].name); }
  }

  lemma EntryGuards(table: seq<Keywords.Keyword>, word: string)
    requires Keywords.Sorted(table)
    ensures var r := Keywords.Linear(table, word);
            && (r.None? ==> Keywords.NotIn(table, word) && !Guards(table, word))
            && (r.Some? ==> !Keywords.NotIn(table, word) && (Guards(table, word) <==> !r.value.category.Unreserved?))
  {
    var r := Keywords.Linear(table, word);
    Keywords.LinearMeans(table, word);
    if r.Some? {
      forall k | k in table && k.name == word ensures k == r.value { OneEntry(table, k, r.value); }
    }
  }

  lemma LookupIsTaken(main: seq<Keywords.Keyword>, word: string)
    requires Keywords.Sorted(main) && |word| < Keywords.NAMEDATALEN && Lower(word) == word
    ensures IsTaken(main, word) <==>
            Keywords.Lookup(main, word).Some? && !Keywords.Lookup(main, word).value.category.Unreserved?
  {
    Keywords.ExtraIsSorted();
    EntryGuards(main, word);
    EntryGuards(Keywords.EXTRA, word);
  }

  /** The keyword tables hold words shorter than the lookup's buffer. */
  ghost predicate ShortWords(main: seq<Keywords.Keyword>)
  {
    forall k :: k in main ==> |k.name| < Keywords.NAMEDATALEN
  }

  lemma ExtraWordsAreShort()
    ensures ShortWords(Keywords.EXTRA)
  {
  }

  /** A name is quoted exactly if it is not plain or is taken. */
  lemma NeedsQuotingMeans(main: seq<Keywords.Keyword>, name: string)
    requires Keywords.Sorted(main) && ShortWords(main) && name != ""
    ensures NeedsQuoting(main, name) <==> !IsPlain(name) || IsTaken(main, name)
  {
    if IsNumber(name) || exists i :: 0 <= i < |name| && !PlainAt(name, i) {
      NotPlain(name);
    } else {
      assert IsPlain(name) by { AllPlain(name); }
      PlainLower(name);
      ExtraWordsAreShort();
      if |name| < Keywords.NAMEDATALEN { LookupIsTaken(main, name); }
    }
  }

  lemma NotPlain(name: string)
    requires name != "" && (IsNumber(name) || exists i :: 0 <= i < |name| && !PlainAt(name, i))
    ensures !IsPlain(name)
  {
    if i :| 0 <= i < |name| && !PlainAt(name, i) {}
  }

  lemma AllPlain(name: string)
    requires name != "" && forall i :: 0 <= i < |name| ==> PlainAt(name, i)
    ensures IsPlain(name)
  {
    forall i | 0 <= i < |name|
      ensures 'a' <= name[i] <= 'z' || '0' <= name[i] <= '9' || name[i] == '_'
    {
      assert PlainAt(name, i);
    }
    assert PlainAt(name, 0);
  }

  lemma {:induction false} QuotedReads(name: string, z: string)
    requires z == "" || z[0] != QUOTE
    ensures DecodeBody(Replace(name, [QUOTE], [QUOTE, QUOTE]) + ([QUOTE] + z), QUOTE, false) == Some((name, z))
    decreases |name|
  {
    var end := [QUOTE] + z;
    if name == "" {
      assert "" + end == end && end[1..] == z;
    } else {
      var c, t := name[0], name[1..];
      var rest := Replace(t, [QUOTE], [QUOTE, QUOTE]);
      QuotedReads(t, z);
      assert name == [c] + t;
      if c == QUOTE {
        ReplaceAtMatch([QUOTE], t, [QUOTE, QUOTE]);
        Regroup([QUOTE, QUOTE], rest, end);
        assert ([QUOTE, QUOTE] + (rest + end))[2..] == rest + end;
      } else {
        assert [QUOTE][0] == QUOTE && ([c] + t)[0] == c;
        ReplaceAtOther(c, t, [QUOTE], [QUOTE, QUOTE]);
        Regroup([c], rest, end);
        assert ([c] + (rest + end))[1..] == rest + end;
      }
    }
  }

  /** A name without quotes, unless it is taken, or a quoted one. */
  ghost function ReadColumnName(main: seq<Keywords.Keyword>, t: string): Option<(string, string)>
  {
    match ReadName(t)
    case None => None
    case Some((name, rest)) => if t[0] != QUOTE && IsTaken(main, name) then None else Some((name, rest))
  }

  lemma QuotedNameReads(main: seq<Keywords.Keyword>, name: string, z: string)
    requires name != "" && Follows(z)
    ensures ReadColumnName(main, [QUOTE] + Replace(name, [QUOTE], [QUOTE, QUOTE]) + [QUOTE] + z) ==
            Some((Truncate(name), z))
  {
    var body := Replace(name, [QUOTE], [QUOTE, QUOTE]);
    var t := [QUOTE] + body + [QUOTE] + z;
    QuotedReads(name, z);
    assert t[1..] == body + ([QUOTE] + z) && t[0] == QUOTE;
  }

  /**
   * Whatever the name, its printed form is read back as the name, cut to the server's limit, and up to its end;
   * an empty name is not read.
   */
  lemma IdentReadsBack(main: seq<Keywords.Keyword>, name: string, z: string)
    requires Keywords.Sorted(main) && ShortWords(main) && Follows(z)
    ensures |name| <= NAME_LIMIT && name != "" ==> ReadColumnName(main, QtIdent(main, name) + z) == Some((name, z))
    ensures |name| > NAME_LIMIT || name == "" ==>
              forall r :: ReadColumnName(main, QtIdent(main, name) + z) != Some((name, r))
  {
    if name == "" { assert "" + z == z; }
    else if NeedsQuoting(main, name) { QuotedNameReads(main, name, z); }
    else {
      NeedsQuotingMeans(main, name);
      PlainLower(name);
      NameReadsBack(name, z);
      assert (name + z)[0] == name[0];
      assert PlainName(name) <==> |name| <= NAME_LIMIT;
    }
  }

  // ----- the list

  /** The direction after a name, and the text after it. */
  function ReadDirection(t: string): Option<(bool, string)>
  {
    if " DESC" <= t then Some((true, t[5..]))
    else if " ASC" <= t then Some((false, t[4..]))
    else None
  }

  ghost function ReadColumn(main: seq<Keywords.Keyword>, t: string): Option<(SortColumn, string)>
  {
    match ReadColumnName(main, t)
    case None => None
    case Some((name, u)) =>
      match ReadDirection(u)
      case None => None
      case Some((descending, rest)) => Some((SortColumn(name, descending), rest))
  }

  /** Columns separated by commas; an empty text is an empty list. */
  ghost function ReadOrder(main: seq<Keywords.Keyword>, t: string): Option<seq<SortColumn>>
    decreases |t|
  {
    if t == "" then Some([])
    else
      match ReadColumn(main, t)
      case None => None
      case Some((c, u)) =>
        if u == "" then Some([c])
        else if !(", " < u) || |u| > |t| then None
        else WithFirst(c, ReadOrder(main, u[2..]))
  }

  predicate NameFits(c: SortColumn)
  {
    c.name != "" && |c.name| <= NAME_LIMIT
  }

  lemma DirectionReads(descending: bool, z: string)
    ensures ReadDirection((if descending then " DESC" else " ASC") + z) == Some((descending, z))
  {
    var d := if descending then " DESC" else " ASC";
    var t := d + z;
    assert t[..|d|] == d && t[|d|..] == z && t[1] == d[1];
  }

  lemma ColumnReadsBack(main: seq<Keywords.Keyword>, c: SortColumn, z: string)
    requires Keywords.Sorted(main) && ShortWords(main)
    ensures if NameFits(c) then ReadColumn(main, PrintColumn(main, c) + z) == Some((c, z))
            else forall r :: ReadColumn(main, PrintColumn(main, c) + z) != Some((c, r))
  {
    var d := if c.descending then " DESC" else " ASC";
    Regroup(QtIdent(main, c.name), d, z);
    assert (d + z)[0] == ' ';
    IdentReadsBack(main, c.name, d + z);
    DirectionReads(c.descending, z);
  }

  /** The printed list, first column first. */
  function PrintList(main: seq<Keywords.Keyword>, cols: seq<SortColumn>): string
  {
    if cols == [] then ""
    else if |cols| == 1 then PrintColumn(main, cols[0])
    else PrintColumn(main, cols[0]) + (", " + PrintList(main, cols[1..]))
  }

  lemma {:induction false} PrintAllFromFirst(main: seq<Keywords.Keyword>, cols: seq<SortColumn>)
    requires cols != []
    ensures PrintAll(main, cols) == PrintList(main, cols) + ", "
    decreases |cols|
  {
    if |cols| == 1 {
      assert cols[..0] == [] && "" + (PrintColumn(main, cols[0]) + ", ") == PrintColumn(main, cols[0]) + ", ";
    } else {
      PrintAllSplit(main, cols);
      PrintAllFromFirst(main, cols[1..]);
      var first, rest := PrintColumn(main, cols[0]), PrintList(main, cols[1..]);
      Regroup(first, ", ", rest + ", ");
      Regroup(", ", rest, ", ");
      Regroup(first, ", " + rest, ", ");
    }
  }

  lemma {:induction false} PrintAllSplit(main: seq<Keywords.Keyword>, cols: seq<SortColumn>)
    requires cols != []
    ensures PrintAll(main, cols) == (PrintColumn(main, cols[0]) + ", ") + PrintAll(main, cols[1..])
    decreases |cols|
  {
    var n := |cols| - 1;
    var first, last := PrintColumn(main, cols[0]) + ", ", PrintColumn(main, cols[n]) + ", ";
    if n == 0 {
      assert cols[..0] == [] && cols[1..] == [];
      assert "" + first == first && first + "" == first;
    } else {
      PrintAllSplit(main, cols[..n]);
      assert cols[..n][1..] == cols[1..][..n - 1] && cols[1..][n - 1] == cols[n];
      Regroup(first, PrintAll(main, cols[1..][..n - 1]), last);
    }
  }

  /** Cutting the last separator off leaves the columns joined by commas. */
  lemma PrintIsList(main: seq<Keywords.Keyword>, cols: seq<SortColumn>)
    ensures Print(main, cols) == PrintList(main, cols)
  {
    if cols != [] {
      PrintAllFromFirst(main, cols);
      PrintListLong(main, cols);
      var list := PrintList(main, cols);
      assert (list + ", ")[..|list|] == list;
    }
  }

  lemma PrintListLong(main: seq<Keywords.Keyword>, cols: seq<SortColumn>)
    requires cols != []
    ensures |PrintList(main, cols)| > 0
  {
    assert |PrintColumn(main, cols[0])| > 0;
  }

  lemma ReadOnward(main: seq<Keywords.Keyword>, t: string, c: SortColumn, z: string, text: string)
    requires t != "" && ReadColumn(main, t) == Some((c, z)) && |z| <= |t| && text != "" && z == ", " + text
    ensures ReadOrder(main, t) == WithFirst(c, ReadOrder(main, text))
  {
    assert ", " < z && z[2..] == text;
  }

  lemma ReadLast(main: seq<Keywords.Keyword>, t: string, c: SortColumn)
    requires t != "" && ReadColumn(main, t) == Some((c, ""))
    ensures ReadOrder(main, t) == WithFirst(c, ReadOrder(main, ""))
  {
    assert [c] + [] == [c];
  }

  lemma FirstColumnRead(main: seq<Keywords.Keyword>, t: string, cols: seq<SortColumn>)
    requires cols != [] && ReadOrder(main, t) == Some(cols)
    ensures ReadColumn(main, t).Some? && ReadColumn(main, t) == Some((cols[0], ReadColumn(main, t).value.1))
  {
  }

  /** What follows the first column of a printed list. */
  function AfterFirst(main: seq<Keywords.Keyword>, rest: seq<SortColumn>): string
  {
    if rest == [] then "" else ", " + PrintList(main, rest)
  }

  lemma FirstThenRest(main: seq<Keywords.Keyword>, c: SortColumn, rest: seq<SortColumn>)
    requires Keywords.Sorted(main) && ShortWords(main) && NameFits(c)
    ensures ReadOrder(main, PrintColumn(main, c) + AfterFirst(main, rest)) ==
            WithFirst(c, ReadOrder(main, PrintList(main, rest)))
  {
    var z := AfterFirst(main, rest);
    var t := PrintColumn(main, c) + z;
    ColumnReadsBack(main, c, z);
    PrintListLong(main, [c]);
    if rest != [] {
      PrintListLong(main, rest);
      ReadOnward(main, t, c, z, PrintList(main, rest));
    } else {
      ReadLast(main, t, c);
    }
  }

  ghost predicate AllFit(cols: seq<SortColumn>)
  {
    forall i :: 0 <= i < |cols| ==> NameFits(cols[i])
  }

  lemma AllFitFromFirst(c: SortColumn, rest: seq<SortColumn>)
    ensures AllFit([c] + rest) <==> NameFits(c) && AllFit(rest)
  {
    var cols := [c] + rest;
    assert forall i :: 0 <= i < |cols| ==> cols[i] == if i == 0 then c else rest[i - 1];
    if AllFit(cols) {
      assert NameFits(cols[0]);
      forall i | 0 <= i < |rest| ensures NameFits(rest[i]) { assert NameFits(cols[i + 1]); }
    }
  }

  lemma {:induction false} ListReadsBack(main: seq<Keywords.Keyword>, cols: seq<SortColumn>)
    requires Keywords.Sorted(main) && ShortWords(main)
    ensures ReadOrder(main, PrintList(main, cols)) == Some(cols) <==> AllFit(cols)
    decreases |cols|
  {
    if cols != [] {
      var c, rest := cols[0], cols[1..];
      var t := PrintColumn(main, c) + AfterFirst(main, rest);
      assert cols == [c] + rest && PrintList(main, cols) == t;
      AllFitFromFirst(c, rest);
      if NameFits(c) {
        ListReadsBack(main, rest);
        FirstThenRest(main, c, rest);
        WithFirstSame(c, ReadOrder(main, PrintList(main, rest)), rest);
      } else if ReadOrder(main, t) == Some(cols) {
        ColumnReadsBack(main, c, AfterFirst(main, rest));
        FirstColumnRead(main, t, cols);
      }
    }
  }

  /**
   * The server reads the printed sort order as the list it was printed from if and only if every name
   * has between one and 63 characters, whatever those are.
   */
  lemma SortOrderReadsBack(main: seq<Keywords.Keyword>, cols: seq<SortColumn>)
    requires Keywords.Sorted(main) && ShortWords(main)
    ensures ReadOrder(main, Print(main, cols)) == Some(cols) <==>
            forall i :: 0 <= i < |cols| ==> 1 <= |cols[i].name| <= 63
  {
    PrintIsList(main, cols);
    ListReadsBack(main, cols);
  }
}
