/** Keyword lookup by binary search in the server's keyword table and then in a table of extra ones. */
module Keywords {
  import opened Basics

  datatype Category = Unreserved | ColumnName | TypeOrFunctionName | Reserved

  datatype Keyword = Keyword(name: string, category: Category)

  const NAMEDATALEN := 32

  const EXTRA := [
    Keyword("connect", Reserved), Keyword("convert", Reserved), Keyword("distributed", Unreserved),
    Keyword("exec", Reserved), Keyword("log", Unreserved), Keyword("long", Reserved),
    Keyword("minus", Reserved), Keyword("nocache", Reserved), Keyword("number", Reserved),
    Keyword("package", Reserved), Keyword("pls_integer", Reserved), Keyword("raw", Reserved),
    Keyword("return", Reserved), Keyword("smalldatetime", Reserved), Keyword("smallfloat", Reserved),
    Keyword("smallmoney", Reserved), Keyword("sysdate", Reserved), Keyword("systimestap", Reserved),
    Keyword("tinyint", Reserved), Keyword("tinytext", Reserved), Keyword("varchar2", Reserved)]

  // ----- order

  /** The C string comparison. */
  function Compare(a: string, b: string): int
  {
    if a == "" then (if b == "" then 0 else -1)
    else if b == "" then 1
    else if a[0] < b[0] then -1
    else if a[0] > b[0] then 1
    else Compare(a[1..], b[1..])
  }

  lemma {:induction false} CompareEqual(a: string, b: string)
    ensures Compare(a, b) == 0 <==> a == b
  {
    if a != "" && b != "" && a[0] == b[0] {
      CompareEqual(a[1..], b[1..]);
      assert a == [a[0]] + a[1..] && b == [b[0]] + b[1..];
    }
  }

  lemma {:induction false} CompareTransitive(a: string, b: string, c: string)
    requires Compare(a, b) < 0 && Compare(b, c) <= 0
    ensures Compare(a, c) < 0
  {
    if a != "" && b != "" && c != "" && a[0] == b[0] && b[0] == c[0] { CompareTransitive(a[1..], b[1..], c[1..]); }
  }

  lemma {:induction false} CompareAntisymmetric(a: string, b: string)
    ensures Compare(a, b) < 0 <==> Compare(b, a) > 0
  {
    if a != "" && b != "" && a[0] == b[0] { CompareAntisymmetric(a[1..], b[1..]); }
  }

  ghost predicate Sorted(table: seq<Keyword>)
  {
    forall i, j :: 0 <= i < j < |table| ==> Compare(table[i].name, table[j].name) < 0
  }

  ghost predicate Ascends(table: seq<Keyword>, k: int)
    requires 0 <= k < |table| - 1
  {
    Compare(table[k].name, table[k + 1].name) < 0
  }

  lemma {:induction false} NeighboursSort(table: seq<Keyword>, i: nat, j: nat)
    requires forall k :: 0 <= k < |table| - 1 ==> Ascends(table, k)
    requires i < j < |table|
    ensures Compare(table[i].name, table[j].name) < 0
    decreases j - i
  {
    assert Ascends(table, i);
    if i + 1 < j {
      NeighboursSort(table, i + 1, j);
      CompareTransitive(table[i].name, table[i + 1].name, table[j].name);
    }
  }

  lemma AscendingIsSorted(table: seq<Keyword>)
    requires forall k :: 0 <= k < |table| - 1 ==> Ascends(table, k)
    ensures Sorted(table)
  {
    forall i, j | 0 <= i < j < |table| ensures Compare(table[i].name, table[j].name) < 0 {
      NeighboursSort(table, i, j);
    }
  }

  lemma SmallDateTimeBeforeSmallFloat()
    ensures Compare("smalldatetime", "smallfloat") < 0
  {
    assert Compare("datetime", "float") < 0;
    assert Compare("lldatetime", "llfloat") < 0;
  }

  lemma SmallFloatBeforeSmallMoney()
    ensures Compare("smallfloat", "smallmoney") < 0
  {
    assert Compare("float", "money") < 0;
    assert Compare("llfloat", "llmoney") < 0;
  }

  lemma SysDateBeforeSysTimestap()
    ensures Compare("sysdate", "systimestap") < 0
  {
    assert Compare("sdate", "stimestap") < 0;
  }

  lemma TinyIntBeforeTinyText()
    ensures Compare("tinyint", "tinytext") < 0
  {
    assert Compare("nyint", "nytext") < 0;
  }

  lemma ExtraAscendsToLong()
    ensures forall k :: 0 <= k < 5 ==> Ascends(EXTRA, k)
  {
    assert Compare("connect", "convert") < 0 && Compare("convert", "distributed") < 0;
    assert Compare("distributed", "exec") < 0 && Compare("exec", "log") < 0 && Compare("log", "long") < 0;
  }

  lemma ExtraAscendsToPlsInteger()
    ensures forall k :: 5 <= k < 10 ==> Ascends(EXTRA, k)
  {
    assert Compare("long", "minus") < 0 && Compare("minus", "nocache") < 0 && Compare("nocache", "number") < 0;
    assert Compare("number", "package") < 0 && Compare("package", "pls_integer") < 0;
  }

  lemma ExtraAscendsToSmallFloat()
    ensures forall k :: 10 <= k < 14 ==> Ascends(EXTRA, k)
  {
    assert Compare("pls_integer", "raw") < 0 && Compare("raw", "return") < 0;
    assert Compare("return", "smalldatetime") < 0;
    SmallDateTimeBeforeSmallFloat();
  }

  lemma ExtraAscendsToSysTimestap()
    ensures forall k :: 14 <= k < 17 ==> Ascends(EXTRA, k)
  {
    SmallFloatBeforeSmallMoney();
    assert Compare("smallmoney", "sysdate") < 0;
    SysDateBeforeSysTimestap();
  }

  lemma ExtraAscendsToEnd()
    ensures forall k :: 17 <= k < 20 ==> Ascends(EXTRA, k)
  {
    assert Compare("systimestap", "tinyint") < 0;
    TinyIntBeforeTinyText();
    assert Compare("tinytext", "varchar2") < 0;
  }

  /** The extra table as written is sorted, as its binary search needs. */
  lemma ExtraIsSorted()
    ensures Sorted(EXTRA)
  {
    ExtraAscendsToLong();
    ExtraAscendsToPlsInteger();
    ExtraAscendsToSmallFloat();
    ExtraAscendsToSysTimestap();
    ExtraAscendsToEnd();
    AscendingIsSorted(EXTRA);
  }

  // ----- lookup

  /** The first entry with the name, by going through the table. */
  function Linear(table: seq<Keyword>, word: string): Option<Keyword>
  {
    if table == [] then None
    else if table[0].name == word then Some(table[0])
    else Linear(table[1..], word)
  }

  /** What a lookup should find: nothing for overlong words, else the main table's entry, else the extra one. */
  function Lookup(main: seq<Keyword>, text: string): Option<Keyword>
  {
    if |text| >= NAMEDATALEN then None
    else if Linear(main, Lower(text)).Some? then Linear(main, Lower(text))
    else Linear(EXTRA, Lower(text))
  }

  lemma {:induction false} LinearFinds(table: seq<Keyword>, word: string, k: nat)
    requires k <= |table| && (forall i :: 0 <= i < k ==> table[i].name != word)
    requires k < |table| ==> table[k].name == word
    ensures Linear(table, word) == if k < |table| then Some(table[k]) else None
    decreases |table|
  {
    if table != [] && k > 0 { LinearFinds(table[1..], word, k - 1); }
  }

  /** Binary search; the interval always holds the word if any entry does. */
  method BinarySearch(table: seq<Keyword>, word: string) returns (r: Option<Keyword>)
    requires Sorted(table)
    ensures r == Linear(table, word)
    ensures if r.Some? then r.value in table && r.value.name == word else NotIn(table, word)
  {
    var low, high := 0, |table| - 1;
    while low <= high
      invariant 0 <= low <= high + 1 <= |table|
      invariant forall i :: 0 <= i < low ==> Compare(table[i].name, word) < 0
      invariant forall i :: high < i < |table| ==> Compare(table[i].name, word) > 0
    {
      var middle := low + (high - low) / 2;
      var difference := Compare(table[middle].name, word);
      CompareEqual(table[middle].name, word);
      if difference == 0 {
        forall i | 0 <= i < middle ensures table[i].name != word { CompareEqual(table[i].name, word); }
        LinearFinds(table, word, middle);
        return Some(table[middle]);
      } else if difference < 0 {
        forall i | 0 <= i < middle ensures Compare(table[i].name, word) < 0 {
          CompareTransitive(table[i].name, table[middle].name, word);
        }
        low := middle + 1;
      } else {
        forall i | middle < i < |table| ensures Compare(table[i].name, word) > 0 {
          CompareAntisymmetric(word, table[middle].name);
          CompareTransitive(word, table[middle].name, table[i].name);
          CompareAntisymmetric(word, table[i].name);
        }
        high := middle - 1;
      }
    }
    forall i | 0 <= i < |table| ensures table[i].name != word { CompareEqual(table[i].name, word); }
    LinearFinds(table, word, |table|);
    return None;
  }

  lemma {:induction false} LinearMeans(table: seq<Keyword>, word: string)
    ensures var r := Linear(table, word);
            if r.Some? then r.value in table && r.value.name == word else NotIn(table, word)
  {
    if table != [] { LinearMeans(table[1..], word); }
  }

  ghost predicate NotIn(table: seq<Keyword>, word: string)
  {
    forall i :: 0 <= i < |table| ==> table[i].name != word
  }

  /** No entry is the text in lower case. */
  ghost predicate Unknown(table: seq<Keyword>, text: string)
  {
    forall i :: 0 <= i < |table| ==> !IsLowered(table[i].name, text)
  }

  lemma NotInIsUnknown(table: seq<Keyword>, text: string)
    requires NotIn(table, Lower(text))
    ensures Unknown(table, text)
  {
    forall i | 0 <= i < |table| ensures !IsLowered(table[i].name, text) { LowerMeans(table[i].name, text); }
  }

  /** What is found is the text in lower case; the extra table is used only for words unknown to the main one. */
  lemma LookupMeans(main: seq<Keyword>, text: string)
    ensures var r := Lookup(main, text);
            && (r.Some? ==> |text| < 32 && IsLowered(r.value.name, text) && (r.value in main || r.value in EXTRA))
            && (r.Some? && r.value !in main ==> Unknown(main, text))
            && (r.None? && |text| < 32 ==> Unknown(main, text) && Unknown(EXTRA, text))
  {
    var r := Lookup(main, text);
    LinearMeans(main, Lower(text));
    LinearMeans(EXTRA, Lower(text));
    if NotIn(main, Lower(text)) { NotInIsUnknown(main, text); }
    if NotIn(EXTRA, Lower(text)) { NotInIsUnknown(EXTRA, text); }
    if r.Some? { LowerMeans(r.value.name, text); }
  }

  /** Lookup of a word in any case; only ASCII letters are downcased, into a buffer of fixed size. */
  method ScanKeywordLookup(main: seq<Keyword>, text: string) returns (r: Option<Keyword>)
    requires Sorted(main)
    ensures r == Lookup(main, text)
    ensures r.Some? ==> |text| < 32 && IsLowered(r.value.name, text) && (r.value in main || r.value in EXTRA)
    ensures r.Some? && r.value !in main ==> Unknown(main, text)
    ensures r.None? && |text| < 32 ==> Unknown(main, text) && Unknown(EXTRA, text)
  {
    LookupMeans(main, text);
    var len := |text|;
    if len >= NAMEDATALEN { return None; }
    var word := new char[NAMEDATALEN];
    for i := 0 to len
      invariant word[..i] == Lower(text)[..i]
    {
      var ch := text[i];
      if 'A' <= ch <= 'Z' { ch := ch + 'a' - 'A'; }
      word[i] := ch;
    }
    word[len] := '\0';
    assert word[..len] == Lower(text);
    r := BinarySearch(main, word[..len]);
    if r.None? {
      ExtraIsSorted();
      r := BinarySearch(EXTRA, word[..len]);
    }
  }
}
