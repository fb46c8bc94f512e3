/**
 * A foreign server's options reach the dialog as one string, name=value pairs joined by commas.
 * The dialog cuts it up again each time it compares it with the edited list.
 */
module ForeignServerOptions {
  import opened Basics
  import opened SyncScript
  import opened OptionText
  import opened OptionDialogs

  // ----- string helpers

  /** The part before the first c, or all of it. */
  function BeforeFirst(s: string, c: char): (r: string)
    ensures c !in r && |r| <= |s|
  {
    if s == "" || s[0] == c then "" else [s[0]] + BeforeFirst(s[1..], c)
  }

  /** The part after the first c, or nothing. */
  function AfterFirst(s: string, c: char): (r: string)
    ensures s != "" ==> |r| < |s|
  {
    if s == "" then "" else if s[0] == c then s[1..] else AfterFirst(s[1..], c)
  }

  lemma {:induction false} BeforeFirstKeeps(s: string, c: char, d: char)
    requires d !in s
    ensures d !in BeforeFirst(s, c) && d !in AfterFirst(s, c)
  {
    if s != "" && s[0] != c { BeforeFirstKeeps(s[1..], c, d); }
  }

  lemma {:induction false} SplitAtFirst(a: string, c: char, b: string)
    requires c !in a
    ensures BeforeFirst(a + [c] + b, c) == a && AfterFirst(a + [c] + b, c) == b
  {
    var s := a + [c] + b;
    if a != "" {
      assert s[1..] == a[1..] + [c] + b;
      SplitAtFirst(a[1..], c, b);
    }
  }

  lemma {:induction false} NothingToSplit(a: string, c: char)
    requires c !in a
    ensures BeforeFirst(a, c) == a && AfterFirst(a, c) == ""
  {
    if a != "" { NothingToSplit(a[1..], c); }
  }

  // ----- the string of options

  function ParseOption(option: string): Row
  {
    (Trim(BeforeFirst(option, '=')), Trim(AfterFirst(option, '=')))
  }

  function ParseOptions(options: string): seq<Row>
    decreases |options|
  {
    if options == "" then [] else [ParseOption(BeforeFirst(options, ','))] + ParseOptions(AfterFirst(options, ','))
  }

  function JoinOption(o: Row): string
  {
    o.0 + "=" + o.1
  }

  /** How the server's query delivers the options. */
  function JoinOptions(options: seq<Row>): string
  {
    if options == [] then ""
    else if |options| == 1 then JoinOption(options[0])
    else JoinOption(options[0]) + "," + JoinOptions(options[1..])
  }

  /** No comma anywhere, no equals sign in the name, no blanks around either part. */
  predicate CleanOption(o: Row)
  {
    ',' !in o.0 && '=' !in o.0 && Trimmed(o.0) && ',' !in o.1 && Trimmed(o.1)
  }

  lemma ParsedOptionIsClean(option: string)
    requires ',' !in option
    ensures CleanOption(ParseOption(option))
  {
    BeforeFirstKeeps(option, '=', ',');
    TrimTrims(BeforeFirst(option, '='), ',');
    TrimTrims(BeforeFirst(option, '='), '=');
    TrimTrims(AfterFirst(option, '='), ',');
  }

  lemma {:induction false} ParsedOptionsAreClean(options: string, i: nat)
    requires i < |ParseOptions(options)|
    ensures CleanOption(ParseOptions(options)[i])
    decreases |options|
  {
    if i == 0 { ParsedOptionIsClean(BeforeFirst(options, ',')); }
    else { ParsedOptionsAreClean(AfterFirst(options, ','), i - 1); }
  }

  lemma CleanOptionParses(o: Row)
    requires CleanOption(o)
    ensures ParseOption(JoinOption(o)) == o && ',' !in JoinOption(o) && JoinOption(o) != ""
  {
    SplitAtFirst(o.0, '=', o.1);
  }

  lemma {:induction false} CleanOptionsParse(options: seq<Row>)
    requires forall i :: 0 <= i < |options| ==> CleanOption(options[i])
    ensures ParseOptions(JoinOptions(options)) == options
    decreases |options|
  {
    if options != [] {
      var first := JoinOption(options[0]);
      CleanOptionParses(options[0]);
      if |options| == 1 {
        NothingToSplit(first, ',');
        assert ParseOptions("") == [];
      } else {
        CleanOptionsParse(options[1..]);
        SplitAtFirst(first, ',', JoinOptions(options[1..]));
        assert first + [','] + JoinOptions(options[1..]) == JoinOptions(options);
      }
    }
  }

  /** The dialog sees the server's options as they are if and only if all of them are clean. */
  lemma ParsedExactlyWhenClean(options: seq<Row>)
    ensures ParseOptions(JoinOptions(options)) == options <==>
            forall i :: 0 <= i < |options| ==> CleanOption(options[i])
  {
    if ParseOptions(JoinOptions(options)) == options {
      forall i | 0 <= i < |options| ensures CleanOption(options[i]) {
        ParsedOptionsAreClean(JoinOptions(options), i);
      }
    } else if forall i :: 0 <= i < |options| ==> CleanOption(options[i]) {
      CleanOptionsParse(options);
    }
  }

  /** A comma in a value is one way to get it wrong. */
  lemma CommaInValueMisparsed()
    ensures ParseOptions(JoinOptions([("hosts", "a,b")])) != [("hosts", "a,b")]
  {
    ParsedExactlyWhenClean([("hosts", "a,b")]);
    assert "a,b"[1] == ',';
  }

  /** After these edits the script made from the string is right, and empty if and only if nothing changed. */
  ghost predicate ScriptRight(options: seq<Row>, edits: seq<Edit>)
  {
    var loaded := ParseOptions(JoinOptions(options));
    var rows := Edited(loaded, SameIgnoringCase, edits);
    && Run(ToMap(options), OptionsScript(loaded, rows)) == Some(ToMap(rows))
    && (OptionsScript(loaded, rows) == [] <==> ToMap(options) == ToMap(rows))
  }

  /** Options that cannot be told from the ones read back are clean: reading yields clean ones only. */
  lemma SameOptionsAreClean(options: seq<Row>, text: string, i: nat)
    requires Distinct(options) && i < |options| && ToMap(options) == ToMap(ParseOptions(text))
    ensures CleanOption(options[i])
  {
    var read, k := ParseOptions(text), options[i].0;
    FindAt(options, i);
    LookupIsFind(options, k);
    LookupIsFind(read, k);
    FindNone(read, k);
    var j :| 0 <= j < |read| && read[j] == (k, Find(read, k).value);
    ParsedOptionsAreClean(text, j);
  }

  /** With distinct keys and no edits the script is empty, so it can be right only if the list is the server's. */
  lemma RightUneditedMeansSame(options: seq<Row>)
    requires ScriptRight(options, []) && Distinct(ParseOptions(JoinOptions(options)))
    ensures ToMap(options) == ToMap(ParseOptions(JoinOptions(options)))
  {
    var loaded := ParseOptions(JoinOptions(options));
    var script := OptionsScript(loaded, loaded);
    if script != [] {
      KeyOfStatementOccurs(script, 0);
      OptionsScriptExact(loaded, loaded, script[0].key);
    }
    assert Run(ToMap(options), script) == Some(ToMap(options));
  }

  lemma {:induction false} PerRowCons(rows: seq<Row>, f: Row -> seq<Stmt<string, string>>)
    requires rows != []
    ensures PerRow(rows, f) == f(rows[0]) + PerRow(rows[1..], f)
    decreases |rows|
  {
    var n := |rows| - 1;
    if n > 0 {
      PerRowCons(rows[..n], f);
      assert rows[..n][1..] == rows[1..][..n - 1];
      Regroup(f(rows[0]), PerRow(rows[1..][..n - 1], f), f(rows[n]));
    }
  }

  /** Dropping every row in turn works only if no key comes twice. */
  lemma {:induction false} DroppedOnce(m: map<string, string>, rows: seq<Row>)
    requires Run(m, PerRow(rows, ChangeOf([]))).Some?
    ensures Distinct(rows) && forall i :: 0 <= i < |rows| ==> rows[i].0 in m
    decreases |rows|
  {
    if rows != [] {
      PerRowCons(rows, ChangeOf([]));
      var script := PerRow(rows, ChangeOf([]));
      assert script[0] == Drop(rows[0].0) && script[1..] == PerRow(rows[1..], ChangeOf([]));
      DroppedOnce(m - {rows[0].0}, rows[1..]);
      forall i | 0 < i < |rows| ensures rows[i].0 != rows[0].0 && rows[i].0 in m { assert rows[1..][i - 1] == rows[i]; }
    }
  }

  function RemoveAll(n: nat): (edits: seq<Edit>)
    ensures |edits| == n
  {
    seq(n, _ => RemoveOption(0))
  }

  lemma {:induction false} RemoveAllLeaves(loaded: seq<Row>, n: nat)
    requires n <= |loaded|
    ensures Edited(loaded, SameIgnoringCase, RemoveAll(n)) == loaded[n..]
  {
    if n > 0 {
      RemoveAllLeaves(loaded, n - 1);
      assert RemoveAll(n)[..n - 1] == RemoveAll(n - 1);
      assert loaded[n - 1..][1..] == loaded[n..];
    }
  }

  /** A string read as two rows of one name gives a script that drops the name twice once both are removed. */
  lemma RightEmptiedMeansDistinct(options: seq<Row>)
    requires ScriptRight(options, RemoveAll(|ParseOptions(JoinOptions(options))|))
    ensures Distinct(ParseOptions(JoinOptions(options)))
  {
    var loaded := ParseOptions(JoinOptions(options));
    RemoveAllLeaves(loaded, |loaded|);
    assert OptionsScript(loaded, []) == PerRow(loaded, ChangeOf([]));
    DroppedOnce(ToMap(options), loaded);
  }

  /** The script made from the string is right for every sequence of edits if and only if all options are clean. */
  lemma ServerOptionsSynchronised(options: seq<Row>)
    requires Distinct(options)
    ensures (forall edits: seq<Edit> :: ScriptRight(options, edits)) <==>
            forall i :: 0 <= i < |options| ==> CleanOption(options[i])
  {
    if forall i :: 0 <= i < |options| ==> CleanOption(options[i]) {
      CleanOptionsParse(options);
      forall edits: seq<Edit> ensures ScriptRight(options, edits) { OptionsSynchronised(options, edits); }
    }
    if forall edits: seq<Edit> :: ScriptRight(options, edits) {
      assert ScriptRight(options, []);
      assert ScriptRight(options, RemoveAll(|ParseOptions(JoinOptions(options))|));
      RightEmptiedMeansDistinct(options);
      RightUneditedMeansSame(options);
      forall i | 0 <= i < |options| ensures CleanOption(options[i]) {
        SameOptionsAreClean(options, JoinOptions(options), i);
      }
    }
  }

  // ----- the loops over the string

  method LoadOptions(text: string) returns (rows: seq<Row>)
    ensures rows == ParseOptions(text)
  {
    var options := text;
    rows := [];
    while options != ""
      invariant rows + ParseOptions(options) == ParseOptions(text)
      decreases |options|
    {
      var option := BeforeFirst(options, ',');
      rows := rows + [ParseOption(option)];
      options := AfterFirst(options, ',');
    }
  }

  lemma PerRowConcat(a: seq<Row>, o: Row, f: Row -> seq<Clause>)
    ensures PerRow(a + [o], f) == PerRow(a, f) + f(o)
  {
    assert (a + [o])[..|a|] == a;
  }

  lemma OneOptionTaken(done: seq<Row>, options: string)
    requires options != ""
    ensures var o := ParseOption(BeforeFirst(options, ','));
            done + ParseOptions(options) == (done + [o]) + ParseOptions(AfterFirst(options, ','))
  {
    Regroup(done, [ParseOption(BeforeFirst(options, ','))], ParseOptions(AfterFirst(options, ',')));
  }

  /** Compares the option string with the list, cutting the string up again for every row. */
  method GetOptionsSql(dlg: OptionList, text: string) returns (sqloptions: string)
    ensures sqloptions == OptionsText(ParseOptions(text), dlg.lstOptions)
  {
    ghost var script;
    sqloptions, script := ChangeOptions(dlg, text);
    sqloptions, script := AddMissing(dlg.lstOptions, text, sqloptions, script);
  }

  method ChangeOptions(dlg: OptionList, text: string) returns (sqloptions: string, ghost script: seq<Clause>)
    ensures script == PerRow(ParseOptions(text), ChangeOf(dlg.lstOptions)) && Printed(script, sqloptions)
  {
    var options := text;
    ghost var done: seq<Row> := [];
    sqloptions, script := "", [];
    while options != ""
      invariant done + ParseOptions(options) == ParseOptions(text)
      invariant script == PerRow(done, ChangeOf(dlg.lstOptions)) && Printed(script, sqloptions)
      decreases |options|
    {
      var o := ParseOption(BeforeFirst(options, ','));
      OneOptionTaken(done, options);
      PerRowConcat(done, o, ChangeOf(dlg.lstOptions));
      sqloptions, script := dlg.EmitChange(o, sqloptions, script);
      done := done + [o];
      options := AfterFirst(options, ',');
    }
    assert done == ParseOptions(text);
  }

  method AddMissing(rows: seq<Row>, text: string, sofar: string, ghost before: seq<Clause>)
    returns (sqloptions: string, ghost script: seq<Clause>)
    requires Printed(before, sofar)
    ensures script == before + PerRow(rows, AdditionOf(ParseOptions(text))) && Printed(script, sqloptions)
  {
    sqloptions, script := sofar, before;
    for pos := 0 to |rows|
      invariant script == before + PerRow(rows[..pos], AdditionOf(ParseOptions(text))) && Printed(script, sqloptions)
    {
      var found := HasOption(text, rows[pos].0);
      PerRowOnto(before, rows, AdditionOf(ParseOptions(text)), pos);
      sqloptions, script := EmitAddition(found, rows[pos], sqloptions, script);
    }
    assert rows[..|rows|] == rows;
  }

  method HasOption(text: string, name: string) returns (found: bool)
    ensures found <==> Find(ParseOptions(text), name).Some?
  {
    var options := text;
    found := false;
    while options != "" && !found
      invariant !found ==> Find(ParseOptions(text), name) == Find(ParseOptions(options), name)
      invariant found ==> Find(ParseOptions(text), name).Some?
      decreases |options|
    {
      var option := BeforeFirst(options, ',');
      found := name == Trim(BeforeFirst(option, '='));
      options := AfterFirst(options, ',');
    }
  }
}
