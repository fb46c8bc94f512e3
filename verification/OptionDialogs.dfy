/**
 * The dialogs that edit a list of named values and compare it with the server's: options of a
 * foreign table or server, security labels, and configuration variables of a database.
 */
module OptionDialogs {
  import opened Basics
  import opened SyncScript
  import opened OptionText

  type Row = (string, string)

  predicate SameIgnoringCase(a: string, b: string)
  {
    |a| == |b| && forall i :: 0 <= i < |a| ==> LowerChar(a[i]) == LowerChar(b[i])
  }

  lemma SameIgnoringCaseMeans(a: string, b: string)
    ensures SameIgnoringCase(a, b) <==> SameLetters(a, b)
  {
    forall i | 0 <= i < |a| && |a| == |b| ensures LowerChar(a[i]) == LowerChar(b[i]) <==> SameLetter(a[i], b[i]) {
      LowerCharMeans(a[i], b[i]);
    }
  }

  /** The first row with that name in any case gets the value and keeps its name; without one a row is appended. */
  ghost predicate OptionSetAt(p: int, rows: seq<Row>, name: string, value: string, after: seq<Row>)
  {
    && 0 <= p <= |rows| && (forall i :: 0 <= i < p ==> !SameLetters(rows[i].0, name))
    && if p == |rows| then after == rows + [(name, value)]
       else SameLetters(rows[p].0, name) && after == rows[p := (rows[p].0, value)]
  }

  /** The row of the provider gets the label; without one a row is appended. */
  ghost predicate LabelSetAt(p: int, rows: seq<Row>, provider: string, label': string, after: seq<Row>)
  {
    && 0 <= p <= |rows| && (forall i :: 0 <= i < p ==> rows[i].0 != provider)
    && if p == |rows| then after == rows + [(provider, label')]
       else rows[p].0 == provider && after == rows[p := (provider, label')]
  }

  /** Replaces the value of the first row whose key is the same in the given sense, or appends a row. */
  function Upsert(rows: seq<Row>, same: (string, string) -> bool, name: string, value: string): seq<Row>
  {
    if rows == [] then [(name, value)]
    else if same(rows[0].0, name) then [(rows[0].0, value)] + rows[1..]
    else [rows[0]] + Upsert(rows[1..], same, name, value)
  }

  function RemoveRow<K, V>(rows: seq<(K, V)>, pos: int): seq<(K, V)>
  {
    if 0 <= pos < |rows| then rows[..pos] + rows[pos + 1..] else rows
  }

  datatype Edit = AddOption(name: string, value: string) | RemoveOption(pos: int)

  function ApplyEdit(rows: seq<Row>, same: (string, string) -> bool, e: Edit): seq<Row>
  {
    match e
    case AddOption(name, value) => Upsert(rows, same, name, value)
    case RemoveOption(pos) => RemoveRow(rows, pos)
  }

  function Edited(loaded: seq<Row>, same: (string, string) -> bool, edits: seq<Edit>): seq<Row>
    decreases |edits|
  {
    if edits == [] then loaded
    else ApplyEdit(Edited(loaded, same, edits[..|edits| - 1]), same, edits[|edits| - 1])
  }

  ghost predicate Reflexive(same: (string, string) -> bool)
  {
    forall s :: same(s, s)
  }

  lemma {:induction false} UpsertKeys(rows: seq<Row>, same: (string, string) -> bool, name: string, value: string)
    requires Reflexive(same)
    ensures var r := Upsert(rows, same, name, value);
            && (forall i :: 0 <= i < |rows| ==> i < |r| && r[i].0 == rows[i].0)
            && (|r| == |rows| || (|r| == |rows| + 1 && r[|rows|] == (name, value)
                                  && forall i :: 0 <= i < |rows| ==> rows[i].0 != name))
    decreases |rows|
  {
    if rows != [] && !same(rows[0].0, name) { UpsertKeys(rows[1..], same, name, value); }
  }

  /** The key an added option lands on: the first one that is the same in the given sense, or its own name. */
  function TargetKey(rows: seq<Row>, same: (string, string) -> bool, name: string): string
  {
    if rows == [] then name else if same(rows[0].0, name) then rows[0].0 else TargetKey(rows[1..], same, name)
  }

  /** Adding an option sets that one key and leaves every other as it was. */
  lemma {:induction false} UpsertSetsOneKey(rows: seq<Row>, same: (string, string) -> bool, name: string, value: string,
                                            j: string)
    requires Distinct(rows) && Reflexive(same)
    ensures Find(Upsert(rows, same, name, value), j) ==
            if j == TargetKey(rows, same, name) then Some(value) else Find(rows, j)
    decreases |rows|
  {
    if rows != [] && !same(rows[0].0, name) {
      UpsertSetsOneKey(rows[1..], same, name, value, j);
      TargetKeyOccurs(rows[1..], same, name);
    }
  }

  lemma {:induction false} TargetKeyOccurs(rows: seq<Row>, same: (string, string) -> bool, name: string)
    ensures TargetKey(rows, same, name) == name
            || exists i :: 0 <= i < |rows| && rows[i].0 == TargetKey(rows, same, name)
    decreases |rows|
  {
    if rows != [] && !same(rows[0].0, name) {
      TargetKeyOccurs(rows[1..], same, name);
      if i :| 0 <= i < |rows[1..]| && rows[1..][i].0 == TargetKey(rows[1..], same, name) {
        assert rows[i + 1].0 == TargetKey(rows, same, name);
      }
    }
  }

  /** Removing a row removes its key and leaves every other as it was. */
  lemma {:induction false} RemoveRowRemovesOneKey<K, V>(rows: seq<(K, V)>, pos: int, j: K)
    requires Distinct(rows)
    ensures Find(RemoveRow(rows, pos), j) == if 0 <= pos < |rows| && rows[pos].0 == j then None else Find(rows, j)
    decreases |rows|
  {
    if 0 < pos < |rows| {
      RemoveRowRemovesOneKey(rows[1..], pos - 1, j);
      assert RemoveRow(rows, pos) == [rows[0]] + RemoveRow(rows[1..], pos - 1);
    } else if 0 == pos < |rows| {
      assert RemoveRow(rows, pos) == rows[1..];
      FindNone(rows[1..], j);
    }
  }

  /** Whatever is added or removed, no two rows ever have the same name. */
  lemma {:induction false} EditsKeepDistinct(loaded: seq<Row>, same: (string, string) -> bool, edits: seq<Edit>)
    requires Distinct(loaded) && Reflexive(same)
    ensures Distinct(Edited(loaded, same, edits))
    decreases |edits|
  {
    if edits != [] {
      var rows, e := Edited(loaded, same, edits[..|edits| - 1]), edits[|edits| - 1];
      EditsKeepDistinct(loaded, same, edits[..|edits| - 1]);
      if e.AddOption? { UpsertKeys(rows, same, e.name, e.value); }
    }
  }

  // ----- foreign options

  function ChangeOf(rows: seq<Row>): Row -> seq<Stmt<string, string>>
  {
    (o: Row) =>
      match Find(rows, o.0)
      case Some(v) => if v != o.1 then [Set(o.0, v)] else []
      case None => [Drop(o.0)]
  }

  function AdditionOf(old': seq<Row>): Row -> seq<Stmt<string, string>>
  {
    (row: Row) => if Find(old', row.0).None? then [Add(row.0, row.1)] else []
  }

  /** SET and DROP for the server's options in its order, then ADD for the new ones in list order. */
  function OptionsScript(old': seq<Row>, rows: seq<Row>): seq<Stmt<string, string>>
  {
    PerRow(old', ChangeOf(rows)) + PerRow(rows, AdditionOf(old'))
  }

  lemma OptionsScriptExact(old': seq<Row>, rows: seq<Row>, k: string)
    requires Distinct(old') && Distinct(rows)
    ensures ExactOn(OptionsScript(old', rows), k, Find(old', k), Find(rows, k))
  {
    OptionsOnKey(old', rows, k);
  }

  lemma OptionsOnKey(old': seq<Row>, rows: seq<Row>, k: string)
    requires Distinct(old') && Distinct(rows)
    ensures OnKey(OptionsScript(old', rows), k) ==
            (if Find(old', k).Some? then ChangeOf(rows)((k, Find(old', k).value)) else [])
            + (if Find(rows, k).Some? then AdditionOf(old')((k, Find(rows, k).value)) else [])
  {
    OnKeyPerRow(old', ChangeOf(rows), k);
    OnKeyPerRow(rows, AdditionOf(old'), k);
    OnKeyConcat(PerRow(old', ChangeOf(rows)), PerRow(rows, AdditionOf(old')), k);
  }

  /**
   * For every sequence of edits: the option script runs without a misplaced ADD, SET or DROP, ends
   * at exactly the edited options, and is empty if and only if nothing changed.
   */
  lemma OptionsSynchronised(old': seq<Row>, edits: seq<Edit>)
    requires Distinct(old')
    ensures var rows := Edited(old', SameIgnoringCase, edits);
            && Run(ToMap(old'), OptionsScript(old', rows)) == Some(ToMap(rows))
            && (OptionsScript(old', rows) == [] <==> ToMap(old') == ToMap(rows))
  {
    var rows := Edited(old', SameIgnoringCase, edits);
    EditsKeepDistinct(old', SameIgnoringCase, edits);
    forall k ensures ExactOn(OptionsScript(old', rows), k, Lookup(ToMap(old'), k), Lookup(ToMap(rows), k)) {
      OptionsScriptExact(old', rows, k);
      LookupIsFind(old', k);
      LookupIsFind(rows, k);
    }
    ExactScriptSynchronises(OptionsScript(old', rows), ToMap(old'), ToMap(rows));
  }

  /** The option script has ADD, SET and DROP clauses only. */
  lemma {:induction false} ClausesPerRow(rows: seq<Row>, f: Row -> seq<Clause>)
    requires forall row :: forall i :: 0 <= i < |f(row)| ==> IsClause(f(row)[i])
    ensures forall i :: 0 <= i < |PerRow(rows, f)| ==> IsClause(PerRow(rows, f)[i])
    decreases |rows|
  {
    if rows != [] { ClausesPerRow(rows[..|rows| - 1], f); }
  }

  lemma OptionsScriptClauses(old': seq<Row>, rows: seq<Row>)
    ensures forall i :: 0 <= i < |OptionsScript(old', rows)| ==> IsClause(OptionsScript(old', rows)[i])
  {
    ClausesPerRow(old', ChangeOf(rows));
    ClausesPerRow(rows, AdditionOf(old'));
  }

  /** The text that the dialogs emit. */
  function OptionsText(old': seq<Row>, rows: seq<Row>): string
  {
    OptionsScriptClauses(old', rows);
    PrintScript(OptionsScript(old', rows))
  }

  /**
   * For every sequence of edits: the emitted text reads as the script that leads to the edited options
   * if and only if every name in it stays itself without quotes and no value in it holds a quote.
   */
  lemma OptionsTextSynchronised(old': seq<Row>, edits: seq<Edit>)
    requires Distinct(old')
    ensures var rows := Edited(old', SameIgnoringCase, edits);
            var script := OptionsScript(old', rows);
            && Run(ToMap(old'), script) == Some(ToMap(rows))
            && (ReadScript(OptionsText(old', rows)) == Some(script) <==>
                  forall i :: 0 <= i < |script| ==> IsClause(script[i]) && PlainClause(script[i]))
  {
    var rows := Edited(old', SameIgnoringCase, edits);
    OptionsSynchronised(old', edits);
    OptionsScriptClauses(old', rows);
    ScriptReadsBack(OptionsScript(old', rows));
  }

  // ----- security labels

  function LabelOf(old': seq<Row>): Row -> seq<Stmt<string, string>>
  {
    (row: Row) => if Find(old', row.0) == Some(row.1) then [] else [Put(row.0, row.1)]
  }

  function UnlabelOf(rows: seq<Row>): Row -> seq<Stmt<string, string>>
  {
    (o: Row) => if Find(rows, o.0).None? then [Drop(o.0)] else []
  }

  /** SECURITY LABEL for new or changed providers in list order, then IS NULL for the vanished ones. */
  function LabelsScript(old': seq<Row>, rows: seq<Row>): seq<Stmt<string, string>>
  {
    PerRow(rows, LabelOf(old')) + PerRow(old', UnlabelOf(rows))
  }

  predicate SameProvider(a: string, b: string) { a == b }

  lemma LabelsScriptExact(old': seq<Row>, rows: seq<Row>, k: string)
    requires Distinct(old') && Distinct(rows)
    ensures ExactOn(LabelsScript(old', rows), k, Find(old', k), Find(rows, k))
  {
    LabelsOnKey(old', rows, k);
  }

  lemma LabelsOnKey(old': seq<Row>, rows: seq<Row>, k: string)
    requires Distinct(old') && Distinct(rows)
    ensures OnKey(LabelsScript(old', rows), k) ==
            (if Find(rows, k).Some? then LabelOf(old')((k, Find(rows, k).value)) else [])
            + (if Find(old', k).Some? then UnlabelOf(rows)((k, Find(old', k).value)) else [])
  {
    OnKeyPerRow(rows, LabelOf(old'), k);
    OnKeyPerRow(old', UnlabelOf(rows), k);
    OnKeyConcat(PerRow(rows, LabelOf(old')), PerRow(old', UnlabelOf(rows)), k);
  }

  /** For every sequence of edits: the label script ends at exactly the edited labels; empty iff unchanged. */
  lemma LabelsSynchronised(old': seq<Row>, edits: seq<Edit>)
    requires Distinct(old')
    ensures var rows := Edited(old', SameProvider, edits);
            && Run(ToMap(old'), LabelsScript(old', rows)) == Some(ToMap(rows))
            && (LabelsScript(old', rows) == [] <==> ToMap(old') == ToMap(rows))
  {
    var rows := Edited(old', SameProvider, edits);
    EditsKeepDistinct(old', SameProvider, edits);
    forall k ensures ExactOn(LabelsScript(old', rows), k, Lookup(ToMap(old'), k), Lookup(ToMap(rows), k)) {
      LabelsScriptExact(old', rows, k);
      LookupIsFind(old', k);
      LookupIsFind(rows, k);
    }
    ExactScriptSynchronises(LabelsScript(old', rows), ToMap(old'), ToMap(rows));
  }

  // ----- the loops

  /** The first row with the key gives Find its value. */
  lemma {:induction false} FirstRowFound<K, V>(rows: seq<(K, V)>, k: K, p: nat)
    requires p <= |rows| && (forall i :: 0 <= i < p ==> rows[i].0 != k)
    requires p < |rows| ==> rows[p].0 == k
    ensures Find(rows, k) == if p < |rows| then Some(rows[p].1) else None
    decreases |rows|
  {
    if rows != [] && p > 0 { FirstRowFound(rows[1..], k, p - 1); }
  }

  lemma {:induction false} UpsertAt(rows: seq<Row>, same: (string, string) -> bool, name: string, value: string, p: nat)
    requires p <= |rows| && (forall i :: 0 <= i < p ==> !same(rows[i].0, name))
    requires p < |rows| ==> same(rows[p].0, name)
    ensures Upsert(rows, same, name, value) ==
            if p < |rows| then rows[p := (rows[p].0, value)] else rows + [(name, value)]
    decreases |rows|
  {
    if rows != [] && p > 0 {
      UpsertAt(rows[1..], same, name, value, p - 1);
      assert p < |rows| ==> rows[p := (rows[p].0, value)] == [rows[0]] + rows[1..][p - 1 := (rows[p].0, value)];
    }
  }

  lemma PerRowSnoc<K, V, S>(rows: seq<(K, V)>, f: ((K, V)) -> seq<S>, i: nat)
    requires i < |rows|
    ensures PerRow(rows[..i + 1], f) == PerRow(rows[..i], f) + f(rows[i])
  {
    assert rows[..i + 1][..i] == rows[..i];
  }

  /** The list of a foreign table's or foreign server's options. */
  class OptionList {
    var lstOptions: seq<Row>

    constructor (loaded: seq<Row>)
      ensures lstOptions == loaded
    {
      lstOptions := loaded;
    }

    method OnAddOption(name: string, value: string)
      modifies this
      ensures lstOptions == ApplyEdit(old(lstOptions), SameIgnoringCase, AddOption(name, value))
      ensures exists p :: OptionSetAt(p, old(lstOptions), name, value, lstOptions)
    {
      var pos := 0;
      while pos < |lstOptions| && !SameIgnoringCase(lstOptions[pos].0, name)
        invariant 0 <= pos <= |lstOptions| && lstOptions == old(lstOptions)
        invariant forall i :: 0 <= i < pos ==> !SameIgnoringCase(lstOptions[i].0, name)
      {
        pos := pos + 1;
      }
      UpsertAt(lstOptions, SameIgnoringCase, name, value, pos);
      forall i | 0 <= i <= pos && i < |lstOptions|
        ensures SameIgnoringCase(lstOptions[i].0, name) <==> SameLetters(lstOptions[i].0, name)
      {
        SameIgnoringCaseMeans(lstOptions[i].0, name);
      }
      if pos < |lstOptions| { lstOptions := lstOptions[pos := (lstOptions[pos].0, value)]; }
      else { lstOptions := lstOptions + [(name, value)]; }
      assert OptionSetAt(pos, old(lstOptions), name, value, lstOptions);
    }

    method OnRemoveOption(sel: int)
      modifies this
      ensures lstOptions == ApplyEdit(old(lstOptions), SameIgnoringCase, RemoveOption(sel))
      ensures lstOptions == if 0 <= sel < |old(lstOptions)| then old(lstOptions)[..sel] + old(lstOptions)[sel + 1..]
                            else old(lstOptions)
    {
      if 0 <= sel < |lstOptions| { lstOptions := lstOptions[..sel] + lstOptions[sel + 1..]; }
    }

    /** The position of the option in the list, or its length. */
    method FindRow(name: string) returns (pos: nat)
      ensures pos <= |lstOptions|
      ensures Find(lstOptions, name) == if pos < |lstOptions| then Some(lstOptions[pos].1) else None
    {
      pos := 0;
      while pos < |lstOptions| && lstOptions[pos].0 != name
        invariant pos <= |lstOptions| && forall i :: 0 <= i < pos ==> lstOptions[i].0 != name
      {
        pos := pos + 1;
      }
      FirstRowFound(lstOptions, name, pos);
    }

    /** SET if the list has another value for the server's option, DROP if it has none. */
    method EmitChange(o: Row, text: string, ghost script: seq<Clause>) returns (more: string, ghost longer: seq<Clause>)
      requires Printed(script, text)
      ensures longer == script + ChangeOf(lstOptions)(o) && Printed(longer, more)
    {
      more, longer := text, script;
      var pos := FindRow(o.0);
      if pos < |lstOptions| {
        if lstOptions[pos].1 != o.1 { more, longer := Emit(text, script, Set(o.0, lstOptions[pos].1)); }
      } else {
        more, longer := Emit(text, script, Drop(o.0));
      }
    }

    /** Compares the foreign table's option array with the list. */
    method GetOptionsSql(options: seq<Row>) returns (sqloptions: string)
      ensures sqloptions == OptionsText(options, lstOptions)
    {
      sqloptions := "";
      ghost var script: seq<Clause> := [];
      for index := 0 to |options|
        invariant script == PerRow(options[..index], ChangeOf(lstOptions)) && Printed(script, sqloptions)
      {
        PerRowSnoc(options, ChangeOf(lstOptions), index);
        sqloptions, script := EmitChange(options[index], sqloptions, script);
      }
      assert options[..|options|] == options;
      sqloptions, script := AddMissing(options, sqloptions, script);
    }

    method AddMissing(options: seq<Row>, text: string, ghost before: seq<Clause>)
      returns (sqloptions: string, ghost script: seq<Clause>)
      requires Printed(before, text)
      ensures script == before + PerRow(lstOptions, AdditionOf(options)) && Printed(script, sqloptions)
    {
      sqloptions, script := text, before;
      for pos := 0 to |lstOptions|
        invariant script == before + PerRow(lstOptions[..pos], AdditionOf(options)) && Printed(script, sqloptions)
      {
        var found := HasOption(options, lstOptions[pos].0);
        PerRowOnto(before, lstOptions, AdditionOf(options), pos);
        sqloptions, script := EmitAddition(found, lstOptions[pos], sqloptions, script);
      }
      assert lstOptions[..|lstOptions|] == lstOptions;
    }

    method HasOption(options: seq<Row>, name: string) returns (found: bool)
      ensures found <==> Find(options, name).Some?
    {
      var index := 0;
      found := false;
      while index < |options| && !found
        invariant 0 <= index <= |options|
        invariant found <==> exists i :: 0 <= i < index && options[i].0 == name
      {
        found := name == options[index].0;
        index := index + 1;
      }
      FindNone(options, name);
    }
  }

  lemma PerRowOnto(before: seq<Clause>, rows: seq<Row>, f: Row -> seq<Clause>, i: nat)
    requires i < |rows|
    ensures before + PerRow(rows[..i + 1], f) == (before + PerRow(rows[..i], f)) + f(rows[i])
  {
    PerRowSnoc(rows, f, i);
    Regroup(before, PerRow(rows[..i], f), f(rows[i]));
  }

  /** ADD for an option of the list that the server does not have. */
  method EmitAddition(found: bool, row: Row, text: string, ghost script: seq<Clause>)
    returns (more: string, ghost longer: seq<Clause>)
    requires Printed(script, text)
    ensures longer == script + (if found then [] else [Add(row.0, row.1)]) && Printed(longer, more)
  {
    more, longer := text, script;
    if !found { more, longer := Emit(text, script, Add(row.0, row.1)); }
  }

  /** The text so far is that of the script so far. */
  ghost predicate Printed(script: seq<Clause>, text: string)
  {
    (forall i :: 0 <= i < |script| ==> IsClause(script[i])) && text == PrintScript(script)
  }

  /** Appends a clause, after a comma unless it is the first. */
  method Emit(text: string, ghost script: seq<Clause>, s: Clause) returns (more: string, ghost longer: seq<Clause>)
    requires IsClause(s) && Printed(script, text)
    ensures longer == script + [s] && Printed(longer, more)
  {
    more, longer := text, script + [s];
    if |more| > 0 { more := more + ", "; }
    more := more + PrintClause(s);
    PrintOneMore(script, s);
  }

  /** The panel of security labels, one per provider. */
  class SeclabelPanel {
    var lbSeclabels: seq<Row>

    constructor (loaded: seq<Row>)
      ensures lbSeclabels == loaded
    {
      lbSeclabels := loaded;
    }

    method OnAddSeclabel(provider: string, label': string)
      modifies this
      ensures lbSeclabels == ApplyEdit(old(lbSeclabels), SameProvider, AddOption(provider, label'))
      ensures exists p :: LabelSetAt(p, old(lbSeclabels), provider, label', lbSeclabels)
    {
      var pos := 0;
      while pos < |lbSeclabels| && lbSeclabels[pos].0 != provider
        invariant 0 <= pos <= |lbSeclabels| && lbSeclabels == old(lbSeclabels)
        invariant forall i :: 0 <= i < pos ==> !SameProvider(lbSeclabels[i].0, provider)
      {
        pos := pos + 1;
      }
      UpsertAt(lbSeclabels, SameProvider, provider, label', pos);
      if pos < |lbSeclabels| { lbSeclabels := lbSeclabels[pos := (lbSeclabels[pos].0, label')]; }
      else { lbSeclabels := lbSeclabels + [(provider, label')]; }
      assert LabelSetAt(pos, old(lbSeclabels), provider, label', lbSeclabels);
    }

    method OnDelSeclabel(selected: int)
      modifies this
      ensures lbSeclabels == ApplyEdit(old(lbSeclabels), SameProvider, RemoveOption(selected))
      ensures lbSeclabels == if 0 <= selected < |old(lbSeclabels)|
                             then old(lbSeclabels)[..selected] + old(lbSeclabels)[selected + 1..]
                             else old(lbSeclabels)
    {
      if 0 <= selected < |lbSeclabels| { lbSeclabels := lbSeclabels[..selected] + lbSeclabels[selected + 1..]; }
    }

    /** The labels of an existing object against the panel, or all of the panel for a new one. */
    method GetSqlForSecLabels(object': Option<seq<Row>>) returns (sql: seq<Stmt<string, string>>)
      requires object'.Some? ==> Distinct(object'.value)
      ensures sql == LabelsScript(if object'.Some? then object'.value else [], lbSeclabels)
    {
      if object'.Some? {
        sql := LabelRows(object'.value);
        var removed := Unlabel(object'.value);
        sql := sql + removed;
      } else {
        sql := [];
        for indexList := 0 to |lbSeclabels|
          invariant sql == PerRow(lbSeclabels[..indexList], LabelOf([]))
        {
          PerRowSnoc(lbSeclabels, LabelOf([]), indexList);
          sql := sql + [Put(lbSeclabels[indexList].0, lbSeclabels[indexList].1)];
        }
        assert lbSeclabels[..|lbSeclabels|] == lbSeclabels;
      }
    }

    /** New or changed labels; the inner loop runs to the end of the array. */
    method LabelRows(seclabels: seq<Row>) returns (sql: seq<Stmt<string, string>>)
      requires Distinct(seclabels)
      ensures sql == PerRow(lbSeclabels, LabelOf(seclabels))
    {
      sql := [];
      for indexList := 0 to |lbSeclabels|
        invariant sql == PerRow(lbSeclabels[..indexList], LabelOf(seclabels))
      {
        var stmts := LabelRow(seclabels, lbSeclabels[indexList]);
        PerRowSnoc(lbSeclabels, LabelOf(seclabels), indexList);
        sql := sql + stmts;
      }
      assert lbSeclabels[..|lbSeclabels|] == lbSeclabels;
    }

    method LabelRow(seclabels: seq<Row>, row: Row) returns (sql: seq<Stmt<string, string>>)
      requires Distinct(seclabels)
      ensures sql == LabelOf(seclabels)(row)
    {
      sql := [];
      var found := false;
      ghost var at: nat := |seclabels|;
      for indexArray := 0 to |seclabels|
        invariant !found ==> sql == [] && at == |seclabels|
        invariant !found ==> forall i :: 0 <= i < indexArray ==> seclabels[i].0 != row.0
        invariant found ==> at < indexArray && seclabels[at].0 == row.0
        invariant found ==> sql == if seclabels[at].1 != row.1 then [Put(row.0, row.1)] else []
      {
        if seclabels[indexArray].0 == row.0 {
          found, at := true, indexArray;
          if seclabels[indexArray].1 != row.1 { sql := sql + [Put(row.0, row.1)]; }
        }
      }
      if found { FindAt(seclabels, at); } else { FindNone(seclabels, row.0); }
      if !found { sql := sql + [Put(row.0, row.1)]; }
    }

    method Unlabel(seclabels: seq<Row>) returns (sql: seq<Stmt<string, string>>)
      ensures sql == PerRow(seclabels, UnlabelOf(lbSeclabels))
    {
      sql := [];
      for indexArray := 0 to |seclabels|
        invariant sql == PerRow(seclabels[..indexArray], UnlabelOf(lbSeclabels))
      {
        var found := false;
        for indexList := 0 to |lbSeclabels|
          invariant found <==> exists i :: 0 <= i < indexList && lbSeclabels[i].0 == seclabels[indexArray].0
        {
          if seclabels[indexArray].0 == lbSeclabels[indexList].0 { found := true; }
        }
        FindNone(lbSeclabels, seclabels[indexArray].0);
        PerRowSnoc(seclabels, UnlabelOf(lbSeclabels), indexArray);
        if !found { sql := sql + [Drop(seclabels[indexArray].0)]; }
      }
      assert seclabels[..|seclabels|] == seclabels;
    }
  }
}
