/**
 * Configuration variables of a database, per role and variable name: editing the list and comparing
 * it with the server's. An empty role stands for the database itself. Values are put between quotes
 * as they are, except those of two variables that hold lists and are printed without quotes.
 */
module DatabaseVariables {
  import opened Basics
  import opened SyncScript
  import OptionDialogs
  import SqlText

  type Key = (string, string)
  type Row = (Key, string)

  // ----- editing

  /** Position of the last row for the same variable and another role, or -1. */
  function LastOfOtherRole(rows: seq<Row>, key: Key): int
    ensures -1 <= LastOfOtherRole(rows, key) < |rows|
  {
    if rows == [] then -1
    else if rows[|rows| - 1].0.1 == key.1 && rows[|rows| - 1].0.0 != key.0 then |rows| - 1
    else LastOfOtherRole(rows[..|rows| - 1], key)
  }

  /** Gives every row with the key the new value. */
  function Overwrite(rows: seq<Row>, key: Key, value: string): (r: seq<Row>)
    ensures |r| == |rows|
    ensures forall i :: 0 <= i < |rows| ==> r[i] == if rows[i].0 == key then (key, value) else rows[i]
  {
    seq(|rows|, i requires 0 <= i < |rows| => if rows[i].0 == key then (key, value) else rows[i])
  }

  /** What the list shows for a text typed into the field. */
  function StoredValue(text: string): (value: string)
    ensures value != "" && Trimmed(value)
  {
    TrimTrims(text, ' ');
    if Trim(text) == "" then "DEFAULT" else Trim(text)
  }

  function AddVariable(rows: seq<Row>, key: Key, value: string): seq<Row>
  {
    if key.1 == "" then rows
    else if Find(rows, key).Some? then Overwrite(rows, key, StoredValue(value))
    else
      var prev := LastOfOtherRole(rows, key);
      if prev != -1 then rows[..prev] + [(key, StoredValue(value))] + rows[prev..]
      else rows + [(key, StoredValue(value))]
  }

  datatype Edit = VarAdd(key: Key, value: string) | VarRemove(pos: int)

  function ApplyEdit(rows: seq<Row>, e: Edit): seq<Row>
  {
    match e
    case VarAdd(key, value) => AddVariable(rows, key, value)
    case VarRemove(pos) => OptionDialogs.RemoveRow(rows, pos)
  }

  function Edited(loaded: seq<Row>, edits: seq<Edit>): seq<Row>
    decreases |edits|
  {
    if edits == [] then loaded else ApplyEdit(Edited(loaded, edits[..|edits| - 1]), edits[|edits| - 1])
  }

  /** Every row was loaded or has a value that was typed: not empty and without blanks at its ends. */
  ghost predicate LoadedOrTyped(loaded: seq<Row>, rows: seq<Row>)
  {
    forall i :: 0 <= i < |rows| ==> rows[i] in loaded || (rows[i].1 != "" && Trimmed(rows[i].1))
  }

  lemma InsertKeeps(loaded: seq<Row>, rows: seq<Row>, p: nat, row: Row)
    requires Distinct(rows) && LoadedOrTyped(loaded, rows) && p <= |rows| && row.1 != "" && Trimmed(row.1)
    requires forall i :: 0 <= i < |rows| ==> rows[i].0 != row.0
    ensures Distinct(rows[..p] + [row] + rows[p..]) && LoadedOrTyped(loaded, rows[..p] + [row] + rows[p..])
  {
    var r := rows[..p] + [row] + rows[p..];
    assert forall i :: 0 <= i < |r| ==> r[i] == if i < p then rows[i] else if i == p then row else rows[i - 1];
  }

  lemma AddKeeps(loaded: seq<Row>, rows: seq<Row>, key: Key, value: string)
    requires Distinct(rows) && LoadedOrTyped(loaded, rows)
    ensures Distinct(AddVariable(rows, key, value)) && LoadedOrTyped(loaded, AddVariable(rows, key, value))
  {
    FindNone(rows, key);
    var row := (key, StoredValue(value));
    var prev := LastOfOtherRole(rows, key);
    if Find(rows, key).None? {
      InsertKeeps(loaded, rows, if prev != -1 then prev else |rows|, row);
      assert rows[..|rows|] + [row] + rows[|rows|..] == rows + [row];
    }
  }

  lemma RemoveKeeps(loaded: seq<Row>, rows: seq<Row>, pos: int)
    requires Distinct(rows) && LoadedOrTyped(loaded, rows)
    ensures Distinct(OptionDialogs.RemoveRow(rows, pos)) && LoadedOrTyped(loaded, OptionDialogs.RemoveRow(rows, pos))
  {
    var r := OptionDialogs.RemoveRow(rows, pos);
    if 0 <= pos < |rows| {
      assert forall i :: 0 <= i < |r| ==> r[i] == if i < pos then rows[i] else rows[i + 1];
    }
  }

  lemma {:induction false} InsertFinds(rows: seq<Row>, p: nat, row: Row, j: Key)
    requires p <= |rows| && forall i :: 0 <= i < |rows| ==> rows[i].0 != row.0
    ensures Find(rows[..p] + [row] + rows[p..], j) == if j == row.0 then Some(row.1) else Find(rows, j)
    decreases p
  {
    var r := rows[..p] + [row] + rows[p..];
    if p == 0 { assert r[1..] == rows; FindNone(rows, row.0); }
    else {
      InsertFinds(rows[1..], p - 1, row, j);
      assert r[1..] == rows[1..][..p - 1] + [row] + rows[1..][p - 1..];
    }
  }

  lemma {:induction false} OverwriteFinds(rows: seq<Row>, key: Key, value: string, j: Key)
    ensures Find(Overwrite(rows, key, value), j) ==
            if j == key && Find(rows, key).Some? then Some(value) else Find(rows, j)
    decreases |rows|
  {
    if rows != [] {
      OverwriteFinds(rows[1..], key, value, j);
      assert Overwrite(rows, key, value)[1..] == Overwrite(rows[1..], key, value);
    }
  }

  /** v is the text without the blanks around it. */
  ghost predicate TypedAs(text: string, v: string)
  {
    exists l, r :: text == l + v + r && Blank(l) && Blank(r) && Trimmed(v)
  }

  lemma TypedIsStored(text: string, v: string)
    requires TypedAs(text, v)
    ensures StoredValue(text) == if v == "" then "DEFAULT" else v
  {
    var l, r :| text == l + v + r && Blank(l) && Blank(r) && Trimmed(v);
    TrimOfPadded(l, v, r);
  }

  /** Every text is typed as one value, which is empty for blanks only. */
  lemma EveryTextIsTyped(text: string) returns (v: string)
    ensures TypedAs(text, v) && forall w :: TypedAs(text, w) ==> w == v
    ensures Blank(text) ==> v == ""
  {
    var l := BlankBefore(text);
    var r := BlankAfter(TrimLeft(text));
    v := Trim(text);
    TrimTrims(text, ' ');
    assert text == l + v + r;
    forall w | TypedAs(text, w) ensures w == v {
      var a, b :| text == a + w + b && Blank(a) && Blank(b) && Trimmed(w);
      TrimOfPadded(a, w, b);
    }
    if Blank(text) { assert TypedAs(text, "") by { assert text == text + "" + "" && Blank(""); } }
  }

  /**
   * What adding does to the list: nothing without a name; the value typed, without blanks around it or
   * DEFAULT for blanks only, in the place of the old one; and for a new role a row just before the last
   * row of the same variable, or at the end.
   */
  ghost predicate Added(rows: seq<Row>, key: Key, value: string, after: seq<Row>)
  {
    if key.1 == "" then after == rows
    else if exists i :: 0 <= i < |rows| && rows[i].0 == key then
      && |after| == |rows|
      && forall i :: 0 <= i < |rows| ==> after[i] == if rows[i].0 == key then (key, value) else rows[i]
    else
      exists p :: 0 <= p <= |rows| && after == rows[..p] + [(key, value)] + rows[p..]
                  && (p < |rows| ==> rows[p].0.1 == key.1)
                  && forall i :: (if p < |rows| then p + 1 else 0) <= i < |rows| ==> rows[i].0.1 != key.1
  }

  /** Adding gives the key what was typed, or DEFAULT for blanks only, and leaves the other keys alone. */
  lemma AddVariableSetsOneKey(rows: seq<Row>, key: Key, text: string, v: string, j: Key)
    requires key.1 != "" && TypedAs(text, v)
    ensures Find(AddVariable(rows, key, text), j) ==
            if j != key then Find(rows, j) else Some(if v == "" then "DEFAULT" else v)
  {
    TypedIsStored(text, v);
    var row := (key, StoredValue(text));
    if Find(rows, key).Some? { OverwriteFinds(rows, key, row.1, j); }
    else {
      var prev := LastOfOtherRole(rows, key);
      FindNone(rows, key);
      InsertFinds(rows, if prev != -1 then prev else |rows|, row, j);
      assert rows[..|rows|] + [row] + rows[|rows|..] == rows + [row];
    }
  }

  lemma {:induction false} LastOfOtherRoleIsLast(rows: seq<Row>, key: Key)
    ensures var p := LastOfOtherRole(rows, key);
            && (p != -1 ==> rows[p].0.1 == key.1 && rows[p].0.0 != key.0)
            && forall i :: p < i < |rows| ==> rows[i].0.1 != key.1 || rows[i].0 == key
    decreases |rows|
  {
    if rows != [] && !(rows[|rows| - 1].0.1 == key.1 && rows[|rows| - 1].0.0 != key.0) {
      LastOfOtherRoleIsLast(rows[..|rows| - 1], key);
      assert forall i :: 0 <= i < |rows| - 1 ==> rows[..|rows| - 1][i] == rows[i];
    }
  }

  /** For every text, adding does just that. */
  lemma AddVariableAdds(rows: seq<Row>, key: Key, text: string, v: string)
    requires TypedAs(text, v)
    ensures Added(rows, key, if v == "" then "DEFAULT" else v, AddVariable(rows, key, text))
  {
    TypedIsStored(text, v);
    FindNone(rows, key);
    LastOfOtherRoleIsLast(rows, key);
    var value, after := StoredValue(text), AddVariable(rows, key, text);
    if key.1 != "" && Find(rows, key).None? {
      var prev := LastOfOtherRole(rows, key);
      var p := if prev != -1 then prev else |rows|;
      assert rows[..|rows|] + [(key, value)] + rows[|rows|..] == rows + [(key, value)];
      assert after == rows[..p] + [(key, value)] + rows[p..];
    }
  }

  /** Whatever is added or removed, keys stay distinct and every value was loaded or typed. */
  lemma {:induction false} EditsKeepOrder(loaded: seq<Row>, edits: seq<Edit>)
    requires Distinct(loaded)
    ensures Distinct(Edited(loaded, edits)) && LoadedOrTyped(loaded, Edited(loaded, edits))
    decreases |edits|
  {
    if edits != [] {
      var rows, e := Edited(loaded, edits[..|edits| - 1]), edits[|edits| - 1];
      EditsKeepOrder(loaded, edits[..|edits| - 1]);
      if e.VarAdd? { AddKeeps(loaded, rows, e.key, e.value); } else { RemoveKeeps(loaded, rows, e.pos); }
    }
  }

  // ----- the statements

  /** SET with the value between quotes or as it is, and RESET. */
  datatype VarStmt = SetQuoted(key: Key, text: string) | SetBare(key: Key, text: string) | Reset(key: Key)

  predicate HoldsList(name: string)
  {
    name == "search_path" || name == "temp_tablespaces"
  }

  function SetStmt(row: Row): VarStmt
  {
    if !HoldsList(row.0.1) then SetQuoted(row.0, row.1) else SetBare(row.0, row.1)
  }

  predicate IsDefaultWord(text: string)
  {
    Lower(Trim(text)) == "default"
  }

  /** What the server makes of a statement: DEFAULT without quotes, in any case, means reset. */
  function Understood(s: VarStmt): (u: Stmt<Key, string>)
    ensures u.key == s.key
  {
    match s
    case SetQuoted(key, text) =>
      (match SqlText.DecodeLiteral("'" + text + "'", false)
       case None => Malformed(key)
       case Some((value, rest)) => if rest == "" then Put(key, value) else Malformed(key))
    case SetBare(key, text) =>
      if Trim(text) == "" then Malformed(key) else if IsDefaultWord(text) then Clear(key) else Put(key, text)
    case Reset(key) => Drop(key)
  }

  function UnderstoodAll(script: seq<VarStmt>): (r: seq<Stmt<Key, string>>)
    ensures |r| == |script|
  {
    if script == [] then [] else [Understood(script[0])] + UnderstoodAll(script[1..])
  }

  /** The value reaches the server as it is shown. */
  predicate Survives(row: Row)
  {
    if HoldsList(row.0.1) then Trim(row.1) != "" && !IsDefaultWord(row.1) else '\'' !in row.1
  }

  /** A row survives if and only if the server takes its SET statement for one to that value. */
  lemma SurvivesIfUnderstood(row: Row)
    ensures Survives(row) <==> Understood(SetStmt(row)) == Put(row.0, row.1)
  {
    if !HoldsList(row.0.1) {
      SqlText.RawReadsBack(row.1, '\'', "");
      var t := "'" + row.1 + "'";
      assert t[1..] == row.1 + ['\''] + "";
    }
  }

  lemma {:induction false} UnderstoodConcat(a: seq<VarStmt>, b: seq<VarStmt>)
    ensures UnderstoodAll(a + b) == UnderstoodAll(a) + UnderstoodAll(b)
    decreases |a|
  {
    if a == [] { assert a + b == b; }
    else {
      assert (a + b)[1..] == a[1..] + b;
      UnderstoodConcat(a[1..], b);
    }
  }

  /** Understanding a pass over rows is a pass that emits what is understood. */
  lemma {:induction false} UnderstoodPerRow(rows: seq<Row>, f: Row -> seq<VarStmt>, g: Row -> seq<Stmt<Key, string>>)
    requires forall row :: g(row) == UnderstoodAll(f(row))
    ensures UnderstoodAll(PerRow(rows, f)) == PerRow(rows, g)
    decreases |rows|
  {
    if rows != [] {
      UnderstoodPerRow(rows[..|rows| - 1], f, g);
      UnderstoodConcat(PerRow(rows[..|rows| - 1], f), f(rows[|rows| - 1]));
    }
  }

  // ----- the script

  /** The server's value, which the code takes as empty for a missing one. */
  function OldValue(old': seq<Row>, key: Key): string
  {
    if Find(old', key).Some? then Find(old', key).value else ""
  }

  function SetOf(old': seq<Row>): Row -> seq<VarStmt>
  {
    (row: Row) => if OldValue(old', row.0) != row.1 then [SetStmt(row)] else []
  }

  function ResetOf(): Row -> seq<VarStmt>
  {
    (o: Row) => [Reset(o.0)]
  }

  function SetMeant(old': seq<Row>): Row -> seq<Stmt<Key, string>>
  {
    (row: Row) => if OldValue(old', row.0) != row.1 then [Understood(SetStmt(row))] else []
  }

  function ResetMeant(): Row -> seq<Stmt<Key, string>>
  {
    (o: Row) => [Drop(o.0)]
  }

  /** The rows without the first one that has the key. */
  function Without(rows: seq<Row>, k: Key): seq<Row>
  {
    if rows == [] then [] else if rows[0].0 == k then rows[1..] else [rows[0]] + Without(rows[1..], k)
  }

  /** What is left of the server's rows once those of the edited list are taken out. */
  function Remaining(old': seq<Row>, rows: seq<Row>): seq<Row>
    decreases |rows|
  {
    if rows == [] then old' else Without(Remaining(old', rows[..|rows| - 1]), rows[|rows| - 1].0)
  }

  /** SET for new or changed variables in list order, then RESET for what is left of the server's. */
  function VariablesScript(old': seq<Row>, rows: seq<Row>): seq<VarStmt>
  {
    PerRow(rows, SetOf(old')) + PerRow(Remaining(old', rows), ResetOf())
  }

  lemma {:induction false} WithoutFinds(rows: seq<Row>, k: Key, j: Key)
    requires Distinct(rows)
    ensures Distinct(Without(rows, k)) && Find(Without(rows, k), j) == if j == k then None else Find(rows, j)
    ensures forall i :: 0 <= i < |Without(rows, k)| ==> Without(rows, k)[i] in rows
  {
    if rows != [] {
      WithoutFinds(rows[1..], k, j);
      if rows[0].0 == k { FindNone(rows[1..], k); }
      else {
        var rest := Without(rows[1..], k);
        forall i | 0 <= i < |rest| ensures rest[i].0 != rows[0].0 { assert rest[i] in rows[1..]; }
      }
    }
  }

  lemma {:induction false} RemainingFinds(old': seq<Row>, rows: seq<Row>, j: Key)
    requires Distinct(old')
    ensures Distinct(Remaining(old', rows))
    ensures Find(Remaining(old', rows), j) == if Find(rows, j).Some? then None else Find(old', j)
    decreases |rows|
  {
    if rows != [] {
      var init := rows[..|rows| - 1];
      RemainingFinds(old', init, j);
      WithoutFinds(Remaining(old', init), rows[|rows| - 1].0, j);
      FindNone(rows, j);
      FindNone(init, j);
      if rows[|rows| - 1].0 != j && Find(init, j).None? {
        assert forall i :: 0 <= i < |rows| ==> rows[i].0 != j;
      }
      if Find(init, j).Some? {
        var i :| 0 <= i < |init| && init[i] == (j, Find(init, j).value);
        assert rows[i].0 == j;
      }
    }
  }

  /** A row not yet compared finds its old value in what remains. */
  lemma FindInRemaining(old': seq<Row>, rows: seq<Row>, pos: nat)
    requires Distinct(old') && Distinct(rows) && pos < |rows|
    ensures Find(Remaining(old', rows[..pos]), rows[pos].0) == Find(old', rows[pos].0)
  {
    RemainingFinds(old', rows[..pos], rows[pos].0);
    FindNone(rows[..pos], rows[pos].0);
  }

  lemma ScriptMeans(old': seq<Row>, rows: seq<Row>)
    ensures UnderstoodAll(VariablesScript(old', rows)) ==
            PerRow(rows, SetMeant(old')) + PerRow(Remaining(old', rows), ResetMeant())
  {
    forall row: Row
      ensures SetMeant(old')(row) == UnderstoodAll(SetOf(old')(row))
      ensures ResetMeant()(row) == UnderstoodAll(ResetOf()(row))
    {
      assert UnderstoodAll([]) == [];
      assert UnderstoodAll([SetStmt(row)]) == [Understood(SetStmt(row))] + UnderstoodAll([]);
      assert UnderstoodAll([Reset(row.0)]) == [Drop(row.0)] + UnderstoodAll([]);
    }
    UnderstoodPerRow(rows, SetOf(old'), SetMeant(old'));
    UnderstoodPerRow(Remaining(old', rows), ResetOf(), ResetMeant());
    UnderstoodConcat(PerRow(rows, SetOf(old')), PerRow(Remaining(old', rows), ResetOf()));
  }

  /** The statements on one key, as the server takes them. */
  lemma StatementsOnKey(old': seq<Row>, rows: seq<Row>, k: Key)
    requires Distinct(old') && Distinct(rows)
    ensures OnKey(UnderstoodAll(VariablesScript(old', rows)), k) ==
            if Find(rows, k).Some? then SetMeant(old')((k, Find(rows, k).value))
            else if Find(old', k).Some? then [Drop(k)] else []
  {
    var sets, resets := PerRow(rows, SetMeant(old')), PerRow(Remaining(old', rows), ResetMeant());
    ScriptMeans(old', rows);
    OnKeyConcat(sets, resets, k);
    SetsOnKey(old', rows, k);
    ResetsOnKey(old', rows, k);
  }

  lemma SetsOnKey(old': seq<Row>, rows: seq<Row>, k: Key)
    requires Distinct(rows)
    ensures OnKey(PerRow(rows, SetMeant(old')), k) ==
            if Find(rows, k).Some? then SetMeant(old')((k, Find(rows, k).value)) else []
  {
    OnKeyPerRow(rows, SetMeant(old'), k);
  }

  lemma ResetsOnKey(old': seq<Row>, rows: seq<Row>, k: Key)
    requires Distinct(old')
    ensures OnKey(PerRow(Remaining(old', rows), ResetMeant()), k) ==
            if Find(rows, k).None? && Find(old', k).Some? then [Drop(k)] else []
  {
    RemainingFinds(old', rows, k);
    OnKeyPerRow(Remaining(old', rows), ResetMeant(), k);
  }

  /** The row changes nothing, or its new value reaches the server; a new one is not empty. */
  predicate RowReaches(old': seq<Row>, row: Row)
  {
    if OldValue(old', row.0) != row.1 then Survives(row) else row.1 == "" ==> Find(old', row.0).Some?
  }

  /** On one key the script is right if and only if the row shown for it, if any, reaches the server. */
  lemma ScriptOnKey(old': seq<Row>, rows: seq<Row>, k: Key)
    requires Distinct(old') && Distinct(rows)
    ensures var stmts := OnKey(UnderstoodAll(VariablesScript(old', rows)), k);
            && (RunOnKey(Find(old', k), stmts) == Some(Find(rows, k)) <==>
                  (Find(rows, k).Some? ==> RowReaches(old', (k, Find(rows, k).value))))
            && (Find(old', k) == Find(rows, k) ==> stmts == [])
            && (stmts == [] ==> Find(old', k) == Find(rows, k) || (Find(old', k).None? && Find(rows, k) == Some("")))
  {
    StatementsOnKey(old', rows, k);
    if Find(rows, k).Some? { ShownKey(old', (k, Find(rows, k).value)); } else { HiddenKey(Find(old', k), k); }
  }

  lemma ShownKey(old': seq<Row>, row: Row)
    ensures var before, stmts := Find(old', row.0), SetMeant(old')(row);
            && (RunOnKey(before, stmts) == Some(Some(row.1)) <==> RowReaches(old', row))
            && (before == Some(row.1) ==> stmts == [])
            && (stmts == [] ==> before == Some(row.1) || (before.None? && row.1 == ""))
  {
    SurvivesIfUnderstood(row);
    SetRuns(Find(old', row.0), row);
  }

  lemma HiddenKey(before: Option<string>, k: Key)
    ensures RunOnKey(before, if before.Some? then [Drop(k)] else []) == Some(None)
  {
    var drop: Stmt<Key, string> := Drop(k);
    assert [drop][1..] == [];
  }

  lemma SetRuns(before: Option<string>, row: Row)
    ensures RunOnKey(before, [Understood(SetStmt(row))]) == Some(Some(row.1)) <==>
            Understood(SetStmt(row)) == Put(row.0, row.1)
  {
    var u := Understood(SetStmt(row));
    assert [u][1..] == [];
    assert RunOnKey(before, [u]) == Effect(before, u);
  }

  ghost predicate ScriptRight(old': seq<Row>, rows: seq<Row>)
  {
    Run(ToMap(old'), UnderstoodAll(VariablesScript(old', rows))) == Some(ToMap(rows))
  }

  lemma RightMeansReached(old': seq<Row>, rows: seq<Row>, i: nat)
    requires Distinct(old') && Distinct(rows) && ScriptRight(old', rows) && i < |rows|
    ensures RowReaches(old', rows[i])
  {
    var script, k := UnderstoodAll(VariablesScript(old', rows)), rows[i].0;
    EveryKeyRuns(ToMap(old'), script, k);
    FindAt(rows, i);
    LookupIsFind(old', k);
    LookupIsFind(rows, k);
    ScriptOnKey(old', rows, k);
  }

  lemma ReachedMeansRight(old': seq<Row>, rows: seq<Row>)
    requires Distinct(old') && Distinct(rows) && forall i :: 0 <= i < |rows| ==> RowReaches(old', rows[i])
    ensures ScriptRight(old', rows) && (VariablesScript(old', rows) == [] <==> ToMap(old') == ToMap(rows))
  {
    var script := UnderstoodAll(VariablesScript(old', rows));
    forall k ensures ExactOn(script, k, Lookup(ToMap(old'), k), Lookup(ToMap(rows), k)) {
      ScriptOnKey(old', rows, k);
      LookupIsFind(old', k);
      LookupIsFind(rows, k);
      FindNone(rows, k);
    }
    ExactScriptSynchronises(script, ToMap(old'), ToMap(rows));
  }

  /**
   * The script ends at exactly the edited variables if and only if every row reaches the server: a
   * changed value of a list variable is neither empty nor DEFAULT, any other changed value holds no
   * quote, and an empty value occurs only under a key that the server has.
   */
  lemma VariablesScriptExactWhen(old': seq<Row>, rows: seq<Row>)
    requires Distinct(old') && Distinct(rows)
    ensures ScriptRight(old', rows) <==> forall i :: 0 <= i < |rows| ==> RowReaches(old', rows[i])
  {
    if forall i :: 0 <= i < |rows| ==> RowReaches(old', rows[i]) { ReachedMeansRight(old', rows); }
    if ScriptRight(old', rows) {
      forall i | 0 <= i < |rows| ensures RowReaches(old', rows[i]) { RightMeansReached(old', rows, i); }
    }
  }

  /** A value that was loaded or typed reaches the server unless it changes to one of the bad ones. */
  predicate TypedWell(old': seq<Row>, row: Row)
  {
    OldValue(old', row.0) != row.1 ==>
      if HoldsList(row.0.1) then Lower(row.1) != "default" else '\'' !in row.1
  }

  lemma TypedRowReaches(old': seq<Row>, row: Row)
    requires Distinct(old') && (row in old' || (row.1 != "" && Trimmed(row.1)))
    ensures RowReaches(old', row) <==> TypedWell(old', row)
  {
    if row in old' {
      var i :| 0 <= i < |old'| && old'[i] == row;
      FindAt(old', i);
    } else {
      TrimmedStays(row.1);
    }
  }

  /**
   * For every sequence of edits of the loaded list: the script is right if and only if no changed list
   * variable shows DEFAULT, in any case, and no other changed value holds a quote. It is empty if and
   * only if nothing changed.
   */
  lemma VariablesSynchronised(old': seq<Row>, edits: seq<Edit>)
    requires Distinct(old')
    ensures var rows := Edited(old', edits);
            && (ScriptRight(old', rows) <==> forall i :: 0 <= i < |rows| ==> TypedWell(old', rows[i]))
            && (VariablesScript(old', rows) == [] <==> ToMap(old') == ToMap(rows))
  {
    var rows := Edited(old', edits);
    EditsKeepOrder(old', edits);
    VariablesScriptExactWhen(old', rows);
    forall i | 0 <= i < |rows| ensures RowReaches(old', rows[i]) <==> TypedWell(old', rows[i]) {
      TypedRowReaches(old', rows[i]);
    }
    EmptyWhenUnchanged(old', rows);
  }

  lemma EmptyWhenUnchanged(old': seq<Row>, rows: seq<Row>)
    requires Distinct(old') && Distinct(rows) && LoadedOrTyped(old', rows)
    ensures VariablesScript(old', rows) == [] <==> ToMap(old') == ToMap(rows)
  {
    var script := UnderstoodAll(VariablesScript(old', rows));
    if script == [] {
      forall k ensures Lookup(ToMap(old'), k) == Lookup(ToMap(rows), k) { EmptyOnKey(old', rows, k); }
      SameLookups(ToMap(old'), ToMap(rows));
    } else if ToMap(old') == ToMap(rows) {
      KeyOfStatementOccurs(script, 0);
      var k := script[0].key;
      LookupIsFind(old', k);
      LookupIsFind(rows, k);
      ScriptOnKey(old', rows, k);
    }
  }

  lemma EmptyOnKey(old': seq<Row>, rows: seq<Row>, k: Key)
    requires Distinct(old') && Distinct(rows) && LoadedOrTyped(old', rows) && VariablesScript(old', rows) == []
    ensures Lookup(ToMap(old'), k) == Lookup(ToMap(rows), k)
  {
    ScriptOnKey(old', rows, k);
    LookupIsFind(old', k);
    LookupIsFind(rows, k);
    FindNone(rows, k);
    FindNone(old', k);
  }

  /** An empty text for a loaded search path shows DEFAULT, but the statement removes the setting. */
  lemma DefaultSearchPathIsReset(role: string, loaded: string)
    requires loaded != "DEFAULT"
    ensures var key := (role, "search_path");
            var old': seq<Row> := [(key, loaded)];
            var rows := Edited(old', [VarAdd(key, "")]);
            && rows == [(key, "DEFAULT")] && VariablesScript(old', rows) == [SetBare(key, "DEFAULT")]
            && Run(ToMap(old'), UnderstoodAll(VariablesScript(old', rows))) == Some(map[])
  {
    var key := (role, "search_path");
    var old': seq<Row> := [(key, loaded)];
    var edits := [VarAdd(key, "")];
    var rows := Edited(old', edits);
    assert |edits| == 1 && edits[..|edits| - 1] == [] && Edited(old', edits[..|edits| - 1]) == old';
    assert rows == ApplyEdit(old', edits[0]) == [(key, "DEFAULT")];
    assert rows[..0] == [];
    assert PerRow(rows, SetOf(old')) == PerRow(rows[..0], SetOf(old')) + SetOf(old')(rows[0]);
    assert Remaining(old', rows) == Without(Remaining(old', rows[..0]), key) == [];
    var script := VariablesScript(old', rows);
    assert script == [SetBare(key, "DEFAULT")] && script[1..] == [];
    assert Lower("DEFAULT") == "default";
    TrimmedStays("DEFAULT");
    assert UnderstoodAll(script) == [Clear(key)];
    assert ToMap(old') - {key} == map[];
    assert Run(ToMap(old') - {key}, [Clear(key)][1..]) == Some(map[]);
  }

  /** Without the edits' guarantee a new variable with an empty value would be lost. */
  lemma EmptyNewVariableIsLost()
    ensures var rows: seq<Row> := [(("", "work_mem"), "")];
            VariablesScript([], rows) == [] && ToMap(rows) != ToMap([])
  {
    var rows: seq<Row> := [(("", "work_mem"), "")];
    var none: seq<Row> := [];
    assert SetOf(none)(rows[0]) == [];
    assert rows[..0] == [];
    assert PerRow(rows, SetOf(none)) == PerRow(rows[..0], SetOf(none)) + SetOf(none)(rows[0]);
    assert Remaining(none, rows) == Without(none, rows[0].0) == [];
    assert ("", "work_mem") in ToMap(rows);
  }

  // ----- the dialog

  class VariableList {
    var lstVariables: seq<Row>

    constructor (loaded: seq<Row>)
      ensures lstVariables == loaded
    {
      lstVariables := loaded;
    }

    method OnVarAdd(key: Key, text: string)
      modifies this
      ensures lstVariables == ApplyEdit(old(lstVariables), VarAdd(key, text))
      ensures forall v {:trigger TypedAs(text, v)} :: TypedAs(text, v) ==>
                && Added(old(lstVariables), key, if v == "" then "DEFAULT" else v, lstVariables)
                && (key.1 != "" ==> Find(lstVariables, key) == Some(if v == "" then "DEFAULT" else v))
    {
      var value := Trim(text);
      if value == "" { value := "DEFAULT"; }
      if key.1 != "" {
        var found, prevpos := OverwriteRows(key, value);
        if !found {
          if prevpos != -1 { lstVariables := lstVariables[..prevpos] + [(key, value)] + lstVariables[prevpos..]; }
          else { lstVariables := lstVariables + [(key, value)]; }
        }
      }
      forall v {:trigger TypedAs(text, v)} | TypedAs(text, v)
        ensures Added(old(lstVariables), key, if v == "" then "DEFAULT" else v, lstVariables)
        ensures key.1 != "" ==> Find(lstVariables, key) == Some(if v == "" then "DEFAULT" else v)
      {
        AddVariableAdds(old(lstVariables), key, text, v);
        TypedIsStored(text, v);
        if key.1 != "" { AddVariableSetsOneKey(old(lstVariables), key, text, v, key); }
      }
    }

    /** The scan: overwrites matching rows and notes the last row of the same variable and another role. */
    method OverwriteRows(key: Key, value: string) returns (found: bool, prevpos: int)
      modifies this
      ensures lstVariables == if found then Overwrite(old(lstVariables), key, value) else old(lstVariables)
      ensures found <==> Find(old(lstVariables), key).Some?
      ensures prevpos == LastOfOtherRole(old(lstVariables), key)
    {
      ghost var before := lstVariables;
      found, prevpos := false, -1;
      for item := 0 to |lstVariables|
        invariant |lstVariables| == |before|
        invariant forall i :: 0 <= i < item ==> lstVariables[i] == Overwrite(before, key, value)[i]
        invariant forall i :: item <= i < |before| ==> lstVariables[i] == before[i]
        invariant found <==> exists i :: 0 <= i < item && before[i].0 == key
        invariant prevpos == LastOfOtherRole(before[..item], key)
      {
        assert before[..item + 1][..item] == before[..item];
        if lstVariables[item].0.1 == key.1 {
          if lstVariables[item].0.0 == key.0 {
            found := true;
            lstVariables := lstVariables[item := (lstVariables[item].0, value)];
          } else {
            prevpos := item;
          }
        }
      }
      assert before[..|before|] == before;
      FindNone(before, key);
      if found { assert lstVariables == Overwrite(before, key, value); } else { assert lstVariables == before; }
    }

    method OnVarRemove(selection: int)
      modifies this
      ensures lstVariables == ApplyEdit(old(lstVariables), VarRemove(selection))
    {
      if 0 <= selection < |lstVariables| {
        lstVariables := lstVariables[..selection] + lstVariables[selection + 1..];
      }
    }

    /** The comparison with the server's variables; matched rows are removed from the copy `vars`. */
    method GetVariablesSql(variables: seq<Row>) returns (sql: seq<VarStmt>)
      requires Distinct(variables) && Distinct(lstVariables)
      ensures sql == VariablesScript(variables, lstVariables)
    {
      var vars := variables;
      sql := [];
      for pos := 0 to |lstVariables|
        invariant vars == Remaining(variables, lstVariables[..pos])
        invariant sql == PerRow(lstVariables[..pos], SetOf(variables))
      {
        var row := lstVariables[pos];
        FindInRemaining(variables, lstVariables, pos);
        OptionDialogs.PerRowSnoc(lstVariables, SetOf(variables), pos);
        assert lstVariables[..pos + 1][..pos] == lstVariables[..pos];
        var oldVal;
        oldVal, vars := TakeOut(vars, row.0);
        if oldVal != row.1 {
          if row.0.1 != "search_path" && row.0.1 != "temp_tablespaces" { sql := sql + [SetQuoted(row.0, row.1)]; }
          else { sql := sql + [SetBare(row.0, row.1)]; }
        }
      }
      assert lstVariables[..|lstVariables|] == lstVariables;
      var resets := [];
      for pos := 0 to |vars|
        invariant resets == PerRow(vars[..pos], ResetOf())
      {
        OptionDialogs.PerRowSnoc(vars, ResetOf(), pos);
        resets := resets + [Reset(vars[pos].0)];
      }
      assert vars[..|vars|] == vars;
      sql := sql + resets;
    }

    method TakeOut(vars: seq<Row>, key: Key) returns (oldVal: string, rest: seq<Row>)
      ensures oldVal == if Find(vars, key).Some? then Find(vars, key).value else ""
      ensures rest == Without(vars, key)
    {
      var index := 0;
      while index < |vars| && vars[index].0 != key
        invariant 0 <= index <= |vars| && forall i :: 0 <= i < index ==> vars[i].0 != key
      {
        index := index + 1;
      }
      OptionDialogs.FirstRowFound(vars, key, index);
      WithoutAt(vars, key, index);
      if index < |vars| { return vars[index].1, vars[..index] + vars[index + 1..]; }
      return "", vars;
    }
  }

  lemma {:induction false} WithoutAt(rows: seq<Row>, k: Key, p: nat)
    requires p <= |rows| && (forall i :: 0 <= i < p ==> rows[i].0 != k)
    requires p < |rows| ==> rows[p].0 == k
    ensures Without(rows, k) == if p < |rows| then rows[..p] + rows[p + 1..] else rows
    decreases |rows|
  {
    if rows != [] && p > 0 {
      WithoutAt(rows[1..], k, p - 1);
      if p < |rows| {
        assert rows[1..][p..] == rows[p + 1..] && [rows[0]] + rows[1..][..p - 1] == rows[..p];
        Regroup([rows[0]], rows[1..][..p - 1], rows[p + 1..]);
      }
    }
  }
}
