/**
 * The exceptions of a pgAgent schedule: editing the list and writing it back.
 *
 * A row remembers the stored record it came from (`id`) and whether it was changed; added rows have
 * neither. A missing date or time stands for <any>.
 */
module ScheduleExceptions {
  import opened Basics

  datatype When = When(date: Option<int>, time: Option<int>)

  /** The third column of the list: empty for added rows, "false" for loaded ones, "true" once changed. */
  datatype Flag = Empty | False | True

  datatype Row = Row(when: When, flag: Flag, id: Option<nat>)

  datatype Dialog = Dialog(rows: seq<Row>, deleted: seq<nat>)

  // ----- editing

  /** The row is the same exception, or covers it by any time on its date or any date at its time. */
  predicate Covers(r: When, w: When)
  {
    r == w || (r.date == w.date && r.time == None) || (r.time == w.time && r.date == None)
  }

  predicate Refused(rows: seq<Row>, w: When, skip: int)
  {
    w == When(None, None) || exists i :: 0 <= i < |rows| && i != skip && Covers(rows[i].when, w)
  }

  datatype Edit = Add(when: When) | Change(pos: nat, when: When) | Remove(pos: nat)

  function Apply(d: Dialog, e: Edit): Dialog
  {
    match e
    case Add(w) => if Refused(d.rows, w, -1) then d else d.(rows := d.rows + [Row(w, Empty, None)])
    case Change(pos, w) =>
      if pos >= |d.rows| || Refused(d.rows, w, pos) then d
      else d.(rows := d.rows[pos := Row(w, True, d.rows[pos].id)])
    case Remove(pos) =>
      if pos >= |d.rows| then d
      else Dialog(d.rows[..pos] + d.rows[pos + 1..],
                  if d.rows[pos].id.Some? then d.deleted + [d.rows[pos].id.value] else d.deleted)
  }

  function Edited(loaded: seq<Row>, edits: seq<Edit>): Dialog
    decreases |edits|
  {
    if edits == [] then Dialog(loaded, []) else Apply(Edited(loaded, edits[..|edits| - 1]), edits[|edits| - 1])
  }

  /** The stored exceptions of the schedule by id. */
  type Table = map<nat, When>

  ghost predicate DistinctWhens(rows: seq<Row>)
  {
    forall i, j :: 0 <= i < j < |rows| ==> rows[i].when != rows[j].when
  }

  ghost predicate DistinctIds(rows: seq<Row>)
  {
    forall i, j :: 0 <= i < j < |rows| && rows[i].id.Some? ==> rows[i].id != rows[j].id
  }

  /** The list as the dialog loads it from the table. */
  ghost predicate Loaded(rows: seq<Row>, stored: Table)
  {
    && DistinctWhens(rows) && DistinctIds(rows)
    && (forall i :: 0 <= i < |rows| ==>
          rows[i].flag == False && rows[i].id.Some? && rows[i].id.value in stored
          && stored[rows[i].id.value] == rows[i].when)
    && (forall id :: id in stored ==> exists i :: 0 <= i < |rows| && rows[i].id == Some(id))
  }

  /** A row is new, unchanged as stored, or changed; a new row that was changed is neither. */
  ghost predicate RowOk(r: Row, stored: Table)
  {
    match r.id
    case None => r.flag == Empty || r.flag == True
    case Some(id) => id in stored && r.flag != Empty && (r.flag == False ==> stored[id] == r.when)
  }

  ghost predicate Inv(d: Dialog, stored: Table)
  {
    && DistinctWhens(d.rows) && DistinctIds(d.rows)
    && (forall i :: 0 <= i < |d.rows| ==> RowOk(d.rows[i], stored))
    && (forall i :: 0 <= i < |d.rows| && d.rows[i].id.Some? ==> d.rows[i].id.value !in d.deleted)
    && (forall i, j :: 0 <= i < j < |d.deleted| ==> d.deleted[i] != d.deleted[j])
    && (forall id :: id in d.deleted ==> id in stored)
    && (forall id :: id in stored ==> Accounted(d, id))
  }

  /** The record is shown by a row or to be deleted. */
  ghost predicate Accounted(d: Dialog, id: nat)
  {
    id in d.deleted || exists i :: 0 <= i < |d.rows| && d.rows[i].id == Some(id)
  }

  lemma AddKeepsInv(d: Dialog, w: When, stored: Table)
    requires Inv(d, stored)
    ensures Inv(Apply(d, Add(w)), stored)
  {
    var t := Apply(d, Add(w));
    assert forall i :: 0 <= i < |d.rows| ==> t.rows[i] == d.rows[i];
    forall id | id in stored ensures Accounted(t, id) { assert Accounted(d, id); }
  }

  lemma ChangeKeepsInv(d: Dialog, pos: nat, w: When, stored: Table)
    requires Inv(d, stored)
    ensures Inv(Apply(d, Change(pos, w)), stored)
  {
    var t := Apply(d, Change(pos, w));
    assert |t.rows| == |d.rows| && forall i :: 0 <= i < |d.rows| ==> t.rows[i].id == d.rows[i].id;
    forall id | id in stored ensures Accounted(t, id) { assert Accounted(d, id); }
  }

  lemma RemoveKeepsInv(d: Dialog, pos: nat, stored: Table)
    requires Inv(d, stored) && pos < |d.rows|
    ensures Inv(Apply(d, Remove(pos)), stored)
  {
    var t := Apply(d, Remove(pos));
    RemoveKeepsRows(d.rows, pos);
    forall i | 0 <= i < |t.rows|
      ensures RowOk(t.rows[i], stored) && (t.rows[i].id.Some? ==> t.rows[i].id.value !in t.deleted)
    {
      var j := if i < pos then i else i + 1;
      assert t.rows[i] == d.rows[j] && RowOk(d.rows[j], stored);
    }
    forall id | id in stored ensures Accounted(t, id) { RemoveAccounts(d, pos, id); }
  }

  lemma RemoveKeepsRows(rows: seq<Row>, pos: nat)
    requires pos < |rows| && DistinctWhens(rows) && DistinctIds(rows)
    ensures var r := rows[..pos] + rows[pos + 1..]; DistinctWhens(r) && DistinctIds(r)
  {
    var r := rows[..pos] + rows[pos + 1..];
    assert forall i :: 0 <= i < |r| ==> r[i] == rows[if i < pos then i else i + 1];
  }

  lemma RemoveAccounts(d: Dialog, pos: nat, id: nat)
    requires pos < |d.rows| && Accounted(d, id)
    ensures Accounted(Apply(d, Remove(pos)), id)
  {
    var t := Apply(d, Remove(pos));
    if id !in d.deleted {
      var i :| 0 <= i < |d.rows| && d.rows[i].id == Some(id);
      if i < pos { assert t.rows[i] == d.rows[i]; }
      else if i > pos { assert t.rows[i - 1] == d.rows[i]; }
    }
  }

  /** Whatever is added, changed or removed, no two exceptions are equal and the rows account for all records. */
  lemma {:induction false} EditsKeepInv(loaded: seq<Row>, stored: Table, edits: seq<Edit>)
    requires Loaded(loaded, stored)
    ensures Inv(Edited(loaded, edits), stored)
    decreases |edits|
  {
    if edits != [] {
      EditsKeepInv(loaded, stored, edits[..|edits| - 1]);
      var d, e := Edited(loaded, edits[..|edits| - 1]), edits[|edits| - 1];
      match e
      case Add(w) => AddKeepsInv(d, w, stored);
      case Change(pos, w) => ChangeKeepsInv(d, pos, w, stored);
      case Remove(pos) => if pos < |d.rows| { RemoveKeepsInv(d, pos, stored); }
    }
  }

  /** The exception holds at this moment. */
  predicate HoldsAt(w: When, date: int, time: int)
  {
    (w.date.None? || w.date == Some(date)) && (w.time.None? || w.time == Some(time))
  }

  /** Covering means holding whenever the other holds; only any date at any time is not noticed as doing so. */
  lemma CoversMeans(r: When, w: When)
    requires r != When(None, None)
    ensures Covers(r, w) <==> forall date, time :: HoldsAt(w, date, time) ==> HoldsAt(r, date, time)
  {
    var date := if w.date.Some? then w.date.value else if r.date.Some? then r.date.value + 1 else 0;
    var time := if w.time.Some? then w.time.value else if r.time.Some? then r.time.value + 1 else 0;
    assert HoldsAt(w, date, time);
  }

  /** A date or time is given, and no other exception is the same or any time on its date or its time on any date. */
  ghost predicate MayStand(rows: seq<Row>, w: When, skip: int)
  {
    && !(w.date.None? && w.time.None?)
    && forall i :: 0 <= i < |rows| && i != skip ==>
         && rows[i].when != w
         && !(rows[i].when.date == w.date && rows[i].when.time.None?)
         && !(rows[i].when.time == w.time && rows[i].when.date.None?)
  }

  /** Any time on a date shuts out later exceptions on it, but does not notice the earlier ones. */
  lemma CoverageDependsOnOrder(date: int, time: int)
    ensures var one, all := When(Some(date), Some(time)), When(Some(date), None);
            && Edited([], [Add(all), Add(one)]).rows == [Row(all, Empty, None)]
            && Edited([], [Add(one), Add(all)]).rows == [Row(one, Empty, None), Row(all, Empty, None)]
  {
    var one, all := When(Some(date), Some(time)), When(Some(date), None);
    var allFirst, oneFirst := [Add(all), Add(one)], [Add(one), Add(all)];
    assert allFirst[..1] == [Add(all)] && allFirst[..1][..0] == [];
    assert oneFirst[..1] == [Add(one)] && oneFirst[..1][..0] == [];
    assert Edited([], allFirst[..1]).rows == [Row(all, Empty, None)];
    assert Edited([], oneFirst[..1]).rows == [Row(one, Empty, None)];
    assert Covers([Row(all, Empty, None)][0].when, one);
  }

  // ----- the script

  datatype Stmt = Delete(id: nat) | Update(id: nat, when: When) | Insert(when: When)

  function UpdateOf(r: Row): seq<Stmt>
  {
    if r.flag == True && r.id.Some? then [Update(r.id.value, r.when)] else []
  }

  function InsertOf(r: Row): seq<Stmt>
  {
    if r.flag == Empty && r.id.None? then [Insert(r.when)] else []
  }

  function Deletes(ids: seq<nat>): seq<Stmt>
  {
    if ids == [] then [] else Deletes(ids[..|ids| - 1]) + [Delete(ids[|ids| - 1])]
  }

  function Updates(rows: seq<Row>): seq<Stmt>
  {
    if rows == [] then [] else Updates(rows[..|rows| - 1]) + UpdateOf(rows[|rows| - 1])
  }

  function Inserts(rows: seq<Row>): seq<Stmt>
  {
    if rows == [] then [] else Inserts(rows[..|rows| - 1]) + InsertOf(rows[|rows| - 1])
  }

  /** DELETE for removed records, UPDATE for changed ones, INSERT for added rows. */
  function Script(d: Dialog): seq<Stmt>
  {
    Deletes(d.deleted) + Updates(d.rows) + Inserts(d.rows)
  }

  /** Table and id sequence; deleting or updating a record that is not there counts as failure. */
  datatype Server = Server(table: Table, nextId: nat)

  function Execute(s: Server, stmt: Stmt): Option<Server>
  {
    match stmt
    case Delete(id) => if id in s.table then Some(s.(table := s.table - {id})) else None
    case Update(id, w) => if id in s.table then Some(s.(table := s.table[id := w])) else None
    case Insert(w) => Some(Server(s.table[s.nextId := w], s.nextId + 1))
  }

  function Run(s: Server, script: seq<Stmt>): Option<Server>
    decreases |script|
  {
    if script == [] then Some(s)
    else
      match Run(s, script[..|script| - 1])
      case None => None
      case Some(t) => Execute(t, script[|script| - 1])
  }

  lemma {:induction false} RunConcat(s: Server, a: seq<Stmt>, b: seq<Stmt>)
    requires Run(s, a).Some?
    ensures Run(s, a + b) == Run(Run(s, a).value, b)
    decreases |b|
  {
    if b == [] { assert a + b == a; }
    else {
      assert (a + b)[..|a + b| - 1] == a + b[..|b| - 1];
      RunConcat(s, a, b[..|b| - 1]);
    }
  }

  ghost function DropAll(t: Table, ids: seq<nat>): Table
  {
    if ids == [] then t else DropAll(t, ids[..|ids| - 1]) - {ids[|ids| - 1]}
  }

  lemma {:induction false} DropAllMember(t: Table, ids: seq<nat>, id: nat)
    ensures id in DropAll(t, ids) <==> id in t && id !in ids
    ensures id in DropAll(t, ids) ==> DropAll(t, ids)[id] == t[id]
    decreases |ids|
  {
    if ids != [] { DropAllMember(t, ids[..|ids| - 1], id); }
  }

  lemma {:induction false} DeletesRun(s: Server, ids: seq<nat>)
    requires forall i, j :: 0 <= i < j < |ids| ==> ids[i] != ids[j]
    requires forall i :: 0 <= i < |ids| ==> ids[i] in s.table
    ensures Run(s, Deletes(ids)) == Some(s.(table := DropAll(s.table, ids)))
    decreases |ids|
  {
    if ids != [] {
      var init, last := ids[..|ids| - 1], ids[|ids| - 1];
      DeletesRun(s, init);
      DropAllMember(s.table, init, last);
      assert Deletes(ids)[..|Deletes(ids)| - 1] == Deletes(init);
    }
  }

  /** The rows that stand for stored records, by id. */
  ghost function Recorded(rows: seq<Row>): map<nat, When>
  {
    if rows == [] then map[]
    else
      var r := rows[|rows| - 1];
      if r.id.Some? then Recorded(rows[..|rows| - 1])[r.id.value := r.when] else Recorded(rows[..|rows| - 1])
  }

  lemma {:induction false} RecordedAt(rows: seq<Row>, i: nat)
    requires DistinctIds(rows) && i < |rows| && rows[i].id.Some?
    ensures rows[i].id.value in Recorded(rows) && Recorded(rows)[rows[i].id.value] == rows[i].when
    decreases |rows|
  {
    if i < |rows| - 1 { RecordedAt(rows[..|rows| - 1], i); }
  }

  lemma {:induction false} RecordedKeys(rows: seq<Row>, id: nat)
    ensures id in Recorded(rows) <==> exists i :: 0 <= i < |rows| && rows[i].id == Some(id)
    decreases |rows|
  {
    if rows != [] { RecordedKeys(rows[..|rows| - 1], id); }
  }

  lemma RunAppend(s: Server, script: seq<Stmt>, more: seq<Stmt>)
    requires Run(s, script).Some? && |more| <= 1
    ensures Run(s, script + more) ==
            if more == [] then Run(s, script) else Execute(Run(s, script).value, more[0])
  {
    if more == [] { assert script + more == script; }
    else { assert (script + more)[..|script|] == script && (script + more)[|script|] == more[0]; }
  }

  /** The table after updating the records of the rows in turn. */
  ghost function UpdateRows(t: Table, rows: seq<Row>): Table
  {
    if rows == [] then t
    else
      var r := rows[|rows| - 1];
      if r.flag == True && r.id.Some? then UpdateRows(t, rows[..|rows| - 1])[r.id.value := r.when]
      else UpdateRows(t, rows[..|rows| - 1])
  }

  lemma {:induction false} UpdatesRun(s: Server, rows: seq<Row>)
    requires forall i :: 0 <= i < |rows| && rows[i].id.Some? ==> rows[i].id.value in s.table
    ensures Run(s, Updates(rows)) == Some(s.(table := UpdateRows(s.table, rows)))
    ensures forall id :: id in s.table ==> id in UpdateRows(s.table, rows)
    decreases |rows|
  {
    if rows != [] {
      var init, r := rows[..|rows| - 1], rows[|rows| - 1];
      UpdatesRun(s, init);
      RunAppend(s, Updates(init), UpdateOf(r));
    }
  }

  /** If the unchanged rows agree with the table, updating brings it up to date with all rows. */
  lemma {:induction false} UpdatedIsRecorded(t: Table, rows: seq<Row>)
    requires DistinctIds(rows)
    requires forall i :: 0 <= i < |rows| && rows[i].id.Some? ==>
               rows[i].id.value in t && (rows[i].flag != True ==> t[rows[i].id.value] == rows[i].when)
    ensures UpdateRows(t, rows) == t + Recorded(rows)
    decreases |rows|
  {
    if rows == [] { assert t + map[] == t; }
    else {
      var init, r := rows[..|rows| - 1], rows[|rows| - 1];
      UpdatedIsRecorded(t, init);
      if r.id.Some? {
        RecordedKeys(init, r.id.value);
        OverlayOne(t, Recorded(init), r.id.value, r.when);
      }
    }
  }

  lemma OverlayOne(a: Table, b: Table, id: nat, w: When)
    ensures a + b[id := w] == (a + b)[id := w]
    ensures id in a && id !in b && a[id] == w ==> a + b[id := w] == a + b
  {
  }

  ghost function NewRows(rows: seq<Row>): seq<When>
  {
    if rows == [] then []
    else
      var r := rows[|rows| - 1];
      NewRows(rows[..|rows| - 1]) + (if r.flag == Empty && r.id.None? then [r.when] else [])
  }

  /** The table with new records numbered from `from`. */
  ghost function WithNew(t: Table, from: nat, news: seq<When>): Table
  {
    if news == [] then t else WithNew(t, from, news[..|news| - 1])[from + |news| - 1 := news[|news| - 1]]
  }

  lemma WithNewSnoc(t: Table, from: nat, news: seq<When>, w: When)
    ensures WithNew(t, from, news + [w]) == WithNew(t, from, news)[from + |news| := w]
  {
    assert (news + [w])[..|news|] == news;
  }

  /** The server after inserting the new rows in turn. */
  ghost function InsertRows(s: Server, rows: seq<Row>): Server
  {
    if rows == [] then s
    else
      var t, r := InsertRows(s, rows[..|rows| - 1]), rows[|rows| - 1];
      if r.flag == Empty && r.id.None? then Server(t.table[t.nextId := r.when], t.nextId + 1) else t
  }

  lemma {:induction false} InsertsRun(s: Server, rows: seq<Row>)
    ensures Run(s, Inserts(rows)) == Some(InsertRows(s, rows))
    decreases |rows|
  {
    if rows != [] {
      var init, r := rows[..|rows| - 1], rows[|rows| - 1];
      InsertsRun(s, init);
      RunAppend(s, Inserts(init), InsertOf(r));
    }
  }

  lemma {:induction false} InsertedAreNew(s: Server, rows: seq<Row>)
    ensures InsertRows(s, rows) == Server(WithNew(s.table, s.nextId, NewRows(rows)), s.nextId + |NewRows(rows)|)
    decreases |rows|
  {
    if rows != [] {
      var init, r := rows[..|rows| - 1], rows[|rows| - 1];
      InsertedAreNew(s, init);
      if r.flag == Empty && r.id.None? { WithNewSnoc(s.table, s.nextId, NewRows(init), r.when); }
      else { assert NewRows(rows) == NewRows(init); }
    }
  }

  lemma OverlayAll(a: Table, b: Table)
    requires forall id :: id in a ==> id in b
    ensures a + b == b
  {
  }

  lemma UpdatedTable(d: Dialog, stored: Table)
    requires Inv(d, stored)
    ensures DropAll(stored, d.deleted) + Recorded(d.rows) == Recorded(d.rows)
  {
    forall id | id in DropAll(stored, d.deleted) ensures id in Recorded(d.rows) {
      DropAllMember(stored, d.deleted, id);
      assert Accounted(d, id);
      RecordedKeys(d.rows, id);
    }
    OverlayAll(DropAll(stored, d.deleted), Recorded(d.rows));
  }

  lemma DeletesAndUpdatesRun(d: Dialog, stored: Table, nextId: nat)
    requires Inv(d, stored)
    ensures Run(Server(stored, nextId), Deletes(d.deleted) + Updates(d.rows)) == Some(Server(Recorded(d.rows), nextId))
  {
    var s := Server(stored, nextId);
    DeletesRun(s, d.deleted);
    var s1 := s.(table := DropAll(stored, d.deleted));
    forall i | 0 <= i < |d.rows| && d.rows[i].id.Some?
      ensures d.rows[i].id.value in s1.table
      ensures d.rows[i].flag != True ==> s1.table[d.rows[i].id.value] == d.rows[i].when
    {
      assert RowOk(d.rows[i], stored);
      DropAllMember(stored, d.deleted, d.rows[i].id.value);
    }
    UpdatesRun(s1, d.rows);
    UpdatedIsRecorded(s1.table, d.rows);
    UpdatedTable(d, stored);
    RunConcat(s, Deletes(d.deleted), Updates(d.rows));
  }

  /** The script never misses a record and ends at the recorded rows plus the added, unchanged ones. */
  lemma ScriptRuns(d: Dialog, stored: Table, nextId: nat)
    requires Inv(d, stored)
    ensures Run(Server(stored, nextId), Script(d)) ==
            Some(Server(WithNew(Recorded(d.rows), nextId, NewRows(d.rows)), nextId + |NewRows(d.rows)|))
  {
    DeletesAndUpdatesRun(d, stored, nextId);
    InsertsRun(Server(Recorded(d.rows), nextId), d.rows);
    InsertedAreNew(Server(Recorded(d.rows), nextId), d.rows);
    RunConcat(Server(stored, nextId), Deletes(d.deleted) + Updates(d.rows), Inserts(d.rows));
  }

  // ----- what is stored in the end

  /** Added, then changed before saving: neither updated nor inserted. */
  predicate Skipped(r: Row)
  {
    r.flag == True && r.id.None?
  }

  ghost function Final(d: Dialog, nextId: nat): Table
  {
    WithNew(Recorded(d.rows), nextId, NewRows(d.rows))
  }

  lemma {:induction false} WithNewMember(t: Table, from: nat, news: seq<When>, id: nat)
    requires forall k :: k in t ==> k < from
    ensures id in WithNew(t, from, news) <==> id in t || from <= id < from + |news|
    ensures id in t ==> WithNew(t, from, news)[id] == t[id]
    ensures from <= id < from + |news| ==> WithNew(t, from, news)[id] == news[id - from]
    decreases |news|
  {
    if news != [] { WithNewMember(t, from, news[..|news| - 1], id); }
  }

  lemma {:induction false} NewRowsMember(rows: seq<Row>, w: When)
    ensures w in NewRows(rows) <==> exists i :: 0 <= i < |rows| && rows[i] == Row(w, Empty, None)
    decreases |rows|
  {
    if rows != [] { NewRowsMember(rows[..|rows| - 1], w); }
  }

  lemma {:induction false} NewRowsDistinct(rows: seq<Row>, i: nat, j: nat)
    requires DistinctWhens(rows) && i < j < |NewRows(rows)|
    ensures NewRows(rows)[i] != NewRows(rows)[j]
    decreases |rows|
  {
    var init := rows[..|rows| - 1];
    if j < |NewRows(init)| { NewRowsDistinct(init, i, j); }
    else {
      NewRowsMember(init, NewRows(init)[i]);
      assert NewRows(init)[i] in NewRows(init);
    }
  }

  ghost predicate Stores(t: Table, w: When)
  {
    exists id :: id in t && t[id] == w
  }

  ghost predicate Shows(rows: seq<Row>, w: When)
  {
    exists i :: 0 <= i < |rows| && rows[i].when == w
  }

  ghost predicate ShowsSaved(rows: seq<Row>, w: When)
  {
    exists i :: 0 <= i < |rows| && rows[i].when == w && !Skipped(rows[i])
  }

  lemma RecordedBelow(d: Dialog, stored: Table, nextId: nat)
    requires Inv(d, stored) && forall id :: id in stored ==> id < nextId
    ensures forall k :: k in Recorded(d.rows) ==> k < nextId
  {
    forall k | k in Recorded(d.rows) ensures k < nextId {
      RecordedKeys(d.rows, k);
      var i :| 0 <= i < |d.rows| && d.rows[i].id == Some(k);
      assert RowOk(d.rows[i], stored);
    }
  }

  /** The displayed row that a stored record comes from. */
  lemma RowOfRecord(d: Dialog, stored: Table, nextId: nat, id: nat) returns (i: nat)
    requires Inv(d, stored) && (forall k :: k in stored ==> k < nextId) && id in Final(d, nextId)
    ensures i < |d.rows| && d.rows[i].when == Final(d, nextId)[id] && !Skipped(d.rows[i])
    ensures id in Recorded(d.rows) ==> d.rows[i].id == Some(id)
    ensures id !in Recorded(d.rows) ==> d.rows[i].id == None && nextId <= id < nextId + |NewRows(d.rows)|
                                        && d.rows[i].when == NewRows(d.rows)[id - nextId]
  {
    var news := NewRows(d.rows);
    RecordedBelow(d, stored, nextId);
    WithNewMember(Recorded(d.rows), nextId, news, id);
    if id in Recorded(d.rows) {
      RecordedKeys(d.rows, id);
      i :| 0 <= i < |d.rows| && d.rows[i].id == Some(id);
      RecordedAt(d.rows, i);
    } else {
      var w := news[id - nextId];
      assert w in news;
      NewRowsMember(d.rows, w);
      i :| 0 <= i < |d.rows| && d.rows[i] == Row(w, Empty, None);
    }
  }

  /** An exception is stored in the end iff a displayed row that is not skipped shows it. */
  lemma StoredIffShown(d: Dialog, stored: Table, nextId: nat, w: When)
    requires Inv(d, stored) && forall id :: id in stored ==> id < nextId
    ensures Stores(Final(d, nextId), w) <==> ShowsSaved(d.rows, w)
  {
    var rec, news := Recorded(d.rows), NewRows(d.rows);
    RecordedBelow(d, stored, nextId);
    if id :| id in Final(d, nextId) && Final(d, nextId)[id] == w {
      var i := RowOfRecord(d, stored, nextId, id);
    }
    if i :| 0 <= i < |d.rows| && d.rows[i].when == w && !Skipped(d.rows[i]) {
      assert RowOk(d.rows[i], stored);
      if d.rows[i].id.Some? {
        RecordedAt(d.rows, i);
        WithNewMember(rec, nextId, news, d.rows[i].id.value);
      } else {
        assert d.rows[i] == Row(w, Empty, None);
        NewRowsMember(d.rows, w);
        var j :| 0 <= j < |news| && news[j] == w;
        WithNewMember(rec, nextId, news, nextId + j);
      }
    }
  }

  /** Each exception is stored once. */
  lemma StoredOnce(d: Dialog, stored: Table, nextId: nat, a: nat, b: nat)
    requires Inv(d, stored) && forall id :: id in stored ==> id < nextId
    requires a in Final(d, nextId) && b in Final(d, nextId) && a < b
    ensures Final(d, nextId)[a] != Final(d, nextId)[b]
  {
    var i := RowOfRecord(d, stored, nextId, a);
    var j := RowOfRecord(d, stored, nextId, b);
    if a !in Recorded(d.rows) && b !in Recorded(d.rows) {
      NewRowsDistinct(d.rows, a - nextId, b - nextId);
    } else {
      assert i != j;
    }
  }

  /** The table holds each displayed exception exactly once and no other. */
  ghost predicate StoresExactly(t: Table, rows: seq<Row>)
  {
    && (forall w :: Stores(t, w) <==> Shows(rows, w))
    && (forall a, b :: a in t && b in t && a < b ==> t[a] != t[b])
  }

  lemma ExactUnlessSkipped(d: Dialog, stored: Table, nextId: nat)
    requires Inv(d, stored) && forall id :: id in stored ==> id < nextId
    ensures StoresExactly(Final(d, nextId), d.rows) <==> forall i :: 0 <= i < |d.rows| ==> !Skipped(d.rows[i])
  {
    forall w ensures Stores(Final(d, nextId), w) <==> ShowsSaved(d.rows, w) { StoredIffShown(d, stored, nextId, w); }
    forall a, b | a in Final(d, nextId) && b in Final(d, nextId) && a < b
      ensures Final(d, nextId)[a] != Final(d, nextId)[b]
    {
      StoredOnce(d, stored, nextId, a, b);
    }
    if i :| 0 <= i < |d.rows| && Skipped(d.rows[i]) {
      var w := d.rows[i].when;
      assert Shows(d.rows, w) && !ShowsSaved(d.rows, w);
    } else {
      assert forall w :: Shows(d.rows, w) <==> ShowsSaved(d.rows, w);
    }
  }

  /**
   * For every run of edits: the script runs through, and the stored exceptions are exactly the
   * displayed ones if and only if no row is displayed that was added and then changed.
   */
  lemma SavedExactlyUnlessSkipped(loaded: seq<Row>, stored: Table, nextId: nat, edits: seq<Edit>)
    requires Loaded(loaded, stored) && forall id :: id in stored ==> id < nextId
    ensures var d := Edited(loaded, edits);
            var end := Run(Server(stored, nextId), Script(d));
            && end.Some?
            && (StoresExactly(end.value.table, d.rows) <==> forall i :: 0 <= i < |d.rows| ==> !Skipped(d.rows[i]))
  {
    EditsKeepInv(loaded, stored, edits);
    ScriptRuns(Edited(loaded, edits), stored, nextId);
    ExactUnlessSkipped(Edited(loaded, edits), stored, nextId);
  }

  // ----- what one more edit does to the list and to the table saved in the end

  /** The table after saving what the edits left. */
  ghost function Saved(loaded: seq<Row>, stored: Table, nextId: nat, edits: seq<Edit>): (t: Table)
    requires Loaded(loaded, stored) && forall id :: id in stored ==> id < nextId
  {
    SavedExactlyUnlessSkipped(loaded, stored, nextId, edits);
    Run(Server(stored, nextId), Script(Edited(loaded, edits))).value.table
  }

  lemma SavedIsFinal(loaded: seq<Row>, stored: Table, nextId: nat, edits: seq<Edit>)
    requires Loaded(loaded, stored) && forall id :: id in stored ==> id < nextId
    ensures Inv(Edited(loaded, edits), stored)
    ensures Saved(loaded, stored, nextId, edits) == Final(Edited(loaded, edits), nextId)
  {
    EditsKeepInv(loaded, stored, edits);
    ScriptRuns(Edited(loaded, edits), stored, nextId);
  }

  /** A record of the table as it was loaded is the row with its id, if there is one. */
  lemma SavedRecord(loaded: seq<Row>, stored: Table, nextId: nat, edits: seq<Edit>, id: nat)
    requires Loaded(loaded, stored) && (forall k :: k in stored ==> k < nextId) && id < nextId
    ensures var rows, t := Edited(loaded, edits).rows, Saved(loaded, stored, nextId, edits);
            && (id in t <==> exists i :: 0 <= i < |rows| && rows[i].id == Some(id))
            && forall i :: 0 <= i < |rows| && rows[i].id == Some(id) ==> id in t && t[id] == rows[i].when
  {
    var d := Edited(loaded, edits);
    SavedIsFinal(loaded, stored, nextId, edits);
    RecordedBelow(d, stored, nextId);
    WithNewMember(Recorded(d.rows), nextId, NewRows(d.rows), id);
    RecordedKeys(d.rows, id);
    forall i | 0 <= i < |d.rows| && d.rows[i].id == Some(id) ensures Recorded(d.rows)[id] == d.rows[i].when {
      RecordedAt(d.rows, i);
    }
  }

  /** The loaded records other than `but` are the same in both tables. */
  ghost predicate SameRecords(a: Table, b: Table, nextId: nat, but: Option<nat>)
  {
    forall k :: 0 <= k < nextId && Some(k) != but ==> (k in a <==> k in b) && (k in a ==> a[k] == b[k])
  }

  lemma EditedOnce(loaded: seq<Row>, edits: seq<Edit>, e: Edit)
    ensures Edited(loaded, edits + [e]) == Apply(Edited(loaded, edits), e)
  {
    assert (edits + [e])[..|edits|] == edits;
  }

  /** Rows with one id in both lists show the same there: so do the tables saved. */
  lemma SameRowsSameRecords(loaded: seq<Row>, stored: Table, nextId: nat, a: seq<Edit>, b: seq<Edit>, but: Option<nat>)
    requires Loaded(loaded, stored) && forall k :: k in stored ==> k < nextId
    requires var m, n := Edited(loaded, a).rows, Edited(loaded, b).rows;
             && (forall i :: 0 <= i < |m| && m[i].id.Some? && m[i].id != but ==> m[i] in n)
             && (forall i :: 0 <= i < |n| && n[i].id.Some? && n[i].id != but ==> n[i] in m)
    ensures SameRecords(Saved(loaded, stored, nextId, a), Saved(loaded, stored, nextId, b), nextId, but)
  {
    var m, n := Edited(loaded, a).rows, Edited(loaded, b).rows;
    forall k | 0 <= k < nextId && Some(k) != but
      ensures k in Saved(loaded, stored, nextId, a) <==> k in Saved(loaded, stored, nextId, b)
      ensures k in Saved(loaded, stored, nextId, a) ==>
                Saved(loaded, stored, nextId, a)[k] == Saved(loaded, stored, nextId, b)[k]
    {
      SavedRecord(loaded, stored, nextId, a, k);
      SavedRecord(loaded, stored, nextId, b, k);
      if i :| 0 <= i < |m| && m[i].id == Some(k) { assert m[i] in n; }
      if i :| 0 <= i < |n| && n[i].id == Some(k) { assert n[i] in m; }
    }
  }

  /**
   * After any edits, removing a row: exactly its exception is shown no more, its record is gone from the
   * table once saved, and every other loaded record is saved as without the removal.
   */
  lemma RemoveRemoves(loaded: seq<Row>, stored: Table, nextId: nat, edits: seq<Edit>, pos: nat)
    requires Loaded(loaded, stored) && forall k :: k in stored ==> k < nextId
    requires pos < |Edited(loaded, edits).rows|
    ensures var rows, after := Edited(loaded, edits).rows, Edited(loaded, edits + [Remove(pos)]).rows;
            var t := Saved(loaded, stored, nextId, edits + [Remove(pos)]);
            && (forall w :: Shows(after, w) <==> Shows(rows, w) && w != rows[pos].when)
            && (rows[pos].id.Some? ==> rows[pos].id.value !in t)
            && SameRecords(Saved(loaded, stored, nextId, edits), t, nextId, rows[pos].id)
  {
    var d, more := Edited(loaded, edits), edits + [Remove(pos)];
    var rows, after := d.rows, Edited(loaded, more).rows;
    EditedOnce(loaded, edits, Remove(pos));
    EditsKeepInv(loaded, stored, edits);
    RemovedRows(rows, pos);
    SameRowsSameRecords(loaded, stored, nextId, edits, more, rows[pos].id);
    if rows[pos].id.Some? {
      assert RowOk(rows[pos], stored);
      SavedRecord(loaded, stored, nextId, more, rows[pos].id.value);
    }
  }

  lemma RemovedRows(rows: seq<Row>, pos: nat)
    requires pos < |rows| && DistinctWhens(rows) && DistinctIds(rows)
    ensures var after := rows[..pos] + rows[pos + 1..];
            && (forall w :: Shows(after, w) <==> Shows(rows, w) && w != rows[pos].when)
            && (forall i :: 0 <= i < |after| ==>
                  after[i] in rows && (after[i].id.Some? ==> after[i].id != rows[pos].id))
            && (forall i :: 0 <= i < |rows| && i != pos ==> rows[i] in after)
  {
    var after := rows[..pos] + rows[pos + 1..];
    assert forall i :: 0 <= i < |after| ==> after[i] == rows[if i < pos then i else i + 1];
    forall i | 0 <= i < |rows| && i != pos ensures rows[i] in after {
      assert rows[i] == after[if i < pos then i else i - 1];
    }
    forall w ensures Shows(after, w) <==> Shows(rows, w) && w != rows[pos].when {
      if i :| 0 <= i < |rows| && rows[i].when == w && i != pos { assert rows[i] in after; }
      if i :| 0 <= i < |after| && after[i].when == w { assert rows[if i < pos then i else i + 1].when == w; }
    }
  }

  /**
   * After any edits, changing a row: if the new exception may stand, it is shown in place of the old one,
   * the row's record holds it once saved, and all else is as without the change; if not, nothing changes.
   */
  lemma ChangeChanges(loaded: seq<Row>, stored: Table, nextId: nat, edits: seq<Edit>, pos: nat, w: When)
    requires Loaded(loaded, stored) && forall k :: k in stored ==> k < nextId
    requires pos < |Edited(loaded, edits).rows|
    ensures var d, e := Edited(loaded, edits), Edited(loaded, edits + [Change(pos, w)]);
            if MayStand(d.rows, w, pos) then
              var t := Saved(loaded, stored, nextId, edits + [Change(pos, w)]);
              && (forall v :: Shows(e.rows, v) <==> v == w || (Shows(d.rows, v) && v != d.rows[pos].when))
              && (d.rows[pos].id.Some? ==> d.rows[pos].id.value in t && t[d.rows[pos].id.value] == w)
              && SameRecords(Saved(loaded, stored, nextId, edits), t, nextId, d.rows[pos].id)
            else e == d
  {
    EditedOnce(loaded, edits, Change(pos, w));
    if MayStand(Edited(loaded, edits).rows, w, pos) {
      EditsKeepInv(loaded, stored, edits);
      ChangedDialog(Edited(loaded, edits), pos, w);
      ChangedTable(loaded, stored, nextId, edits, edits + [Change(pos, w)], pos);
      ShownIsRecorded(loaded, stored, nextId, edits + [Change(pos, w)], pos);
    }
  }

  lemma ChangedDialog(d: Dialog, pos: nat, w: When)
    requires pos < |d.rows| && DistinctWhens(d.rows) && MayStand(d.rows, w, pos)
    ensures var e := Apply(d, Change(pos, w));
            && |e.rows| == |d.rows| && e.rows[pos].when == w && e.rows[pos].id == d.rows[pos].id
            && (forall i :: 0 <= i < |d.rows| && i != pos ==> e.rows[i] == d.rows[i])
            && forall v :: Shows(e.rows, v) <==> v == w || (Shows(d.rows, v) && v != d.rows[pos].when)
  {
    ChangedRows(d.rows, pos, Row(w, True, d.rows[pos].id));
  }

  lemma ChangedTable(loaded: seq<Row>, stored: Table, nextId: nat, a: seq<Edit>, b: seq<Edit>, pos: nat)
    requires Loaded(loaded, stored) && forall k :: k in stored ==> k < nextId
    requires var m, n := Edited(loaded, a).rows, Edited(loaded, b).rows;
             && |m| == |n| && pos < |m| && m[pos].id == n[pos].id
             && forall i :: 0 <= i < |m| && i != pos ==> n[i] == m[i]
    ensures SameRecords(Saved(loaded, stored, nextId, a), Saved(loaded, stored, nextId, b), nextId,
                        Edited(loaded, a).rows[pos].id)
  {
    SameRowsSameRecords(loaded, stored, nextId, a, b, Edited(loaded, a).rows[pos].id);
  }

  /** The record of a row holds what the row shows. */
  lemma ShownIsRecorded(loaded: seq<Row>, stored: Table, nextId: nat, edits: seq<Edit>, pos: nat)
    requires Loaded(loaded, stored) && forall k :: k in stored ==> k < nextId
    requires pos < |Edited(loaded, edits).rows|
    ensures var r, t := Edited(loaded, edits).rows[pos], Saved(loaded, stored, nextId, edits);
            r.id.Some? ==> r.id.value in t && t[r.id.value] == r.when
  {
    var d := Edited(loaded, edits);
    EditsKeepInv(loaded, stored, edits);
    assert RowOk(d.rows[pos], stored);
    if d.rows[pos].id.Some? { SavedRecord(loaded, stored, nextId, edits, d.rows[pos].id.value); }
  }

  lemma ChangedRows(rows: seq<Row>, pos: nat, r: Row)
    requires pos < |rows| && DistinctWhens(rows)
    ensures forall v :: Shows(rows[pos := r], v) <==> v == r.when || (Shows(rows, v) && v != rows[pos].when)
    ensures forall i :: 0 <= i < |rows| && i != pos ==> rows[i] in rows[pos := r] && rows[pos := r][i] in rows
  {
    var after := rows[pos := r];
    forall i | 0 <= i < |rows| && i != pos ensures rows[i] in after && after[i] in rows { assert after[i] == rows[i]; }
    forall v ensures Shows(after, v) <==> v == r.when || (Shows(rows, v) && v != rows[pos].when) {
      assert after[pos] == r;
      if i :| 0 <= i < |rows| && rows[i].when == v && i != pos { assert after[i].when == v; }
      if i :| 0 <= i < |after| && after[i].when == v && i != pos { assert rows[i].when == v; }
    }
  }

  /**
   * After any edits, adding an exception: if it may stand, it is shown besides the others, a new record
   * holds it once saved, and the loaded records are saved as without it; if not, nothing changes.
   */
  lemma AddAdds(loaded: seq<Row>, stored: Table, nextId: nat, edits: seq<Edit>, w: When)
    requires Loaded(loaded, stored) && forall k :: k in stored ==> k < nextId
    ensures var d, e := Edited(loaded, edits), Edited(loaded, edits + [Add(w)]);
            if MayStand(d.rows, w, -1) then
              var t := Saved(loaded, stored, nextId, edits + [Add(w)]);
              && (forall v :: Shows(e.rows, v) <==> v == w || Shows(d.rows, v))
              && (exists id :: id in t && t[id] == w && id >= nextId)
              && SameRecords(Saved(loaded, stored, nextId, edits), t, nextId, None)
            else e == d
  {
    var more := edits + [Add(w)];
    var d, e := Edited(loaded, edits), Edited(loaded, more);
    EditedOnce(loaded, edits, Add(w));
    if MayStand(d.rows, w, -1) {
      assert e.rows == d.rows + [Row(w, Empty, None)] && e.rows[|d.rows|] == Row(w, Empty, None);
      AddedRows(d.rows, Row(w, Empty, None));
      SameRowsSameRecords(loaded, stored, nextId, edits, more, None);
      SavedIsFinal(loaded, stored, nextId, more);
      AddedRecord(e, stored, nextId, w);
    }
  }

  lemma AddedRows(rows: seq<Row>, r: Row)
    ensures forall v :: Shows(rows + [r], v) <==> v == r.when || Shows(rows, v)
    ensures forall i :: 0 <= i < |rows| ==> rows[i] in rows + [r]
  {
    var after := rows + [r];
    forall v ensures Shows(after, v) <==> v == r.when || Shows(rows, v) {
      assert after[|rows|] == r;
      if i :| 0 <= i < |rows| && rows[i].when == v { assert after[i].when == v; }
    }
  }

  /** A row that is added and not changed gets a record of its own. */
  lemma AddedRecord(d: Dialog, stored: Table, nextId: nat, w: When)
    requires Inv(d, stored) && (forall k :: k in stored ==> k < nextId) && Row(w, Empty, None) in d.rows
    ensures exists id :: id in Final(d, nextId) && Final(d, nextId)[id] == w && id >= nextId
  {
    var news := NewRows(d.rows);
    RecordedBelow(d, stored, nextId);
    NewRowsMember(d.rows, w);
    var j :| 0 <= j < |news| && news[j] == w;
    WithNewMember(Recorded(d.rows), nextId, news, nextId + j);
    assert nextId + j in Final(d, nextId);
  }

  /** Add an exception, change it, save: it is lost. */
  lemma AddThenChangeIsLost(a: When, b: When)
    requires a != When(None, None) && b != When(None, None)
    ensures var d := Edited([], [Add(a), Change(0, b)]);
            d.rows == [Row(b, True, None)] && Script(d) == []
  {
    var edits := [Add(a), Change(0, b)];
    assert edits[..1] == [Add(a)] && edits[..1][..0] == [];
    assert Edited([], edits[..1]).rows == [Row(a, Empty, None)];
    var rows := [Row(b, True, None)];
    assert Edited([], edits).rows == rows;
    assert rows[..0] == [];
    assert Updates(rows) == Updates(rows[..0]) + UpdateOf(rows[0]);
    assert Inserts(rows) == Inserts(rows[..0]) + InsertOf(rows[0]);
  }

  // ----- the dialog

  class ScheduleDialog {
    var lstExceptions: seq<Row>
    var deleteExceptions: seq<nat>

    function Now(): Dialog reads this { Dialog(lstExceptions, deleteExceptions) }

    constructor (loaded: seq<Row>)
      ensures Now() == Edited(loaded, [])
    {
      lstExceptions, deleteExceptions := loaded, [];
    }

    /** Looks for an exception, other than the one at `item`, that is or covers the new one. */
    method IsRefused(w: When, item: int) returns (refused: bool)
      ensures refused <==> Refused(lstExceptions, w, item)
    {
      if w.date == None && w.time == None { return true; }
      for pos := 0 to |lstExceptions|
        invariant forall i :: 0 <= i < pos && i != item ==> !Covers(lstExceptions[i].when, w)
      {
        if item != pos {
          var r := lstExceptions[pos].when;
          if r.date == w.date && r.time == w.time { return true; }
          if r.date == w.date && r.time == None { return true; }
          if r.time == w.time && r.date == None { return true; }
        }
      }
      return false;
    }

    method OnAddException(w: When)
      modifies this
      ensures Now() == Apply(old(Now()), Add(w)) && deleteExceptions == old(deleteExceptions)
      ensures lstExceptions == if MayStand(old(lstExceptions), w, -1) then old(lstExceptions) + [Row(w, Empty, None)]
                               else old(lstExceptions)
    {
      var refused := IsRefused(w, -1);
      if refused { return; }
      lstExceptions := lstExceptions + [Row(w, Empty, None)];
    }

    method OnChangeException(item: nat, w: When)
      requires item < |lstExceptions|
      modifies this
      ensures Now() == Apply(old(Now()), Change(item, w)) && deleteExceptions == old(deleteExceptions)
      ensures |lstExceptions| == old(|lstExceptions|)
      ensures forall i :: 0 <= i < |lstExceptions| ==>
                lstExceptions[i] == if i == item && MayStand(old(lstExceptions), w, item)
                                    then Row(w, True, old(lstExceptions[item].id)) else old(lstExceptions[i])
    {
      var refused := IsRefused(w, item);
      if refused { return; }
      lstExceptions := lstExceptions[item := Row(w, True, lstExceptions[item].id)];
    }

    method OnRemoveException(item: nat)
      requires item < |lstExceptions|
      modifies this
      ensures Now() == Apply(old(Now()), Remove(item))
      ensures |lstExceptions| == old(|lstExceptions|) - 1
      ensures forall i :: 0 <= i < |lstExceptions| ==>
                lstExceptions[i] == old(lstExceptions[if i < item then i else i + 1])
      ensures var id := old(lstExceptions[item].id);
              deleteExceptions == if id.Some? then old(deleteExceptions) + [id.value] else old(deleteExceptions)
    {
      if lstExceptions[item].id != None { deleteExceptions := deleteExceptions + [lstExceptions[item].id.value]; }
      lstExceptions := lstExceptions[..item] + lstExceptions[item + 1..];
    }

    method DeleteRemoved() returns (sql: seq<Stmt>)
      ensures sql == Deletes(deleteExceptions)
    {
      sql := [];
      for x := 0 to |deleteExceptions|
        invariant sql == Deletes(deleteExceptions[..x])
      {
        assert deleteExceptions[..x + 1][..x] == deleteExceptions[..x];
        sql := sql + [Delete(deleteExceptions[x])];
      }
      assert deleteExceptions[..|deleteExceptions|] == deleteExceptions;
    }

    method UpdateDirty() returns (sql: seq<Stmt>)
      ensures sql == Updates(lstExceptions)
    {
      sql := [];
      for y := 0 to |lstExceptions|
        invariant sql == Updates(lstExceptions[..y])
      {
        assert lstExceptions[..y + 1][..y] == lstExceptions[..y];
        var r := lstExceptions[y];
        if r.flag == True && r.id != None { sql := sql + [Update(r.id.value, r.when)]; }
      }
      assert lstExceptions[..|lstExceptions|] == lstExceptions;
    }

    method InsertNew() returns (sql: seq<Stmt>)
      ensures sql == Inserts(lstExceptions)
    {
      sql := [];
      for y := 0 to |lstExceptions|
        invariant sql == Inserts(lstExceptions[..y])
      {
        assert lstExceptions[..y + 1][..y] == lstExceptions[..y];
        var r := lstExceptions[y];
        if r.flag == Empty && r.id == None { sql := sql + [Insert(r.when)]; }
      }
      assert lstExceptions[..|lstExceptions|] == lstExceptions;
    }

    /** The exception part of the script that saves the schedule. */
    method GetUpdateSql() returns (sql: seq<Stmt>)
      ensures sql == Script(Now())
    {
      var deletes := DeleteRemoved();
      var updates := UpdateDirty();
      var inserts := InsertNew();
      sql := deletes + updates + inserts;
    }
  }
}
