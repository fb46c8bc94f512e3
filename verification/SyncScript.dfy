/**
 * Synchronisation scripts: statements that bring the server's key/value list to an edited one.
 * A statement that does not fit the server's state fails and so does the whole script.
 */
module SyncScript {
  import opened Basics

  /** Add needs the key absent, Set and Drop need it present, Put and Clear work either way, Malformed never. */
  datatype Stmt<K, V> =
    | Add(key: K, value: V) | Set(key: K, value: V) | Put(key: K, value: V)
    | Drop(key: K) | Clear(key: K) | Malformed(key: K)

  // ----- the server

  function Lookup<K, V>(m: map<K, V>, k: K): Option<V>
  {
    if k in m then Some(m[k]) else None
  }

  /** What a statement does to its own key: the new value if any, or failure. */
  function Effect<K, V>(before: Option<V>, s: Stmt<K, V>): Option<Option<V>>
  {
    match s
    case Add(_, v) => if before.None? then Some(Some(v)) else None
    case Set(_, v) => if before.Some? then Some(Some(v)) else None
    case Put(_, v) => Some(Some(v))
    case Drop(_) => if before.Some? then Some(None) else None
    case Clear(_) => Some(None)
    case Malformed(_) => None
  }

  function Execute<K, V>(m: map<K, V>, s: Stmt<K, V>): Option<map<K, V>>
  {
    match Effect(Lookup(m, s.key), s)
    case None => None
    case Some(after) => Some(if after.Some? then m[s.key := after.value] else m - {s.key})
  }

  /** Runs a script in order; the first failing statement fails it. */
  function Run<K, V>(m: map<K, V>, script: seq<Stmt<K, V>>): Option<map<K, V>>
    decreases |script|
  {
    if script == [] then Some(m)
    else
      match Execute(m, script[0])
      case None => None
      case Some(next) => Run(next, script[1..])
  }

  // ----- one key at a time

  function OnKey<K(==), V>(script: seq<Stmt<K, V>>, k: K): seq<Stmt<K, V>>
  {
    if script == [] then []
    else (if script[0].key == k then [script[0]] else []) + OnKey(script[1..], k)
  }

  function RunOnKey<K, V>(before: Option<V>, script: seq<Stmt<K, V>>): Option<Option<V>>
    decreases |script|
  {
    if script == [] then Some(before)
    else
      match Effect(before, script[0])
      case None => None
      case Some(after) => RunOnKey(after, script[1..])
  }

  /** Statements on different keys do not disturb each other. */
  lemma {:induction false} KeysAreIndependent<K(!new), V>(m: map<K, V>, script: seq<Stmt<K, V>>)
    requires forall k :: RunOnKey(Lookup(m, k), OnKey(script, k)).Some?
    ensures Run(m, script).Some?
    ensures forall k :: Some(Lookup(Run(m, script).value, k)) == RunOnKey(Lookup(m, k), OnKey(script, k))
    decreases |script|
  {
    if script != [] {
      var s, rest := script[0], script[1..];
      assert OnKey(script, s.key) == [s] + OnKey(rest, s.key);
      assert RunOnKey(Lookup(m, s.key), OnKey(script, s.key)).Some?;
      var next := Execute(m, s).value;
      forall k ensures RunOnKey(Lookup(next, k), OnKey(rest, k)) == RunOnKey(Lookup(m, k), OnKey(script, k)) {
        if k != s.key { assert OnKey(script, k) == OnKey(rest, k) && Lookup(next, k) == Lookup(m, k); }
      }
      KeysAreIndependent(next, rest);
    }
  }

  /** And if a script runs through, each key ends as its own statements leave it. */
  lemma {:induction false} EveryKeyRuns<K(!new), V>(m: map<K, V>, script: seq<Stmt<K, V>>, k: K)
    requires Run(m, script).Some?
    ensures RunOnKey(Lookup(m, k), OnKey(script, k)) == Some(Lookup(Run(m, script).value, k))
    decreases |script|
  {
    if script != [] {
      var s, rest := script[0], script[1..];
      var next := Execute(m, s).value;
      EveryKeyRuns(next, rest, k);
      if k != s.key { assert OnKey(script, k) == OnKey(rest, k) && Lookup(next, k) == Lookup(m, k); }
      else { assert OnKey(script, k) == [s] + OnKey(rest, k); }
    }
  }

  lemma {:induction false} OnKeyConcat<K, V>(a: seq<Stmt<K, V>>, b: seq<Stmt<K, V>>, k: K)
    ensures OnKey(a + b, k) == OnKey(a, k) + OnKey(b, k)
    decreases |a|
  {
    if a == [] { assert a + b == b; }
    else {
      assert (a + b)[1..] == a[1..] + b && (a + b)[0] == a[0];
      OnKeyConcat(a[1..], b, k);
      Regroup(if a[0].key == k then [a[0]] else [], OnKey(a[1..], k), OnKey(b, k));
    }
  }

  lemma {:induction false} KeyOfStatementOccurs<K, V>(script: seq<Stmt<K, V>>, i: nat)
    requires i < |script|
    ensures OnKey(script, script[i].key) != []
    decreases i
  {
    if i > 0 { KeyOfStatementOccurs(script[1..], i - 1); }
  }

  // ----- lists of rows

  /** No two rows have the same key. */
  ghost predicate Distinct<K, V>(rows: seq<(K, V)>)
  {
    forall i, j :: 0 <= i < j < |rows| ==> rows[i].0 != rows[j].0
  }

  function Find<K(==), V>(rows: seq<(K, V)>, k: K): Option<V>
  {
    if rows == [] then None
    else if rows[0].0 == k then Some(rows[0].1)
    else Find(rows[1..], k)
  }

  function ToMap<K, V>(rows: seq<(K, V)>): map<K, V>
  {
    if rows == [] then map[] else ToMap(rows[1..])[rows[0].0 := rows[0].1]
  }

  lemma {:induction false} LookupIsFind<K, V>(rows: seq<(K, V)>, k: K)
    ensures Lookup(ToMap(rows), k) == Find(rows, k)
  {
    if rows != [] { LookupIsFind(rows[1..], k); }
  }

  lemma {:induction false} FindAt<K, V>(rows: seq<(K, V)>, i: nat)
    requires Distinct(rows) && i < |rows|
    ensures Find(rows, rows[i].0) == Some(rows[i].1)
  {
    if i > 0 {
      assert rows[0].0 != rows[i].0;
      FindAt(rows[1..], i - 1);
    }
  }

  lemma {:induction false} FindNone<K, V>(rows: seq<(K, V)>, k: K)
    ensures Find(rows, k) == None <==> forall i :: 0 <= i < |rows| ==> rows[i].0 != k
    ensures Find(rows, k) == None || exists i :: 0 <= i < |rows| && rows[i] == (k, Find(rows, k).value)
  {
    if rows != [] {
      FindNone(rows[1..], k);
      if Find(rows[1..], k).Some? && rows[0].0 != k {
        var i :| 0 <= i < |rows[1..]| && rows[1..][i] == (k, Find(rows[1..], k).value);
        assert rows[i + 1] == (k, Find(rows, k).value);
      }
      if Find(rows, k) == None { assert forall i :: 0 < i < |rows| ==> rows[i] == rows[1..][i - 1]; }
    }
  }

  /** Concatenates what f emits for each row in turn. */
  function PerRow<K, V, S>(rows: seq<(K, V)>, f: ((K, V)) -> seq<S>): seq<S>
    decreases |rows|
  {
    if rows == [] then []
    else PerRow(rows[..|rows| - 1], f) + f(rows[|rows| - 1])
  }

  ghost predicate OwnKeyOnly<K(!new), V(!new)>(f: ((K, V)) -> seq<Stmt<K, V>>)
  {
    forall row: (K, V), k: K ::
      OnKey(f(row), k) == if k == row.0 then f(row) else []
  }

  /** On a key, a pass over distinct rows emits what it emits for the row with that key. */
  lemma {:induction false} OnKeyPerRow<K(!new), V(!new)>(rows: seq<(K, V)>, f: ((K, V)) -> seq<Stmt<K, V>>, k: K)
    requires Distinct(rows) && OwnKeyOnly(f)
    ensures OnKey(PerRow(rows, f), k) == if Find(rows, k).Some? then f((k, Find(rows, k).value)) else []
    decreases |rows|
  {
    if rows != [] {
      var init, last := rows[..|rows| - 1], rows[|rows| - 1];
      OnKeyPerRow(init, f, k);
      OnKeyConcat(PerRow(init, f), f(last), k);
      FindNone(init, k);
      FindNone(rows, k);
      if last.0 == k {
        FindAt(rows, |rows| - 1);
        assert Find(init, k) == None;
      } else if Find(init, k).Some? {
        var i :| 0 <= i < |init| && init[i] == (k, Find(init, k).value);
        FindAt(rows, i);
        assert rows[i] == init[i];
      }
    }
  }

  // ----- exact scripts

  /** On key k the script takes the server from its old value to the new one and does nothing if they agree. */
  ghost predicate ExactOn<K, V>(script: seq<Stmt<K, V>>, k: K, before: Option<V>, after: Option<V>)
  {
    && RunOnKey(before, OnKey(script, k)) == Some(after)
    && (before == after ==> OnKey(script, k) == [])
  }

  /** A script exact on every key never fails, ends at the edited map, and is empty iff nothing changed. */
  lemma ExactScriptSynchronises<K(!new), V>(script: seq<Stmt<K, V>>, old': map<K, V>, edited: map<K, V>)
    requires forall k :: ExactOn(script, k, Lookup(old', k), Lookup(edited, k))
    ensures Run(old', script) == Some(edited)
    ensures script == [] <==> old' == edited
  {
    assert forall k :: ExactOn(script, k, Lookup(old', k), Lookup(edited, k)) ==>
                         RunOnKey(Lookup(old', k), OnKey(script, k)).Some?;
    KeysAreIndependent(old', script);
    var end := Run(old', script).value;
    assert forall k :: Lookup(end, k) == Lookup(edited, k) by {
      forall k ensures Lookup(end, k) == Lookup(edited, k) {
        assert ExactOn(script, k, Lookup(old', k), Lookup(edited, k));
      }
    }
    SameLookups(end, edited);
    if script != [] {
      KeyOfStatementOccurs(script, 0);
      assert ExactOn(script, script[0].key, Lookup(old', script[0].key), Lookup(edited, script[0].key));
    }
  }

  lemma SameLookups<K(!new), V>(a: map<K, V>, b: map<K, V>)
    requires forall k :: Lookup(a, k) == Lookup(b, k)
    ensures a == b
  {
    assert forall k :: k in a ==> Lookup(b, k) == Some(a[k]) by {
      forall k | k in a ensures Lookup(b, k) == Some(a[k]) { assert Lookup(a, k) == Lookup(b, k); }
    }
    assert forall k :: k in b ==> Lookup(a, k) == Some(b[k]) by {
      forall k | k in b ensures Lookup(a, k) == Some(b[k]) { assert Lookup(a, k) == Lookup(b, k); }
    }
    assert a.Keys == b.Keys;
  }
}
