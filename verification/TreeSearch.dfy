/**
 * Type-ahead search in the object tree: from the current item in display order, wrapping around once.
 */
module TreeSearch {
  import opened Basics

  datatype Tree = Node(text: string, hasData: bool, kids: seq<Tree>)

  /** An item is addressed by the child numbers on the way down from the root. */
  type Item = seq<nat>

  predicate IsItem(t: Tree, p: Item)
    decreases |p|
  {
    p == [] || (p[0] < |t.kids| && IsItem(t.kids[p[0]], p[1..]))
  }

  function At(t: Tree, p: Item): Tree
    requires IsItem(t, p)
    decreases |p|
  {
    if p == [] then t else At(t.kids[p[0]], p[1..])
  }

  // ----- the tree control's navigation

  function FirstChild(t: Tree, p: Item): Option<Item>
    requires IsItem(t, p)
  {
    if At(t, p).kids != [] then Some(p + [0]) else None
  }

  function Parent(p: Item): Option<Item>
  {
    if p == [] then None else Some(p[..|p| - 1])
  }

  function NextSibling(t: Tree, p: Item): Option<Item>
  {
    if p != [] && IsItem(t, p[..|p| - 1] + [p[|p| - 1] + 1]) then Some(p[..|p| - 1] + [p[|p| - 1] + 1]) else None
  }

  lemma {:induction false} ChildIsItem(t: Tree, p: Item, c: nat)
    requires IsItem(t, p)
    ensures IsItem(t, p + [c]) <==> c < |At(t, p).kids|
    decreases |p|
  {
    if p != [] {
      assert (p + [c])[1..] == p[1..] + [c];
      ChildIsItem(t.kids[p[0]], p[1..], c);
    }
  }

  lemma {:induction false} ParentIsItem(t: Tree, p: Item)
    requires IsItem(t, p) && p != []
    ensures IsItem(t, p[..|p| - 1])
    decreases |p|
  {
    if |p| > 1 {
      assert p[..|p| - 1][1..] == p[1..][..|p| - 2];
      ParentIsItem(t.kids[p[0]], p[1..]);
    }
  }

  // ----- display order

  function Below(c: nat, items: seq<Item>): seq<Item>
  {
    seq(|items|, i requires 0 <= i < |items| => [c] + items[i])
  }

  /** All items from top to bottom: an item, then everything below it, child by child. */
  function Preorder(t: Tree): (items: seq<Item>)
    ensures |items| > 0 && items[0] == []
    decreases t
  {
    [[]] + PreorderFrom(t.kids, 0)
  }

  function PreorderFrom(kids: seq<Tree>, c: nat): seq<Item>
    requires c <= |kids|
    decreases kids, |kids| - c
  {
    if c == |kids| then [] else Below(c, Preorder(kids[c])) + PreorderFrom(kids, c + 1)
  }

  // ----- one step of the search

  /** The next sibling of p or of its nearest ancestor that has one. */
  function NextAbove(t: Tree, p: Item): Option<Item>
    decreases |p|
  {
    if NextSibling(t, p).Some? then NextSibling(t, p)
    else if p == [] then None
    else NextAbove(t, p[..|p| - 1])
  }

  function Successor(t: Tree, p: Item): Option<Item>
    requires IsItem(t, p)
  {
    if FirstChild(t, p).Some? then FirstChild(t, p) else NextAbove(t, p)
  }

  function Lift(c: nat, p: Option<Item>): Option<Item>
  {
    if p.Some? then Some([c] + p.value) else None
  }

  function NextKid(t: Tree, c: nat): Option<Item>
  {
    if c + 1 < |t.kids| then Some([c + 1]) else None
  }

  lemma {:induction false} NextAboveInChild(t: Tree, c: nat, q: Item)
    requires c < |t.kids|
    ensures NextAbove(t, [c] + q) ==
            if NextAbove(t.kids[c], q).Some? then Lift(c, NextAbove(t.kids[c], q)) else NextKid(t, c)
    decreases |q|
  {
    var p := [c] + q;
    if q == [] {
      var next: Item := [c + 1];
      assert p == [c] && p[..|p| - 1] == [] && p[..|p| - 1] + [p[|p| - 1] + 1] == next;
      assert next[0] == c + 1 && next[1..] == [];
      if c + 1 < |t.kids| { assert IsItem(t.kids[c + 1], next[1..]) && IsItem(t, next); }
      assert NextSibling(t, p) == NextKid(t, c);
      assert NextAbove(t, []) == None && NextAbove(t.kids[c], []) == None;
    } else {
      var s := q[..|q| - 1] + [q[|q| - 1] + 1];
      assert p[..|p| - 1] == [c] + q[..|q| - 1];
      assert p[..|p| - 1] + [p[|p| - 1] + 1] == [c] + s;
      assert ([c] + s)[1..] == s;
      NextAboveInChild(t, c, q[..|q| - 1]);
    }
  }

  lemma SuccessorInChild(t: Tree, c: nat, q: Item)
    requires c < |t.kids| && IsItem(t.kids[c], q)
    ensures IsItem(t, [c] + q)
    ensures Successor(t, [c] + q) ==
            if Successor(t.kids[c], q).Some? then Lift(c, Successor(t.kids[c], q)) else NextKid(t, c)
  {
    var p := [c] + q;
    assert p[1..] == q;
    if FirstChild(t.kids[c], q).Some? { assert p + [0] == [c] + (q + [0]); }
    else { NextAboveInChild(t, c, q); }
  }

  /** Element k of `items` is an item of t and its successor is element k + 1. */
  ghost predicate StepsThrough(t: Tree, items: seq<Item>, k: nat, after: Option<Item>)
    requires k < |items|
  {
    && IsItem(t, items[k])
    && Successor(t, items[k]) == if k + 1 < |items| then Some(items[k + 1]) else after
  }

  lemma {:induction false} KidsStepThrough(t: Tree, c: nat, k: nat)
    requires c <= |t.kids| && k < |PreorderFrom(t.kids, c)|
    ensures StepsThrough(t, PreorderFrom(t.kids, c), k, None)
    decreases t, |t.kids| - c
  {
    var kid := t.kids[c];
    var own, rest := Preorder(kid), PreorderFrom(t.kids, c + 1);
    var all := PreorderFrom(t.kids, c);
    if k < |own| {
      PreorderStepsThrough(kid, k);
      SuccessorInChild(t, c, own[k]);
      assert all[k] == [c] + own[k];
      if k + 1 == |own| && c + 1 < |t.kids| {
        assert rest[0] == [c + 1] + Preorder(t.kids[c + 1])[0] == [c + 1];
      }
    } else {
      KidsStepThrough(t, c + 1, k - |own|);
      assert all[k] == rest[k - |own|];
    }
  }

  /** First child, else next sibling of the nearest ancestor, is exactly the next item in display order. */
  lemma {:induction false} PreorderStepsThrough(t: Tree, k: nat)
    requires k < |Preorder(t)|
    ensures StepsThrough(t, Preorder(t), k, None)
    decreases t, |t.kids| + 1
  {
    if k > 0 { KidsStepThrough(t, 0, k - 1); }
    else {
      assert NextAbove(t, []) == None;
      if t.kids != [] {
        assert PreorderFrom(t.kids, 0)[0] == [0] + Preorder(t.kids[0])[0] == [0];
        var root: Item := [];
        assert root + [0] == [0];
      }
    }
  }

  lemma {:induction false} ItemInKids(kids: seq<Tree>, from: nat, p: Item) returns (k: nat)
    requires p != [] && from <= p[0] < |kids| && IsItem(kids[p[0]], p[1..])
    ensures k < |PreorderFrom(kids, from)| && PreorderFrom(kids, from)[k] == p
    decreases kids, |kids| - from
  {
    var own := Preorder(kids[from]);
    if p[0] == from {
      k := ItemInPreorder(kids[from], p[1..]);
      assert p == [from] + p[1..];
    } else {
      var j := ItemInKids(kids, from + 1, p);
      k := |own| + j;
    }
  }

  /** Every item occurs in display order. */
  lemma {:induction false} ItemInPreorder(t: Tree, p: Item) returns (k: nat)
    requires IsItem(t, p)
    ensures k < |Preorder(t)| && Preorder(t)[k] == p
    decreases t
  {
    if p == [] { k := 0; }
    else {
      var j := ItemInKids(t.kids, 0, p);
      k := j + 1;
    }
  }

  lemma {:induction false} KidsHead(kids: seq<Tree>, c: nat, k: nat)
    requires c <= |kids| && k < |PreorderFrom(kids, c)|
    ensures |PreorderFrom(kids, c)[k]| > 0 && PreorderFrom(kids, c)[k][0] >= c
    decreases |kids| - c
  {
    var own := Preorder(kids[c]);
    if k >= |own| { KidsHead(kids, c + 1, k - |own|); }
  }

  lemma {:induction false} KidsDistinct(kids: seq<Tree>, c: nat, i: nat, j: nat)
    requires c <= |kids| && i < j < |PreorderFrom(kids, c)|
    ensures PreorderFrom(kids, c)[i] != PreorderFrom(kids, c)[j]
    decreases kids, |kids| - c
  {
    var own, rest := Preorder(kids[c]), PreorderFrom(kids, c + 1);
    if j < |own| {
      PreorderDistinct(kids[c], i, j);
      assert ([c] + own[i])[1..] == own[i] && ([c] + own[j])[1..] == own[j];
    } else if i < |own| { KidsHead(kids, c + 1, j - |own|); }
    else { KidsDistinct(kids, c + 1, i - |own|, j - |own|); }
  }

  /** No item occurs twice in display order. */
  lemma {:induction false} PreorderDistinct(t: Tree, i: nat, j: nat)
    requires i < j < |Preorder(t)|
    ensures Preorder(t)[i] != Preorder(t)[j]
    decreases t
  {
    if i == 0 { KidsHead(t.kids, 0, j - 1); } else { KidsDistinct(t.kids, 0, i - 1, j - 1); }
  }

  // ----- the search

  /** A real item, not the placeholder of an unexpanded one, whose text starts with the prefix in any case. */
  predicate Matches(node: Tree, prefix: string)
  {
    !(node.text == "Dummy" && !node.hasData) && Lower(prefix) <= Lower(node.text)
  }

  /**
   * A match starts with the prefix up to the case of letters; only the item with exactly the
   * placeholder's text and nothing behind it is passed over.
   */
  lemma MatchesMeans(node: Tree, prefix: string)
    ensures Matches(node, prefix) <==>
            && (node.hasData || node.text != "Dummy")
            && |prefix| <= |node.text| && SameLetters(prefix, node.text[..|prefix|])
  {
    if |prefix| <= |node.text| {
      SameLettersMeans(prefix, node.text[..|prefix|]);
      assert Lower(node.text[..|prefix|]) == Lower(node.text)[..|prefix|];
    }
  }

  predicate Hit(t: Tree, prefix: string, p: Item)
  {
    IsItem(t, p) && Matches(At(t, p), prefix)
  }

  ghost predicate NoHit(t: Tree, prefix: string, lo: int, hi: int)
  {
    var items := Preorder(t);
    forall i :: 0 <= i < |items| && lo <= i < hi ==> !Hit(t, prefix, items[i])
  }

  /** r is the first hit among the items lo .. hi - 1 in display order. */
  ghost predicate FirstHit(t: Tree, prefix: string, lo: int, hi: int, r: Option<Item>)
  {
    var items := Preorder(t);
    exists m :: 0 <= m < |items| && lo <= m < hi && Hit(t, prefix, items[m])
                && NoHit(t, prefix, lo, m) && r == Some(items[m])
  }

  /**
   * What a search from item number k finds: the first hit after it (from it on, unless the prefix is
   * one letter), else the first hit from the top down to it, else the item itself. A hidden root is
   * never reached from the top.
   */
  ghost predicate Found(t: Tree, prefix: string, hideRoot: bool, k: nat, r: Option<Item>)
    requires k < |Preorder(t)|
  {
    var items := Preorder(t);
    var from := if |prefix| == 1 then k + 1 else k;
    var top := if hideRoot then 1 else 0;
    if !NoHit(t, prefix, from, |items|) then FirstHit(t, prefix, from, |items|, r)
    else if !NoHit(t, prefix, top, k) then FirstHit(t, prefix, top, k, r)
    else r == if top <= k then Some(items[k]) else None
  }

  /** Steps to the first child, or climbs to the next sibling of this item or of an ancestor. */
  method NextItem(t: Tree, id: Item) returns (next: Option<Item>)
    requires IsItem(t, id)
    ensures next == Successor(t, id)
  {
    next := FirstChild(t, id);
    if next.None? {
      var p := Some(id);
      next := NextSibling(t, id);
      p := Parent(id);
      while p.Some? && next.None?
        invariant next.Some? ==> next == NextAbove(t, id)
        invariant next.None? ==> NextAbove(t, id) == if p.Some? then NextAbove(t, p.value) else None
        decreases if p.Some? then |p.value| + 1 else 0
      {
        next := NextSibling(t, p.value);
        p := Parent(p.value);
      }
    }
  }

  /** The item as a display position; |Preorder(t)| stands for "no item". */
  ghost predicate IsNumber(t: Tree, id: Option<Item>, m: nat)
  {
    var items := Preorder(t);
    m <= |items| && id == if m < |items| then Some(items[m]) else None
  }

  /** Walks down from item number m to the first hit, or to the item to stop at, or off the end. */
  method Walk(t: Tree, start: Option<Item>, prefix: string, stop: Option<Item>, ghost m: nat)
    returns (id: Option<Item>, ghost n: nat)
    requires IsNumber(t, start, m)
    ensures m <= n && IsNumber(t, id, n) && NoHit(t, prefix, m, n)
    ensures id.Some? ==> id == stop || Hit(t, prefix, id.value)
    ensures forall i :: m <= i < n && i < |Preorder(t)| ==> Some(Preorder(t)[i]) != stop
  {
    id, n := start, m;
    while id.Some? && id != stop && !Hit(t, prefix, id.value)
      invariant m <= n && IsNumber(t, id, n) && NoHit(t, prefix, m, n)
      invariant forall i :: m <= i < n && i < |Preorder(t)| ==> Some(Preorder(t)[i]) != stop
      decreases |Preorder(t)| - n
    {
      PreorderStepsThrough(t, n);
      id := NextItem(t, id.value);
      n := n + 1;
    }
  }

  lemma HitIsFirst(t: Tree, prefix: string, lo: int, hi: int, m: nat)
    requires m < |Preorder(t)| && lo <= m < hi && Hit(t, prefix, Preorder(t)[m]) && NoHit(t, prefix, lo, m)
    ensures FirstHit(t, prefix, lo, hi, Some(Preorder(t)[m])) && !NoHit(t, prefix, lo, hi)
  {
  }

  /** Searches from the current item, wherever it stands in display order. */
  method FindItem(t: Tree, hideRoot: bool, current: Item, prefix: string) returns (r: Option<Item>)
    requires IsItem(t, current)
    ensures exists k: nat :: k < |Preorder(t)| && Preorder(t)[k] == current && Found(t, prefix, hideRoot, k, r)
  {
    ghost var items := Preorder(t);
    ghost var k := ItemInPreorder(t, current);
    PreorderStepsThrough(t, k);
    r := Some(current);
    ghost var n := k;
    if |prefix| == 1 {
      r := NextItem(t, current);
      n := k + 1;
    }
    ghost var from := n;
    r, n := Walk(t, r, prefix, None, n);
    if r.Some? {
      HitIsFirst(t, prefix, from, |items|, n);
    } else {
      r, n := Some([]), 0;
      if hideRoot {
        PreorderStepsThrough(t, 0);
        r := NextItem(t, []);
        n := 1;
      }
      ghost var top := n;
      r, n := Walk(t, r, prefix, Some(current), n);
      if n < k {
        PreorderDistinct(t, n, k);
        HitIsFirst(t, prefix, top, k, n);
      } else if k < n < |items| {
        PreorderDistinct(t, k, n);
      }
    }
  }
}
