/**
 * Trees as parent vectors. Nodes are numbered in creation order, so every node i but the root 0
 * hangs below an earlier node up[i] (up[0] is unused).
 */
module ParentVector {

  ghost predicate IsTree(up: seq<nat>)
  {
    |up| > 0 && forall i :: 0 < i < |up| ==> up[i] < i
  }

  /** d is a or lies below a. */
  ghost predicate Under(up: seq<nat>, d: nat, a: nat)
    requires IsTree(up) && d < |up|
    decreases d
  {
    d == a || (d > 0 && Under(up, up[d], a))
  }

  lemma {:induction false} UnderIsOlder(up: seq<nat>, d: nat, a: nat)
    requires IsTree(up) && d < |up| && Under(up, d, a)
    ensures a <= d
    decreases d
  {
    if d != a { UnderIsOlder(up, up[d], a); }
  }

  /** Two ancestors of one shape are themselves related. */
  lemma {:induction false} AncestorsRelated(up: seq<nat>, d: nat, a: nat, b: nat)
    requires IsTree(up) && d < |up| && Under(up, d, a) && Under(up, d, b) && a <= b
    ensures b < |up| && Under(up, b, a)
    decreases d
  {
    UnderIsOlder(up, d, b);
    if d != b {
      if d == a { UnderIsOlder(up, d, b); }
      else { AncestorsRelated(up, up[d], a, b); }
    }
  }

  /** The child of a on the way down to d. */
  lemma {:induction false} ChildToward(up: seq<nat>, d: nat, a: nat) returns (c: nat)
    requires IsTree(up) && d < |up| && Under(up, d, a) && d != a
    ensures a < c <= d && up[c] == a && Under(up, d, c)
    decreases d
  {
    if up[d] == a { c := d; }
    else { c := ChildToward(up, up[d], a); }
  }

  lemma {:induction false} UnderTransitive(up: seq<nat>, d: nat, c: nat, a: nat)
    requires IsTree(up) && d < |up| && c < |up| && Under(up, d, c) && Under(up, c, a)
    ensures Under(up, d, a)
    decreases d
  {
    if d != c { UnderTransitive(up, up[d], c, a); }
  }

  /** Different children of one shape share no descendant. */
  lemma SiblingsShareNothing(up: seq<nat>, d: nat, b: nat, c: nat)
    requires IsTree(up) && d < |up| && 0 < b < c < |up| && up[b] == up[c]
    ensures !(Under(up, d, b) && Under(up, d, c))
  {
    if Under(up, d, b) && Under(up, d, c) {
      AncestorsRelated(up, d, b, c);
      UnderIsOlder(up, up[c], b);
    }
  }
}
