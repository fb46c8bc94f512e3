/**
 * The tree view with check boxes. Nodes are numbered in creation order, so a parent comes before
 * its children; node 0 is the root.
 */
module CheckTree {
  import opened ParentVector

  const UNCHECKED := 0
  const CHECKED := 1

  /** The node's image after a click on `node`: the subtree follows it, and checking also checks all ancestors. */
  ghost function Clicked(up: seq<nat>, image: seq<int>, node: nat, i: nat): int
    requires IsTree(up) && |image| == |up| && node < |up| && i < |up|
  {
    if image[node] == UNCHECKED then (if Under(up, i, node) || Under(up, node, i) then CHECKED else image[i])
    else (if Under(up, i, node) then UNCHECKED else image[i])
  }

  ghost function Click(up: seq<nat>, image: seq<int>, node: nat): (r: seq<int>)
    requires IsTree(up) && |image| == |up| && node < |up|
    ensures |r| == |up|
  {
    seq(|up|, i requires 0 <= i < |up| => Clicked(up, image, node, i))
  }

  ghost function Clicks(up: seq<nat>, image: seq<int>, nodes: seq<nat>): (r: seq<int>)
    requires IsTree(up) && |image| == |up| && forall k :: 0 <= k < |nodes| ==> nodes[k] < |up|
    ensures |r| == |up|
    decreases |nodes|
  {
    if nodes == [] then image
    else Click(up, Clicks(up, image, nodes[..|nodes| - 1]), nodes[|nodes| - 1])
  }

  /** A checked node's parent is checked. */
  ghost predicate AncestorClosed(up: seq<nat>, image: seq<int>)
    requires IsTree(up) && |image| == |up|
  {
    forall i {:trigger up[i]} :: 0 < i < |up| && image[i] == CHECKED ==> image[up[i]] == CHECKED
  }

  lemma {:induction false} ParentOfAncestor(up: seq<nat>, node: nat, i: nat)
    requires IsTree(up) && node < |up| && 0 < i < |up| && Under(up, node, i)
    ensures Under(up, node, up[i])
    decreases node
  {
    if node != i { ParentOfAncestor(up, up[node], i); }
  }

  lemma ClickKeepsClosed(up: seq<nat>, image: seq<int>, node: nat)
    requires IsTree(up) && |image| == |up| && node < |up| && AncestorClosed(up, image)
    ensures AncestorClosed(up, Click(up, image, node))
  {
    forall i | 0 < i < |up| && Clicked(up, image, node, i) == CHECKED
      ensures Clicked(up, image, node, up[i]) == CHECKED
    {
      if Under(up, node, i) { ParentOfAncestor(up, node, i); }
    }
  }

  /** Whatever is clicked in whatever order, a checked node's ancestors stay checked. */
  lemma {:induction false} ClicksKeepClosed(up: seq<nat>, image: seq<int>, nodes: seq<nat>)
    requires IsTree(up) && |image| == |up| && AncestorClosed(up, image)
    requires forall k :: 0 <= k < |nodes| ==> nodes[k] < |up|
    ensures AncestorClosed(up, Clicks(up, image, nodes))
    decreases |nodes|
  {
    if nodes != [] {
      var init := nodes[..|nodes| - 1];
      ClicksKeepClosed(up, image, init);
      ClickKeepsClosed(up, Clicks(up, image, init), nodes[|nodes| - 1]);
    }
  }

  lemma {:induction false} CheckedUpwards(up: seq<nat>, image: seq<int>, d: nat, a: nat)
    requires IsTree(up) && |image| == |up| && AncestorClosed(up, image)
    requires d < |up| && Under(up, d, a) && image[d] == CHECKED
    ensures a < |up| && image[a] == CHECKED
    decreases d
  {
    if d != a { CheckedUpwards(up, image, up[d], a); }
  }

  /** i is the node or lies below one of its children numbered under c. */
  ghost predicate ReachedBefore(up: seq<nat>, i: nat, node: nat, c: nat)
    requires IsTree(up) && i < |up| && c <= |up|
  {
    i == node || exists k :: node < k < c && up[k] == node && Under(up, i, k)
  }

  lemma ReachedIsUnder(up: seq<nat>, i: nat, node: nat)
    requires IsTree(up) && i < |up| && node < |up|
    ensures ReachedBefore(up, i, node, |up|) <==> Under(up, i, node)
  {
    if Under(up, i, node) && i != node { var c := ChildToward(up, i, node); }
    if ReachedBefore(up, i, node, |up|) && i != node {
      var k :| node < k < |up| && up[k] == node && Under(up, i, k);
      UnderTransitive(up, i, k, node);
    }
  }

  class CheckTreeView {
    const up: seq<nat>
    const image: array<int>

    ghost predicate Valid() reads this { IsTree(up) && image.Length == |up| }

    constructor (up: seq<nat>)
      requires IsTree(up)
      ensures Valid() && this.up == up && fresh(image) && forall i :: 0 <= i < |up| ==> image[i] == UNCHECKED
    {
      this.up := up;
      image := new int[|up|](_ => UNCHECKED);
    }

    /** Sets the node and, child by child, everything below it. */
    method SetParentAndChildImage(node: nat, newimage: int)
      requires Valid() && node < |up|
      modifies image
      ensures forall i :: 0 <= i < |up| ==> image[i] == if Under(up, i, node) then newimage else old(image[i])
      decreases |up| - node
    {
      image[node] := newimage;
      for child := node + 1 to |up|
        invariant forall i :: 0 <= i < |up| ==>
                    image[i] == if ReachedBefore(up, i, node, child) then newimage else old(image[i])
      {
        if up[child] == node { SetParentAndChildImage(child, newimage); }
        assert forall i :: 0 <= i < |up| ==>
          (ReachedBefore(up, i, node, child + 1) <==>
           ReachedBefore(up, i, node, child) || (up[child] == node && Under(up, i, child)));
      }
      forall i | 0 <= i < |up| ensures ReachedBefore(up, i, node, |up|) <==> Under(up, i, node) {
        ReachedIsUnder(up, i, node);
      }
    }

    /** Sets the node and all its ancestors. */
    method SetParentImage(node: nat, newimage: int)
      requires Valid() && node < |up|
      modifies image
      ensures forall i :: 0 <= i < |up| ==> image[i] == if Under(up, node, i) then newimage else old(image[i])
      decreases node
    {
      image[node] := newimage;
      if node > 0 { SetParentImage(up[node], newimage); }
    }

    /** A click on a label or icon; any image but the unchecked one leads to unchecked. */
    method OnLeftClick(node: nat, onLabelOrIcon: bool)
      requires Valid() && node < |up|
      modifies image
      ensures image[..] == if onLabelOrIcon then Click(up, old(image[..]), node) else old(image[..])
      ensures onLabelOrIcon && old(image[node]) == 0 ==> forall i :: 0 <= i < |up| ==>
                image[i] == if Under(up, i, node) || Under(up, node, i) then 1 else old(image[i])
      ensures onLabelOrIcon && old(image[node]) != 0 ==> forall i :: 0 <= i < |up| ==>
                image[i] == if Under(up, i, node) then 0 else old(image[i])
    {
      var newimage := 0;
      if onLabelOrIcon {
        if image[node] == 0 { newimage := 1; }
        else if image[node] == 1 { newimage := 0; }
        if newimage == 0 || newimage == 1 { SetParentAndChildImage(node, newimage); }
        if newimage == 1 { SetParentImage(node, newimage); }
        assert image[..] == Click(up, old(image[..]), node);
      }
    }

    /** In an ancestor-closed tree one image tells about the whole path above or the whole subtree below. */
    method IsChecked(node: nat) returns (checked: bool)
      requires Valid() && node < |up|
      ensures checked <==> image[node] == CHECKED
      ensures AncestorClosed(up, image[..]) ==>
                if checked then forall a :: 0 <= a < |up| && Under(up, node, a) ==> image[a] == CHECKED
                else forall d :: 0 <= d < |up| && Under(up, d, node) ==> image[d] != CHECKED
    {
      checked := image[node] == 1;
      if AncestorClosed(up, image[..]) {
        forall d: nat, a: nat | d < |up| && a < |up| && Under(up, d, a) && image[d] == CHECKED
          ensures image[a] == CHECKED
        {
          CheckedUpwards(up, image[..], d, a);
        }
      }
    }
  }
}
