/**
 The tiled hierarchy the treemap decorates.

 The node objects are those of d3-hierarchy after `treemap(root)` has run on a
 deep clone. They are held in an arena: node `i` names its parent by index, and
 the index order is a parent-first order, in which both selections are listed.
 */
module Hierarchy {
  import opened Wrappers

  /** A property value inside a datum record. */
  datatype Value = Str(s: string) | Num(n: int)

  /** A datum record (`node.data`): the user's object for one node, by key. */
  type Record = map<string, Value>

  /** The rectangle the tiling writes on a node, rounded to integers. */
  datatype Tile = Tile(x0: int, y0: int, x1: int, y1: int)

  /** The properties the decoration callback adds to a node. */
  datatype Decoration = Decoration(
    path: string,
    nodeHeight: int,
    x: int,
    y: int,
    width: int,
    color: string,
    id: string)

  /**
   A hierarchy node. `height` is the tree height (0 for a leaf) until the
   decoration overwrites it with the rectangle's height. `deco` is absent until
   the decoration adds its properties, `labelText` (the property `label`) until
   the label pass adds it.
   */
  datatype Node = Node(
    data: Record,
    parent: Option<nat>,
    depth: nat,
    height: int,
    value: int,
    x0: int, y0: int, x1: int, y1: int,
    deco: Option<Decoration>,
    labelText: Option<string>)

  /** Node `i` has no children. */
  predicate IsLeaf(h: seq<Node>, i: nat) {
    forall j :: 0 <= j < |h| ==> h[j].parent != Some(i)
  }

  /** Every parent link points to an earlier node of the arena. */
  predicate ParentsPrecede(h: seq<Node>) {
    forall j :: 0 <= j < |h| && h[j].parent.Some? ==> h[j].parent.value < j
  }

  /**
   What d3-hierarchy guarantees of a built hierarchy: one root, first; every
   other node has an earlier parent one level up; the tree height is never
   negative and is zero exactly for leaves.
   */
  ghost predicate WellFormed(h: seq<Node>) {
    && |h| > 0
    && ParentsPrecede(h)
    && h[0].parent == None
    && h[0].depth == 0
    && (forall j :: 0 < j < |h| ==> h[j].parent.Some? && h[j].depth == h[h[j].parent.value].depth + 1)
    && (forall j :: 0 <= j < |h| ==> h[j].height >= 0 && (h[j].height == 0 <==> IsLeaf(h, j)))
  }

  /** `node.ancestors()`: the node itself, then each parent up to the root. */
  function Ancestors(h: seq<Node>, i: nat): (a: seq<nat>)
    requires ParentsPrecede(h) && i < |h|
    ensures |a| > 0 && a[0] == i
    ensures forall k :: 0 <= k < |a| ==> a[k] < |h|
    ensures forall k :: 0 <= k < |a| - 1 ==> h[a[k]].parent == Some(a[k + 1]) && a[k + 1] < a[k]
    ensures h[a[|a| - 1]].parent == None
    decreases i
  {
    match h[i].parent
    case None => [i]
    case Some(p) => [i] + Ancestors(h, p)
  }

  /** In a well-formed hierarchy the chain ends at the root and has one entry per level. */
  lemma {:induction false} AncestorsReachRoot(h: seq<Node>, i: nat)
    requires WellFormed(h) && i < |h|
    ensures |Ancestors(h, i)| == h[i].depth + 1
    ensures Ancestors(h, i)[|Ancestors(h, i)| - 1] == 0
    decreases i
  {
    match h[i].parent
    case None =>
    case Some(p) =>
      AncestorsReachRoot(h, p);
  }

  /** A node is selected by the traversal: every node, or only the leaves. */
  predicate Selected(h: seq<Node>, i: nat, leavesOnly: bool) {
    !leavesOnly || IsLeaf(h, i)
  }

  /** `root.descendants()`: every node, in arena order. */
  function Descendants(h: seq<Node>): (r: seq<nat>)
    ensures |r| == |h|
    ensures forall n :: 0 <= n < |r| ==> r[n] == n
    ensures forall i: nat :: i < |h| ==> i in r
  {
    var r := seq(|h|, (n: nat) => n);
    assert forall i: nat {:trigger i in r} | i < |h| :: r[i] == i;
    r
  }

  /** The leaves from index `k` on, in arena order. */
  function LeavesFrom(h: seq<Node>, k: nat): (r: seq<nat>)
    requires k <= |h|
    ensures forall n :: 0 <= n < |r| ==> k <= r[n] < |h| && IsLeaf(h, r[n])
    ensures forall n, m :: 0 <= n < m < |r| ==> r[n] < r[m]
    ensures forall i: nat :: k <= i < |h| && IsLeaf(h, i) ==> i in r
    decreases |h| - k
  {
    if k == |h| then []
    else (if IsLeaf(h, k) then [k] else []) + LeavesFrom(h, k + 1)
  }

  /** `root.leaves()`: the leaves, in arena order. */
  function Leaves(h: seq<Node>): (r: seq<nat>)
    ensures forall n :: 0 <= n < |r| ==> r[n] < |h| && IsLeaf(h, r[n])
    ensures forall n, m :: 0 <= n < m < |r| ==> r[n] < r[m]
    ensures forall i: nat :: i < |h| && IsLeaf(h, i) ==> i in r
  {
    LeavesFrom(h, 0)
  }

  /** `leavesOnly ? root.leaves() : root.descendants()` */
  function Selection(h: seq<Node>, leavesOnly: bool): (r: seq<nat>)
    ensures forall n :: 0 <= n < |r| ==> r[n] < |h| && Selected(h, r[n], leavesOnly)
    ensures forall n, m :: 0 <= n < m < |r| ==> r[n] < r[m]
    ensures forall i: nat :: i < |h| && Selected(h, i, leavesOnly) ==> i in r
  {
    if leavesOnly then Leaves(h) else Descendants(h)
  }
}
