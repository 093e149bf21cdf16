/**
 The node stage of the treemap enhancer: `computeNodePath`, and the callback
 that, on a deep clone of the caller's hierarchy, writes path, tree height,
 position, size, colour, identity and value onto every selected node.

 The clone is mutated in place, one selected node after the other, so the
 path of a node reads its ancestors' data as they are at that moment: already
 decorated when the ancestors were selected too (they come earlier in the
 traversal), untouched otherwise.
 */
module Treemap {
  import opened Wrappers
  import opened Hierarchy

  /** `Array.prototype.join('.')` on strings: the first part leads, followed by a dot when more come. */
  function JoinDots(parts: seq<string>): (r: string)
    ensures |parts| == 0 ==> r == ""
    ensures |parts| > 0 ==> parts[0] <= r
    ensures |parts| > 1 ==> parts[0] + "." <= r
  {
    if |parts| == 0 then ""
    else if |parts| == 1 then parts[0]
    else parts[0] + "." + JoinDots(parts[1..])
  }

  /** The identities of the listed nodes' current data, in list order. */
  function IdentitiesOf(h: seq<Node>, a: seq<nat>, getIdentity: Record -> string): (ids: seq<string>)
    requires forall k :: 0 <= k < |a| ==> a[k] < |h|
    ensures |ids| == |a|
    ensures forall k :: 0 <= k < |a| ==> ids[k] == getIdentity(h[a[k]].data)
  {
    seq(|a|, k requires 0 <= k < |a| => getIdentity(h[a[k]].data))
  }

  /** `computeNodePath`: the identities of `ancestors()`, joined with dots. */
  function NodePath(h: seq<Node>, i: nat, getIdentity: Record -> string): (r: string)
    requires ParentsPrecede(h) && i < |h|
    ensures getIdentity(h[i].data) <= r
    ensures h[i].parent.Some? ==> getIdentity(h[i].data) + "." <= r
  {
    var a := Ancestors(h, i);
    assert h[i].parent.Some? ==> |a| > 1;
    JoinDots(IdentitiesOf(h, a, getIdentity))
  }

  /**
   A root's path is its own identity; any other node's path is its own
   identity, a dot, then its parent's path, so the node comes first and the
   root last.
   */
  lemma NodePathUnfolds(h: seq<Node>, i: nat, getIdentity: Record -> string)
    requires ParentsPrecede(h) && i < |h|
    ensures h[i].parent.None? ==> NodePath(h, i, getIdentity) == getIdentity(h[i].data)
    ensures h[i].parent.Some? ==>
      NodePath(h, i, getIdentity) == getIdentity(h[i].data) + "." + NodePath(h, h[i].parent.value, getIdentity)
  {
    match h[i].parent
    case None =>
    case Some(p) =>
      var up := Ancestors(h, p);
      IdentitiesCons(h, i, up, getIdentity);
  }

  lemma IdentitiesCons(h: seq<Node>, i: nat, up: seq<nat>, getIdentity: Record -> string)
    requires i < |h| && |up| > 0 && forall k :: 0 <= k < |up| ==> up[k] < |h|
    ensures IdentitiesOf(h, [i] + up, getIdentity) == [getIdentity(h[i].data)] + IdentitiesOf(h, up, getIdentity)
    ensures JoinDots(IdentitiesOf(h, [i] + up, getIdentity))
         == getIdentity(h[i].data) + "." + JoinDots(IdentitiesOf(h, up, getIdentity))
  {
    var ids := IdentitiesOf(h, [i] + up, getIdentity);
    assert ids == [getIdentity(h[i].data)] + IdentitiesOf(h, up, getIdentity);
    assert ids[1..] == IdentitiesOf(h, up, getIdentity);
  }

  /** The colour: `getColor({ ...d.data, depth: d.depth })`. */
  function ColorOf(n: Node, getColor: Record -> string): string {
    getColor(n.data["depth" := Num(n.depth)])
  }

  /** The identity, read from the datum after its colour has been written. */
  function IdOf(n: Node, getIdentity: Record -> string, getColor: Record -> string): string {
    getIdentity(n.data["color" := Str(ColorOf(n, getColor))])
  }

  /** The datum after the callback: colour, then identity, then value written into it. */
  function DecoratedData(n: Node, getIdentity: Record -> string, getColor: Record -> string): (r: Record)
    ensures r.Keys == n.data.Keys + {"color", "id", "value"}
    ensures r["color"] == Str(ColorOf(n, getColor))
    ensures r["id"] == Str(IdOf(n, getIdentity, getColor))
    ensures r["value"] == Num(n.value)
    ensures forall key :: key in n.data && key != "color" && key != "id" && key != "value" ==> r[key] == n.data[key]
  {
    n.data["color" := Str(ColorOf(n, getColor))]["id" := Str(IdOf(n, getIdentity, getColor))]["value" := Num(n.value)]
  }

  /**
   The datum of node `j` as the callback for a later descendant reads it:
   already decorated if `j` is selected, untouched otherwise.
   */
  function SeenData(t: seq<Node>, j: nat, leavesOnly: bool,
                    getIdentity: Record -> string, getColor: Record -> string): Record
    requires j < |t|
  {
    if Selected(t, j, leavesOnly) then DecoratedData(t[j], getIdentity, getColor) else t[j].data
  }

  /** The identities from node `j` up to the root, as a descendant's path reads them. */
  function UpwardIds(t: seq<Node>, j: nat, leavesOnly: bool,
                     getIdentity: Record -> string, getColor: Record -> string): seq<string>
    requires ParentsPrecede(t) && j < |t|
    decreases j
  {
    [getIdentity(SeenData(t, j, leavesOnly, getIdentity, getColor))]
      + (match t[j].parent
         case None => []
         case Some(p) => UpwardIds(t, p, leavesOnly, getIdentity, getColor))
  }

  /** The path the callback gives node `i`: its own identity first, then its ancestors' as seen. */
  function PathOf(t: seq<Node>, i: nat, leavesOnly: bool,
                  getIdentity: Record -> string, getColor: Record -> string): string
    requires ParentsPrecede(t) && i < |t|
  {
    JoinDots([getIdentity(t[i].data)]
      + (match t[i].parent
         case None => []
         case Some(p) => UpwardIds(t, p, leavesOnly, getIdentity, getColor)))
  }

  /** Node `i` of the tiled clone after the decoration callback. */
  function DecorateNode(t: seq<Node>, i: nat, leavesOnly: bool,
                        getIdentity: Record -> string, getColor: Record -> string): (r: Node)
    requires ParentsPrecede(t) && i < |t|
    ensures r.(deco := t[i].deco, height := t[i].height, data := t[i].data) == t[i]
    ensures r.deco.Some? && r.deco.value.path == PathOf(t, i, leavesOnly, getIdentity, getColor)
    ensures r.data == DecoratedData(t[i], getIdentity, getColor)
  {
    var n := t[i];
    n.(deco := Some(Decoration(PathOf(t, i, leavesOnly, getIdentity, getColor), n.height,
                               n.x0, n.y0, n.x1 - n.x0, ColorOf(n, getColor), IdOf(n, getIdentity, getColor))),
       height := n.y1 - n.y0,
       data := DecoratedData(n, getIdentity, getColor))
  }

  /** The list the node stage returns: the selected nodes, decorated, in traversal order. */
  function DecoratedNodes(t: seq<Node>, leavesOnly: bool,
                          getIdentity: Record -> string, getColor: Record -> string): (r: seq<Node>)
    requires ParentsPrecede(t)
    ensures |r| == |Selection(t, leavesOnly)|
  {
    var sel := Selection(t, leavesOnly);
    seq(|sel|, k requires 0 <= k < |sel| => DecorateNode(t, sel[k], leavesOnly, getIdentity, getColor))
  }

  /** The clone after the callback: selected nodes decorated, the others as tiled. */
  function DecoratedArena(t: seq<Node>, leavesOnly: bool,
                          getIdentity: Record -> string, getColor: Record -> string): (r: seq<Node>)
    requires ParentsPrecede(t)
    ensures |r| == |t|
  {
    seq(|t|, m requires 0 <= m < |t| =>
      if Selected(t, m, leavesOnly) then DecorateNode(t, m, leavesOnly, getIdentity, getColor) else t[m])
  }

  /** The clone with the rectangles `treemap(root)` computes written on its nodes. */
  function Tiled(h: seq<Node>, tiles: seq<Tile>): (t: seq<Node>)
    requires |tiles| == |h|
    ensures |t| == |h|
  {
    seq(|h|, i requires 0 <= i < |h| =>
      h[i].(x0 := tiles[i].x0, y0 := tiles[i].y0, x1 := tiles[i].x1, y1 := tiles[i].y1))
  }

  /** Tiling writes bounds only, so the tiled clone is as well formed as the hierarchy. */
  lemma TiledKeepsShape(h: seq<Node>, tiles: seq<Tile>)
    requires |tiles| == |h|
    ensures forall i :: 0 <= i < |h| ==> Tiled(h, tiles)[i].parent == h[i].parent
    ensures forall i :: 0 <= i < |h| ==> IsLeaf(Tiled(h, tiles), i) == IsLeaf(h, i)
    ensures ParentsPrecede(h) ==> ParentsPrecede(Tiled(h, tiles))
    ensures WellFormed(h) ==> WellFormed(Tiled(h, tiles))
  {
  }

  /** `cloneDeep(_root)`: a fresh copy of every node and datum. */
  method CloneDeep(root: array<Node>) returns (clone: array<Node>)
    ensures fresh(clone) && clone[..] == root[..]
  {
    clone := new Node[root.Length];
    for i := 0 to root.Length
      invariant forall m :: 0 <= m < i ==> clone[m] == root[m]
    {
      clone[i] := root[i];
    }
  }

  /** `treemap(root)`: the tiling writes its rectangle on every node of the clone. */
  method ApplyTiling(nodes: array<Node>, tiles: seq<Tile>)
    requires |tiles| == nodes.Length
    modifies nodes
    ensures nodes[..] == Tiled(old(nodes[..]), tiles)
  {
    for i := 0 to nodes.Length
      invariant forall m :: 0 <= m < i ==>
        nodes[m] == old(nodes[m]).(x0 := tiles[m].x0, y0 := tiles[m].y0, x1 := tiles[m].x1, y1 := tiles[m].y1)
      invariant forall m :: i <= m < nodes.Length ==> nodes[m] == old(nodes[m])
    {
      nodes[i] := nodes[i].(x0 := tiles[i].x0, y0 := tiles[i].y0, x1 := tiles[i].x1, y1 := tiles[i].y1);
    }
  }

  /** In a strictly increasing list, the entries before position `k` are those below its `k`-th entry. */
  lemma IncreasingPrefix(sel: seq<nat>, k: nat, j: nat)
    requires k < |sel| && forall n, m :: 0 <= n < m < |sel| ==> sel[n] < sel[m]
    ensures j in sel[..k] <==> (j in sel && j < sel[k])
  {
    if j in sel && j < sel[k] {
      var n :| 0 <= n < |sel| && sel[n] == j;
      assert n < k;
      assert sel[..k][n] == j;
    }
  }

  /** Among the nodes up to the `k`-th selected one, those processed are exactly the selected ones before it. */
  lemma ProcessedBefore(t: seq<Node>, leavesOnly: bool, sel: seq<nat>, k: nat, j: nat)
    requires sel == Selection(t, leavesOnly) && k < |sel| && j < |t| && j <= sel[k]
    ensures j in sel[..k] <==> (j < sel[k] && Selected(t, j, leavesOnly))
  {
    IncreasingPrefix(sel, k, j);
    if j in sel {
      var n :| 0 <= n < |sel| && sel[n] == j;
    }
  }

  /**
   The path computed on the clone in its current state equals the expected
   one, as long as every earlier node holds the datum `SeenData` says.
   */
  lemma {:induction false} PathInArena(s: seq<Node>, t: seq<Node>, i: nat, leavesOnly: bool,
                                       getIdentity: Record -> string, getColor: Record -> string)
    requires ParentsPrecede(t) && |s| == |t| && i < |t|
    requires forall m :: 0 <= m < |t| ==> s[m].parent == t[m].parent
    requires s[i].data == t[i].data
    requires forall j :: 0 <= j < i ==> s[j].data == SeenData(t, j, leavesOnly, getIdentity, getColor)
    ensures ParentsPrecede(s)
    ensures NodePath(s, i, getIdentity) == PathOf(t, i, leavesOnly, getIdentity, getColor)
  {
    match t[i].parent
    case None =>
    case Some(p) =>
      UpwardInArena(s, t, p, i, leavesOnly, getIdentity, getColor);
      IdentitiesCons(s, i, Ancestors(s, p), getIdentity);
  }

  lemma {:induction false} UpwardInArena(s: seq<Node>, t: seq<Node>, j: nat, i: nat, leavesOnly: bool,
                                         getIdentity: Record -> string, getColor: Record -> string)
    requires ParentsPrecede(t) && |s| == |t| && j < i < |t|
    requires forall m :: 0 <= m < |t| ==> s[m].parent == t[m].parent
    requires forall m :: 0 <= m < i ==> s[m].data == SeenData(t, m, leavesOnly, getIdentity, getColor)
    ensures ParentsPrecede(s)
    ensures IdentitiesOf(s, Ancestors(s, j), getIdentity) == UpwardIds(t, j, leavesOnly, getIdentity, getColor)
    decreases j
  {
    match t[j].parent
    case None =>
    case Some(p) =>
      UpwardInArena(s, t, p, i, leavesOnly, getIdentity, getColor);
      IdentitiesCons(s, j, Ancestors(s, p), getIdentity);
  }

  /** The clone after the first `k` selected nodes have been decorated. */
  ghost function PartlyDecorated(t: seq<Node>, sel: seq<nat>, k: nat, leavesOnly: bool,
                                 getIdentity: Record -> string, getColor: Record -> string): (s: seq<Node>)
    requires ParentsPrecede(t) && k <= |sel|
    ensures |s| == |t|
  {
    seq(|t|, m requires 0 <= m < |t| =>
      if m in sel[..k] then DecorateNode(t, m, leavesOnly, getIdentity, getColor) else t[m])
  }

  /** The callback changes neither the parent link nor the tree position of a node. */
  lemma DecorateNodeKeepsLinks(t: seq<Node>, i: nat, leavesOnly: bool,
                               getIdentity: Record -> string, getColor: Record -> string)
    requires ParentsPrecede(t) && i < |t|
    ensures DecorateNode(t, i, leavesOnly, getIdentity, getColor).parent == t[i].parent
    ensures DecorateNode(t, i, leavesOnly, getIdentity, getColor).data == DecoratedData(t[i], getIdentity, getColor)
  {
  }

  /**
   When the `k`-th selected node is reached it is still as tiled, and its
   path on the partly decorated clone is the expected one.
   */
  lemma PartlyDecoratedPath(t: seq<Node>, sel: seq<nat>, k: nat, leavesOnly: bool,
                            getIdentity: Record -> string, getColor: Record -> string)
    requires ParentsPrecede(t) && sel == Selection(t, leavesOnly) && k < |sel|
    ensures ParentsPrecede(PartlyDecorated(t, sel, k, leavesOnly, getIdentity, getColor))
    ensures PartlyDecorated(t, sel, k, leavesOnly, getIdentity, getColor)[sel[k]] == t[sel[k]]
    ensures NodePath(PartlyDecorated(t, sel, k, leavesOnly, getIdentity, getColor), sel[k], getIdentity)
         == PathOf(t, sel[k], leavesOnly, getIdentity, getColor)
  {
    var s := PartlyDecorated(t, sel, k, leavesOnly, getIdentity, getColor);
    var i := sel[k];
    forall m | 0 <= m < |t|
      ensures s[m].parent == t[m].parent
    {
      if m in sel[..k] {
        DecorateNodeKeepsLinks(t, m, leavesOnly, getIdentity, getColor);
      }
    }
    forall j | 0 <= j <= i
      ensures j < i ==> s[j].data == SeenData(t, j, leavesOnly, getIdentity, getColor)
      ensures j == i ==> s[j] == t[j]
    {
      ProcessedBefore(t, leavesOnly, sel, k, j);
      if j in sel[..k] {
        DecorateNodeKeepsLinks(t, j, leavesOnly, getIdentity, getColor);
      }
    }
    PathInArena(s, t, i, leavesOnly, getIdentity, getColor);
  }

  /** Decorating the `k`-th selected node turns the clone after `k` nodes into the clone after `k + 1`. */
  lemma PartlyDecoratedNext(t: seq<Node>, sel: seq<nat>, k: nat, leavesOnly: bool,
                            getIdentity: Record -> string, getColor: Record -> string)
    requires ParentsPrecede(t) && k < |sel| && sel[k] < |t|
    ensures PartlyDecorated(t, sel, k, leavesOnly, getIdentity, getColor)
              [sel[k] := DecorateNode(t, sel[k], leavesOnly, getIdentity, getColor)]
         == PartlyDecorated(t, sel, k + 1, leavesOnly, getIdentity, getColor)
  {
    var i := sel[k];
    var before := PartlyDecorated(t, sel, k, leavesOnly, getIdentity, getColor);
    var after := PartlyDecorated(t, sel, k + 1, leavesOnly, getIdentity, getColor);
    var d := DecorateNode(t, i, leavesOnly, getIdentity, getColor);
    forall m | 0 <= m < |t|
      ensures before[i := d][m] == after[m]
    {
      SnocMember(sel, k, m);
    }
  }

  lemma SnocMember(sel: seq<nat>, k: nat, m: nat)
    requires k < |sel|
    ensures (m in sel[..k + 1]) <==> (m in sel[..k] || m == sel[k])
  {
    assert sel[..k + 1] == sel[..k] + [sel[k]];
  }

  /** The decorated list grows by one node per selected node. */
  lemma DecoratedPrefixNext(t: seq<Node>, sel: seq<nat>, k: nat, leavesOnly: bool,
                            getIdentity: Record -> string, getColor: Record -> string)
    requires ParentsPrecede(t) && sel == Selection(t, leavesOnly) && k < |sel|
    ensures DecoratedNodes(t, leavesOnly, getIdentity, getColor)[..k + 1]
         == DecoratedNodes(t, leavesOnly, getIdentity, getColor)[..k] + [DecorateNode(t, sel[k], leavesOnly, getIdentity, getColor)]
  {
    var r := DecoratedNodes(t, leavesOnly, getIdentity, getColor);
    assert r[k] == DecorateNode(t, sel[k], leavesOnly, getIdentity, getColor);
    PrefixSnoc(r, k);
  }

  lemma PrefixSnoc<T>(r: seq<T>, k: nat)
    requires k < |r|
    ensures r[..k + 1] == r[..k] + [r[k]]
  {
  }

  /** Once every selected node has been decorated, the clone is the decorated arena. */
  lemma PartlyDecoratedAll(t: seq<Node>, sel: seq<nat>, leavesOnly: bool,
                           getIdentity: Record -> string, getColor: Record -> string)
    requires ParentsPrecede(t) && sel == Selection(t, leavesOnly)
    ensures PartlyDecorated(t, sel, |sel|, leavesOnly, getIdentity, getColor)
         == DecoratedArena(t, leavesOnly, getIdentity, getColor)
  {
    assert sel[..|sel|] == sel;
    forall m | 0 <= m < |t|
      ensures m in sel <==> Selected(t, m, leavesOnly)
    {
      if m in sel {
        var n :| 0 <= n < |sel| && sel[n] == m;
      }
    }
  }

  /**
   The callback `d => { ... }` on node `i`, the `k`-th selected one, of the
   clone in which the nodes selected before it are already decorated: path
   first, then tree height, bounds, rectangle height, colour, identity and
   value.
   */
  method DecorateAt(nodes: array<Node>, i: nat, getIdentity: Record -> string, getColor: Record -> string,
                    ghost t: seq<Node>, ghost sel: seq<nat>, ghost k: nat, ghost leavesOnly: bool)
    returns (d: Node)
    requires ParentsPrecede(t) && sel == Selection(t, leavesOnly) && k < |sel| && i == sel[k]
    requires nodes[..] == PartlyDecorated(t, sel, k, leavesOnly, getIdentity, getColor)
    modifies nodes
    ensures d == DecorateNode(t, i, leavesOnly, getIdentity, getColor)
    ensures nodes[..] == old(nodes[..])[i := d]
    ensures nodes[..] == PartlyDecorated(t, sel, k + 1, leavesOnly, getIdentity, getColor)
  {
    PartlyDecoratedPath(t, sel, k, leavesOnly, getIdentity, getColor);
    PartlyDecoratedNext(t, sel, k, leavesOnly, getIdentity, getColor);
    d := nodes[i];
    var path := NodePath(nodes[..], i, getIdentity);
    var nodeHeight := d.height;
    var color := getColor(d.data["depth" := Num(d.depth)]);
    var data := d.data["color" := Str(color)];
    var id := getIdentity(data);
    data := data["id" := Str(id)]["value" := Num(d.value)];
    d := d.(deco := Some(Decoration(path, nodeHeight, d.x0, d.y0, d.x1 - d.x0, color, id)),
            height := d.y1 - d.y0,
            data := data);
    nodes[i] := d;
  }

  /**
   The selection and the decoration callback, run in place on the tiled
   clone: returns the decorated list and leaves the clone decorated.
   */
  method DecorateInPlace(nodes: array<Node>, leavesOnly: bool,
                         getIdentity: Record -> string, getColor: Record -> string)
    returns (decorated: seq<Node>)
    requires ParentsPrecede(nodes[..])
    modifies nodes
    ensures decorated == DecoratedNodes(old(nodes[..]), leavesOnly, getIdentity, getColor)
    ensures nodes[..] == DecoratedArena(old(nodes[..]), leavesOnly, getIdentity, getColor)
  {
    ghost var t := nodes[..];
    var sel := Selection(nodes[..], leavesOnly);
    decorated := [];
    var k := 0;
    while k < |sel|
      invariant 0 <= k <= |sel|
      invariant nodes[..] == PartlyDecorated(t, sel, k, leavesOnly, getIdentity, getColor)
      invariant decorated == DecoratedNodes(t, leavesOnly, getIdentity, getColor)[..k]
    {
      var i := sel[k];
      var d := DecorateAt(nodes, i, getIdentity, getColor, t, sel, k, leavesOnly);
      DecoratedPrefixNext(t, sel, k, leavesOnly, getIdentity, getColor);
      decorated := decorated + [d];
      k := k + 1;
    }
    PartlyDecoratedAll(t, sel, leavesOnly, getIdentity, getColor);
  }

  /**
   The node stage (clone, tile, select, decorate). The caller's array is
   outside every frame it writes, so it is left as it was.
   */
  method Enhance(root: array<Node>, tiles: seq<Tile>, leavesOnly: bool,
                 getIdentity: Record -> string, getColor: Record -> string)
    returns (nodes: seq<Node>)
    requires ParentsPrecede(root[..]) && |tiles| == root.Length
    ensures root[..] == old(root[..])
    ensures nodes == DecoratedNodes(Tiled(root[..], tiles), leavesOnly, getIdentity, getColor)
  {
    var clone := CloneDeep(root);
    ApplyTiling(clone, tiles);
    TiledKeepsShape(root[..], tiles);
    nodes := DecorateInPlace(clone, leavesOnly, getIdentity, getColor);
  }

  /**
   The identity accessor gives the same identity for a datum before and
   after the callback has written colour, identity and value into it.
   */
  ghost predicate StableIdentity(getIdentity: Record -> string, getColor: Record -> string) {
    forall n: Node :: getIdentity(DecoratedData(n, getIdentity, getColor)) == getIdentity(n.data)
  }

  /** An accessor that reads a string property of the datum, and "" when it is absent. */
  function PropertyAccessor(key: string): Record -> string {
    (r: Record) => if key in r && r[key].Str? then r[key].s else ""
  }

  /**
   Reading any property but `color` and `value` is a stable identity: the
   identity the callback writes under `id` is the one already read.
   */
  lemma PropertyAccessorIsStable(key: string, getColor: Record -> string)
    requires key != "color" && key != "value"
    ensures StableIdentity(PropertyAccessor(key), getColor)
  {
    var gi := PropertyAccessor(key);
    forall n: Node
      ensures gi(DecoratedData(n, gi, getColor)) == gi(n.data)
    {
      var withColor := n.data["color" := Str(ColorOf(n, getColor))];
      assert gi(withColor) == gi(n.data);
      if key == "id" {
        assert DecoratedData(n, gi, getColor)[key] == Str(gi(withColor));
      } else {
        assert key in DecoratedData(n, gi, getColor) <==> key in n.data;
      }
    }
  }

  /**
   On a chain of branch nodes whose identity reads the same before and after
   decoration, the identities seen on the way up are the plain ones.
   */
  lemma {:induction false} UpwardIdsArePlain(t: seq<Node>, j: nat, leavesOnly: bool,
                                             getIdentity: Record -> string, getColor: Record -> string)
    requires ParentsPrecede(t) && j < |t| && !IsLeaf(t, j)
    requires forall m :: 0 <= m < |t| && !IsLeaf(t, m) ==>
      getIdentity(SeenData(t, m, leavesOnly, getIdentity, getColor)) == getIdentity(t[m].data)
    ensures UpwardIds(t, j, leavesOnly, getIdentity, getColor) == IdentitiesOf(t, Ancestors(t, j), getIdentity)
    decreases j
  {
    match t[j].parent
    case None =>
    case Some(p) =>
      assert !IsLeaf(t, p) by { assert t[j].parent == Some(p); }
      UpwardIdsArePlain(t, p, leavesOnly, getIdentity, getColor);
      IdentitiesCons(t, j, Ancestors(t, p), getIdentity);
  }

  /**
   With `leavesOnly` no ancestor of a node is decorated, so a node's path is
   the identities of the node and its ancestors' data, node first, root last.
   */
  lemma LeafPathIsIdentityChain(t: seq<Node>, i: nat, getIdentity: Record -> string, getColor: Record -> string)
    requires ParentsPrecede(t) && i < |t|
    ensures PathOf(t, i, true, getIdentity, getColor) == NodePath(t, i, getIdentity)
  {
    match t[i].parent
    case None =>
    case Some(p) =>
      assert !IsLeaf(t, p) by { assert t[i].parent == Some(p); }
      UpwardIdsArePlain(t, p, true, getIdentity, getColor);
      IdentitiesCons(t, i, Ancestors(t, p), getIdentity);
  }

  /**
   Without `leavesOnly` the ancestors are decorated before their descendants;
   with a stable identity the path is still the identities of the node and
   its ancestors, node first, root last.
   */
  lemma StablePathIsIdentityChain(t: seq<Node>, i: nat, leavesOnly: bool,
                                  getIdentity: Record -> string, getColor: Record -> string)
    requires ParentsPrecede(t) && i < |t| && StableIdentity(getIdentity, getColor)
    ensures PathOf(t, i, leavesOnly, getIdentity, getColor) == NodePath(t, i, getIdentity)
  {
    match t[i].parent
    case None =>
    case Some(p) =>
      assert !IsLeaf(t, p) by { assert t[i].parent == Some(p); }
      forall m | 0 <= m < |t| && !IsLeaf(t, m)
        ensures getIdentity(SeenData(t, m, leavesOnly, getIdentity, getColor)) == getIdentity(t[m].data)
      {
        assert getIdentity(DecoratedData(t[m], getIdentity, getColor)) == getIdentity(t[m].data);
      }
      UpwardIdsArePlain(t, p, leavesOnly, getIdentity, getColor);
      IdentitiesCons(t, i, Ancestors(t, p), getIdentity);
  }

  /** Without `leavesOnly` the list holds every node of the tree, decorated, in arena order. */
  lemma DescendantsAllDecorated(t: seq<Node>, getIdentity: Record -> string, getColor: Record -> string)
    requires ParentsPrecede(t)
    ensures |DecoratedNodes(t, false, getIdentity, getColor)| == |t|
    ensures forall k :: 0 <= k < |t| ==>
      DecoratedNodes(t, false, getIdentity, getColor)[k] == DecorateNode(t, k, false, getIdentity, getColor)
  {
  }

  /**
   With `leavesOnly` every entry of the list decorates a leaf, every leaf has
   exactly one entry, and entries keep the arena order.
   */
  lemma LeavesOnlyDecoratesLeaves(t: seq<Node>, getIdentity: Record -> string, getColor: Record -> string)
    requires ParentsPrecede(t)
    ensures forall k :: 0 <= k < |Selection(t, true)| ==>
      IsLeaf(t, Selection(t, true)[k])
      && DecoratedNodes(t, true, getIdentity, getColor)[k] == DecorateNode(t, Selection(t, true)[k], true, getIdentity, getColor)
    ensures forall i: nat :: i < |t| && IsLeaf(t, i) ==>
      exists k :: 0 <= k < |Selection(t, true)| && Selection(t, true)[k] == i
  {
    forall i: nat | i < |t| && IsLeaf(t, i)
      ensures exists k :: 0 <= k < |Selection(t, true)| && Selection(t, true)[k] == i
    {
      assert i in Selection(t, true);
    }
  }

  /**
   The callback's layout properties: `x`, `y` are the rectangle's top-left
   corner, `width`, `height` its size (not negative for ordered bounds), and
   `nodeHeight` the tree height it replaced, zero exactly for leaves.
   */
  lemma DecoratedLayout(t: seq<Node>, leavesOnly: bool, getIdentity: Record -> string, getColor: Record -> string,
                        k: nat)
    requires WellFormed(t) && k < |Selection(t, leavesOnly)|
    ensures var i := Selection(t, leavesOnly)[k];
      var d := DecoratedNodes(t, leavesOnly, getIdentity, getColor)[k];
      && d.deco.Some?
      && d.deco.value.x == t[i].x0 && d.deco.value.y == t[i].y0
      && d.deco.value.width == t[i].x1 - t[i].x0 && d.height == t[i].y1 - t[i].y0
      && (t[i].x0 <= t[i].x1 && t[i].y0 <= t[i].y1 ==> d.deco.value.width >= 0 && d.height >= 0)
      && d.deco.value.nodeHeight == t[i].height
      && (d.deco.value.nodeHeight == 0 <==> IsLeaf(t, i))
      && d.deco.value.nodeHeight >= 0
  {
  }

  /**
   The callback's datum writes: the colour is that of the datum with its
   depth and sits on node and datum alike; the identity is read after the
   colour is written and sits on both; the datum's `value` is the node's;
   every other property of the datum, and the node's links, depth, value and
   bounds, are kept.
   */
  lemma DecoratedDatum(t: seq<Node>, leavesOnly: bool, getIdentity: Record -> string, getColor: Record -> string,
                       k: nat)
    requires ParentsPrecede(t) && k < |Selection(t, leavesOnly)|
    ensures var n := t[Selection(t, leavesOnly)[k]];
      var d := DecoratedNodes(t, leavesOnly, getIdentity, getColor)[k];
      && d.deco.Some?
      && d.deco.value.color == getColor(n.data["depth" := Num(n.depth)])
      && d.data["color"] == Str(d.deco.value.color)
      && d.deco.value.id == getIdentity(n.data["color" := Str(d.deco.value.color)])
      && d.data["id"] == Str(d.deco.value.id)
      && d.data["value"] == Num(d.value) && d.value == n.value
      && d.data.Keys == n.data.Keys + {"color", "id", "value"}
      && (forall key :: key in n.data && key != "color" && key != "id" && key != "value" ==>
            d.data[key] == n.data[key])
      && d.parent == n.parent && d.depth == n.depth && d.labelText == n.labelText
      && d.x0 == n.x0 && d.y0 == n.y0 && d.x1 == n.x1 && d.y1 == n.y1
  {
  }

  /** A three-level hierarchy root, A, leaf, each named by its `name` property. */
  function ThreeLevels(): (t: seq<Node>)
    ensures |t| == 3 && ParentsPrecede(t)
  {
    [ Node(map["name" := Str("root")], None, 0, 2, 1, 0, 0, 10, 10, None, None),
      Node(map["name" := Str("A")], Some(0), 1, 1, 1, 0, 0, 10, 10, None, None),
      Node(map["name" := Str("leaf")], Some(1), 2, 0, 1, 0, 0, 10, 10, None, None) ]
  }

  /** `computeNodePath` on the leaf of `ThreeLevels` joins node first: "leaf.A.root". */
  lemma ThreeLevelNodePath()
    ensures NodePath(ThreeLevels(), 2, PropertyAccessor("name")) == "leaf.A.root"
  {
    ThreeLevelAncestors();
    ThreeLevelIdentities();
    JoinThree("leaf", "A", "root");
  }

  lemma ThreeLevelAncestors()
    ensures Ancestors(ThreeLevels(), 2) == [2, 1, 0]
  {
    var t := ThreeLevels();
    assert Ancestors(t, 1) == [1, 0];
  }

  lemma ThreeLevelIdentities()
    ensures IdentitiesOf(ThreeLevels(), [2, 1, 0], PropertyAccessor("name")) == ["leaf", "A", "root"]
  {
    var t := ThreeLevels();
    var gi := PropertyAccessor("name");
    assert gi(t[2].data) == "leaf" && gi(t[1].data) == "A" && gi(t[0].data) == "root";
  }

  lemma JoinThree(a: string, b: string, c: string)
    ensures JoinDots([a, b, c]) == a + "." + b + "." + c
  {
    assert [a, b, c][1..] == [b, c] && [b, c][1..] == [c];
    assert JoinDots([b, c]) == b + "." + c;
    assert a + "." + (b + "." + c) == a + "." + b + "." + c;
  }

  /** The leaf of `ThreeLevels` gets the path "leaf.A.root" in both selection modes. */
  lemma ThreeLevelPath(getColor: Record -> string)
    ensures PathOf(ThreeLevels(), 2, true, PropertyAccessor("name"), getColor) == "leaf.A.root"
    ensures PathOf(ThreeLevels(), 2, false, PropertyAccessor("name"), getColor) == "leaf.A.root"
  {
    ThreeLevelNodePath();
    PropertyAccessorIsStable("name", getColor);
    LeafPathIsIdentityChain(ThreeLevels(), 2, PropertyAccessor("name"), getColor);
    StablePathIsIdentityChain(ThreeLevels(), 2, false, PropertyAccessor("name"), getColor);
  }
}
