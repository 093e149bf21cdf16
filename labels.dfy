/**
 The label pass of the treemap enhancer: a second pass over the decorated
 list that labels the leaves whose rectangle is large enough.
 */
module TreemapLabels {
  import opened Wrappers
  import opened Hierarchy
  import Treemap

  /** `Math.min` on two numbers. */
  function Min(a: int, b: int): int {
    if a <= b then a else b
  }

  /**
   The pass leaves a node as it is when it is a branch (`nodeHeight > 0`), or
   when a threshold is set and the rectangle's shorter side does not exceed
   it. A node without the decoration's properties compares as `undefined`
   does, false both times, so it is never skipped.
   */
  predicate Skipped(n: Node, labelSkipSize: int)
    ensures n.deco.None? ==> !Skipped(n, labelSkipSize)
    ensures labelSkipSize == 0 ==> (Skipped(n, labelSkipSize) <==> n.deco.Some? && n.deco.value.nodeHeight > 0)
  {
    match n.deco
    case None => false
    case Some(d) => d.nodeHeight > 0 || (labelSkipSize != 0 && Min(d.width, n.height) <= labelSkipSize)
  }

  /**
   The label pass. Disabled, it returns nothing and the list stays as it was;
   enabled, it maps every node either to itself or to a copy with a label.
   */
  function LabelPass(nodes: seq<Node>, enableLabel: bool, getLabel: Record -> string, labelSkipSize: int)
    : (r: seq<Node>)
    ensures |r| == |nodes|
    ensures !enableLabel ==> r == nodes
    ensures forall k :: 0 <= k < |r| ==> r[k].(labelText := nodes[k].labelText) == nodes[k]
    ensures forall k :: 0 <= k < |r| && enableLabel && !Skipped(nodes[k], labelSkipSize) ==>
      r[k].labelText == Some(getLabel(nodes[k].data))
    ensures forall k :: 0 <= k < |r| && Skipped(nodes[k], labelSkipSize) ==> r[k] == nodes[k]
  {
    if !enableLabel then nodes
    else
      seq(|nodes|, k requires 0 <= k < |nodes| =>
        if Skipped(nodes[k], labelSkipSize) then nodes[k]
        else nodes[k].(labelText := Some(getLabel(nodes[k].data))))
  }

  /** Running the pass a second time changes nothing. */
  lemma LabelPassIdempotent(nodes: seq<Node>, enableLabel: bool, getLabel: Record -> string, labelSkipSize: int)
    ensures LabelPass(LabelPass(nodes, enableLabel, getLabel, labelSkipSize), enableLabel, getLabel, labelSkipSize)
         == LabelPass(nodes, enableLabel, getLabel, labelSkipSize)
  {
    var once := LabelPass(nodes, enableLabel, getLabel, labelSkipSize);
    var twice := LabelPass(once, enableLabel, getLabel, labelSkipSize);
    forall k | 0 <= k < |nodes|
      ensures twice[k] == once[k]
    {
      assert once[k].(labelText := nodes[k].labelText) == nodes[k];
      assert Skipped(once[k], labelSkipSize) == Skipped(nodes[k], labelSkipSize);
      assert once[k].data == nodes[k].data;
    }
  }

  /**
   A decorated 4 x 4 leaf: with a threshold of 5 it gets no label, with the
   threshold 0 (no threshold) it gets one.
   */
  lemma SmallLeafLabel(getLabel: Record -> string)
    ensures var leaf := Node(map[], None, 0, 4, 1, 0, 0, 4, 4,
                             Some(Decoration("a", 0, 0, 0, 4, "red", "a")), None);
      && LabelPass([leaf], true, getLabel, 5)[0].labelText == None
      && LabelPass([leaf], true, getLabel, 0)[0].labelText == Some(getLabel(map[]))
  {
  }

  /**
   The node stage followed by the label pass: an entry gets a label exactly
   when labels are enabled, it decorates a leaf, and either no threshold is
   set or both sides of its rectangle exceed the threshold. Otherwise its
   label is what the tiled node had.
   */
  lemma LabelsGoToLargeLeaves(t: seq<Node>, leavesOnly: bool,
                              getIdentity: Record -> string, getColor: Record -> string,
                              enableLabel: bool, getLabel: Record -> string, labelSkipSize: int, k: nat)
    requires WellFormed(t) && k < |Selection(t, leavesOnly)|
    ensures var i := Selection(t, leavesOnly)[k];
      var out := LabelPass(Treemap.DecoratedNodes(t, leavesOnly, getIdentity, getColor),
                           enableLabel, getLabel, labelSkipSize);
      out[k].labelText
        == if enableLabel && IsLeaf(t, i)
              && (labelSkipSize == 0 || Min(t[i].x1 - t[i].x0, t[i].y1 - t[i].y0) > labelSkipSize)
           then Some(getLabel(Treemap.DecoratedData(t[i], getIdentity, getColor)))
           else t[i].labelText
  {
    Treemap.DecoratedLayout(t, leavesOnly, getIdentity, getColor, k);
    Treemap.DecoratedDatum(t, leavesOnly, getIdentity, getColor, k);
  }
}
