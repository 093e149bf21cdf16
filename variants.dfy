/**
 The enhancer's choice of stages by the component's display name: every
 treemap variant gets its default props, the common stages and `pure`; only
 the vector variant binds fill definitions, and only the canvas variant has no
 trailing motion stage. Any other component is returned as it is.
 */
module TreemapVariants {

  /** One higher-order stage of the composed component. */
  datatype Stage =
    | DefaultProps(key: string)
    | WithHierarchy
    | WithDimensions
    | WithTheme
    | WithMotion
    | ColorScale
    | IdentityAccessor
    | BorderColorGenerator
    | LabelGenerator
    | LabelTextColorGenerator
    | TreemapLayout
    | NodeDecoration
    | LabelPlacement
    | BindDefs
    | Pure

  /** `commonEnhancers`, in order. */
  const CommonStages: seq<Stage> := [
    WithHierarchy, WithDimensions, WithTheme, WithMotion,
    ColorScale, IdentityAccessor, BorderColorGenerator, LabelGenerator, LabelTextColorGenerator,
    TreemapLayout, NodeDecoration, LabelPlacement
  ]

  /**
   The stages whose props a stage reads: `withPropsOnChange` recomputes from
   the listed props, and a prop a stage does not take from the caller is one
   that an earlier stage provides (`root` from the hierarchy, `width` and
   `height` from the dimensions, `theme` from the theme, the generators and
   `treemap` from their own stages, `nodes` from the decoration).
   */
  function Needs(s: Stage): set<Stage> {
    match s
    case BorderColorGenerator => {WithTheme}
    case LabelTextColorGenerator => {WithTheme}
    case TreemapLayout => {WithDimensions}
    case NodeDecoration => {WithHierarchy, TreemapLayout, IdentityAccessor, ColorScale}
    case LabelPlacement => {NodeDecoration, LabelGenerator}
    case _ => {}
  }

  /**
   `commonEnhancers` has twelve stages, and each one comes after every stage
   whose props it reads, so the decoration sees the tiling and the
   generators, and the label pass sees the decorated nodes.
   */
  lemma CommonStagesFeedForward()
    ensures |CommonStages| == 12
    ensures forall k, s :: 0 <= k < |CommonStages| && s in Needs(CommonStages[k]) ==> s in CommonStages[..k]
  {
    forall k, s | 0 <= k < |CommonStages| && s in Needs(CommonStages[k])
      ensures s in CommonStages[..k]
    {
      var at := match s
        case WithHierarchy => 0
        case WithDimensions => 1
        case WithTheme => 2
        case ColorScale => 4
        case IdentityAccessor => 5
        case LabelGenerator => 7
        case TreemapLayout => 9
        case _ => 10;
      assert CommonStages[..k][at] == s;
    }
  }

  /** The enhancer's result: the component as it was, or composed with these stages, outermost first. */
  datatype Enhanced = Unchanged | Composed(stages: seq<Stage>)

  /** The switch on `Component.displayName`. */
  function EnhancersFor(displayName: string): (r: Enhanced)
    ensures r.Composed? <==> displayName in {"TreeMap", "TreeMapHtml", "TreeMapCanvas"}
    ensures r.Composed? ==>
      && |r.stages| >= |CommonStages| + 2
      && r.stages[0] == DefaultProps(displayName + "DefaultProps")
      && r.stages[1..|CommonStages| + 1] == CommonStages
      && r.stages[|r.stages| - 1] == Pure
    ensures r.Composed? ==> (BindDefs in r.stages <==> displayName == "TreeMap")
    ensures r.Composed? ==> (r.stages[|r.stages| - 2] == WithMotion <==> displayName != "TreeMapCanvas")
    ensures r.Composed? ==>
      |r.stages| == |CommonStages| + (if displayName == "TreeMap" then 4 else if displayName == "TreeMapHtml" then 3 else 2)
  {
    var tail :=
      if displayName == "TreeMap" then [BindDefs, WithMotion, Pure]
      else if displayName == "TreeMapHtml" then [WithMotion, Pure]
      else [Pure];
    var stages := [DefaultProps(displayName + "DefaultProps")] + CommonStages + tail;
    assert stages[1..|CommonStages| + 1] == CommonStages;
    assert BindDefs !in CommonStages;
    assert BindDefs in stages <==> BindDefs in tail;
    if displayName in {"TreeMap", "TreeMapHtml", "TreeMapCanvas"} then Composed(stages) else Unchanged
  }

  /** The canvas variant is exactly default props, the common stages and `pure`. */
  lemma CanvasHasNoTrailingMotion()
    ensures EnhancersFor("TreeMapCanvas").Composed?
    ensures EnhancersFor("TreeMapCanvas").stages[|CommonStages| + 1..] == [Pure]
  {
  }
}
