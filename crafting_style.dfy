/** The style sheet of the crafting-tree view: a base node style overridden
    per node `type`, and a base edge style whose line colour is overridden
    per relation label (app/crafting-tree/page.tsx). Later selectors win, as
    in the rendering engine's cascade. */
module CraftingStyle {
  import opened Wrappers
  import opened CraftingGraph

  /** The node attributes the style sheet sets. `shape` is `None` where the
      sheet leaves the engine's default shape. */
  datatype NodeStyle = NodeStyle(
    backgroundColor: string,
    borderColor: string,
    borderWidth: int,
    width: int,
    height: int,
    shape: Option<string>,
    textColor: string,
    fontSize: string,
    fontWeight: string)

  /** The `node` selector's block. */
  const BaseNodeStyle: NodeStyle :=
    NodeStyle("#8b5cf6", "#6d28d9", 4, 80, 80, None, "#e9d5ff", "14px", "bold")

  /** The style of a node of the given `type`: the base block, then the
      block of the matching `node[type="…"]` selector, if any. */
  function NodeStyleFor(kind: string): (s: NodeStyle)
    ensures s.width == s.height && 80 <= s.width <= 120
    ensures s.shape.Some? <==> kind == "vendor"
  {
    if kind == "center" then
      BaseNodeStyle.(backgroundColor := "#c084fc", borderColor := "#e879f9", borderWidth := 6,
                     width := 120, height := 120, fontSize := "16px", fontWeight := "bold",
                     textColor := "#fae8ff")
    else if kind == "item" then
      BaseNodeStyle.(backgroundColor := "#a78bfa", borderColor := "#8b5cf6")
    else if kind == "material" then
      BaseNodeStyle.(backgroundColor := "#60a5fa", borderColor := "#3b82f6")
    else if kind == "vendor" then
      BaseNodeStyle.(backgroundColor := "#fbbf24", borderColor := "#f59e0b", shape := Some("diamond"),
                     width := 90, height := 90)
    else
      BaseNodeStyle
  }

  /** Two styles that agree on everything except the two colours. */
  predicate SameExceptColours(a: NodeStyle, b: NodeStyle) {
    a.(backgroundColor := b.backgroundColor, borderColor := b.borderColor) == b
  }

  /** The base node is 80×80 with border 4; `center` makes it 120×120 with
      border 6; `vendor` is 90×90 and the only kind with a shape, a
      diamond; `item` and `material` change the two colours only; any other
      `type` gets the base block. */
  lemma NodeStyleRules(kind: string)
    ensures BaseNodeStyle.width == 80 && BaseNodeStyle.height == 80 && BaseNodeStyle.borderWidth == 4
    ensures kind == "center" ==>
      var s := NodeStyleFor(kind); s.width == 120 && s.height == 120 && s.borderWidth == 6
    ensures kind == "vendor" ==>
      var s := NodeStyleFor(kind); s.shape == Some("diamond") && s.width == 90 && s.height == 90
    ensures NodeStyleFor(kind).shape.Some? <==> kind == "vendor"
    ensures kind == "item" || kind == "material" ==>
      SameExceptColours(BaseNodeStyle, NodeStyleFor(kind)) && NodeStyleFor(kind).backgroundColor != BaseNodeStyle.backgroundColor
    ensures kind !in {"center", "item", "material", "vendor"} ==> NodeStyleFor(kind) == BaseNodeStyle
  {
  }

  /** The centre is strictly the largest node and has the widest border. */
  lemma CenterIsLargest(kind: string)
    requires kind != "center"
    ensures NodeStyleFor(kind).width < NodeStyleFor("center").width
    ensures NodeStyleFor(kind).height < NodeStyleFor("center").height
    ensures NodeStyleFor(kind).borderWidth < NodeStyleFor("center").borderWidth
  {
  }

  /** Where an edge leaves its source and enters its target. */
  const SourceEndpoint: string := "90deg"   // right side of the source node
  const TargetEndpoint: string := "270deg"  // left side of the target node

  /** The pair `control-point-distances` produces for an edge. */
  datatype ControlDistances = ControlDistances(first: real, second: real)

  function Abs(c: int): nat {
    if c < 0 then -c else c
  }

  /** The `control-point-distances` mapper: a missing (or zero) curvature is
      0, the distance is |c|·0.35, and the sign of the curvature picks which
      of the two control points bows which way. */
  function ControlDistancesFor(curvature: Option<int>): (d: ControlDistances)
    ensures var c := curvature.GetOr(0);
      && d.first == -d.second
      && (d.first == Abs(c) as real * 0.35 || d.first == -(Abs(c) as real * 0.35))
      && (c >= 0 ==> d.first >= 0.0)
      && (c < 0 ==> d.first < 0.0)
  {
    var c := curvature.GetOr(0);
    var dist := Abs(c) as real * 0.35;
    if c >= 0 then ControlDistances(dist, -dist) else ControlDistances(-dist, dist)
  }

  /** Curvatures c and -c give mirrored control points, and the element
      list's tier 140 gives the distance 49. */
  lemma ControlDistancesMirror(c: int)
    ensures var d, m := ControlDistancesFor(Some(c)), ControlDistancesFor(Some(-c));
      m.first == d.second && m.second == d.first
    ensures ControlDistancesFor(None) == ControlDistancesFor(Some(0)) == ControlDistances(0.0, 0.0)
    ensures ControlDistancesFor(Some(Curvature)) == ControlDistances(49.0, -49.0)
    ensures ControlDistancesFor(Some(-Curvature)) == ControlDistances(-49.0, 49.0)
  {
  }

  /** The edge attributes the style sheet sets. */
  datatype EdgeStyle = EdgeStyle(
    width: int,
    lineColor: string,
    curveStyle: string,
    sourceEndpoint: string,
    targetEndpoint: string,
    controlPointDistances: ControlDistances,
    controlPointWeights: (real, real),
    edgeDistances: string)

  const BaseLineColor: string := "#6366f1"

  /** The line colour of an edge with the given relation label: one of five
      fixed colours, else the base colour. */
  function LineColorFor(relation: string): (c: string)
    ensures c != BaseLineColor <==> relation in Relations
  {
    if relation == "craft_material" then "#60a5fa"
    else if relation == "craft_component" then "#a78bfa"
    else if relation == "sold_by" then "#fbbf24"
    else if relation == "used_in_craft" then "#c084fc"
    else if relation == "salvage_to" then "#34d399"
    else BaseLineColor
  }

  /** The style of an edge: the `edge` block with its line colour replaced by
      the matching `edge[label="…"]` block. */
  function EdgeStyleFor(e: Edge): (s: EdgeStyle)
    ensures s.width == 3 && s.curveStyle == "unbundled-bezier"
    ensures s.lineColor != BaseLineColor <==> e.relation in Relations
    ensures s.controlPointDistances.first == -s.controlPointDistances.second
    ensures s.sourceEndpoint == SourceEndpoint && s.targetEndpoint == TargetEndpoint
  {
    EdgeStyle(3, LineColorFor(e.relation), "unbundled-bezier", SourceEndpoint, TargetEndpoint,
              ControlDistancesFor(e.curvature), (0.33, 0.67), "node-position")
  }

  const Relations: seq<string> :=
    ["craft_material", "craft_component", "sold_by", "used_in_craft", "salvage_to"]

  /** The five relation labels get five distinct non-base colours; every
      other label gets the base colour. */
  lemma LineColorRules(relation: string)
    ensures relation in Relations <==> LineColorFor(relation) != BaseLineColor
    ensures forall i, j :: 0 <= i < j < |Relations| ==> LineColorFor(Relations[i]) != LineColorFor(Relations[j])
  {
  }

  /** An edge's style depends only on its relation label and curvature;
      every other part is fixed. */
  lemma EdgeStyleDependsOnLabelAndCurvature(e1: Edge, e2: Edge)
    ensures EdgeStyleFor(e1).(lineColor := "", controlPointDistances := ControlDistances(0.0, 0.0))
         == EdgeStyleFor(e2).(lineColor := "", controlPointDistances := ControlDistances(0.0, 0.0))
    ensures e1.relation == e2.relation && e1.curvature.GetOr(0) == e2.curvature.GetOr(0) ==>
            EdgeStyleFor(e1) == EdgeStyleFor(e2)
  {
  }
}
