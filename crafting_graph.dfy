/** The element list of the crafting-tree view: ten nodes and nine edges
    around the focal item `medkit` (app/crafting-tree/page.tsx). */
module CraftingGraph {
  import opened Wrappers
  import opened SeqUtil

  /** A node's data record (`label` in the source is `display` here, `label` being a Dafny keyword). `kind` is the `type` string the style selectors
      match on; `rarity` is absent for the vendor (`null` in the source). */
  datatype Node = Node(id: string, display: string, kind: string, rarity: Option<string>)

  /** An edge's data record. `curvature` may be absent on an edge in general;
      every edge of the element list carries one. */
  datatype Edge = Edge(source: string, target: string, relation: string, curvature: Option<int>)

  /** The curvature tier used by the element list. */
  const Curvature: int := 140

  const CenterId: string := "medkit"

  const Nodes: seq<Node> := [
    Node("medkit", "Medkit\n(Selected)", "center", Some("Rare")),
    Node("chemicals", "Chemicals", "material", Some("Uncommon")),
    Node("chemicals2", "Chemicals", "material", Some("Uncommon")),
    Node("fabric", "Fabric", "material", Some("Common")),
    Node("bandage", "Bandage", "item", Some("Common")),
    Node("lance", "Lance\n(Vendor)", "vendor", None),
    Node("plastic", "Plastic Parts", "material", Some("Common")),
    Node("first-aid", "First Aid Kit", "item", Some("Epic")),
    Node("health-pack", "Health Pack", "item", Some("Rare")),
    Node("salvaged-parts", "Salvaged Parts", "material", Some("Common"))
  ]

  const Edges: seq<Edge> := [
    Edge("chemicals", "medkit", "craft_material", Some(-Curvature)),
    Edge("chemicals2", "medkit", "craft_material", Some(-Curvature)),
    Edge("fabric", "medkit", "craft_material", Some(-Curvature)),
    Edge("bandage", "medkit", "craft_component", Some(Curvature)),
    Edge("lance", "medkit", "sold_by", Some(0)),
    Edge("plastic", "medkit", "craft_material", Some(Curvature)),
    Edge("medkit", "first-aid", "used_in_craft", Some(Curvature)),
    Edge("medkit", "health-pack", "used_in_craft", Some(0)),
    Edge("medkit", "salvaged-parts", "salvage_to", Some(-Curvature))
  ]

  /** The node ids of a node list, in order. */
  function Ids(nodes: seq<Node>): (ids: seq<string>)
    ensures |ids| == |nodes|
    ensures forall i :: 0 <= i < |nodes| ==> ids[i] == nodes[i].id
  {
    seq(|nodes|, i requires 0 <= i < |nodes| => nodes[i].id)
  }

  predicate UniqueIds(nodes: seq<Node>) {
    forall i, j :: 0 <= i < j < |nodes| ==> nodes[i].id != nodes[j].id
  }

  predicate HasNode(nodes: seq<Node>, id: string) {
    exists i :: 0 <= i < |nodes| && nodes[i].id == id
  }

  /** The number of nodes of the given kind. */
  function CountKind(nodes: seq<Node>, kind: string): (n: nat)
    ensures n <= |nodes|
  {
    if nodes == [] then 0
    else (if nodes[0].kind == kind then 1 else 0) + CountKind(nodes[1..], kind)
  }

  /** A kind no node has is counted zero times. */
  lemma {:induction false} CountKindAbsent(nodes: seq<Node>, kind: string)
    requires forall i :: 0 <= i < |nodes| ==> nodes[i].kind != kind
    ensures CountKind(nodes, kind) == 0
  {
    if nodes != [] {
      CountKindAbsent(nodes[1..], kind);
    }
  }

  /** The graph invariants: unique ids, a single `center` node with the given
      id, every edge between existing nodes with the centre at one end, and no
      self-loops. */
  predicate WellFormed(nodes: seq<Node>, edges: seq<Edge>, center: string) {
    && UniqueIds(nodes)
    && CountKind(nodes, "center") == 1
    && (forall i :: 0 <= i < |nodes| && nodes[i].kind == "center" ==> nodes[i].id == center)
    && (forall k :: 0 <= k < |edges| ==>
          && HasNode(nodes, edges[k].source)
          && HasNode(nodes, edges[k].target)
          && edges[k].source != edges[k].target
          && (edges[k].source == center || edges[k].target == center))
  }

  /** No two nodes of the element list share an id. */
  lemma NodeIdsUnique()
    ensures |Nodes| == 10 && UniqueIds(Nodes)
  {
    forall i, j | 0 <= i < j < |Nodes| ensures Nodes[i].id != Nodes[j].id {
      var id1, id2 := Nodes[i].id, Nodes[j].id;
      assert |id1| != |id2| || id1[0] != id2[0] || id1[|id1| - 1] != id2[|id2| - 1];
    }
  }

  /** `medkit` is the one node of kind `center`. */
  lemma SingleCenter()
    ensures CountKind(Nodes, "center") == 1
    ensures forall i :: 0 <= i < |Nodes| && Nodes[i].kind == "center" ==> Nodes[i].id == CenterId
  {
    OneCenter();
    CenterIsMedkit();
  }

  lemma OneCenter()
    ensures CountKind(Nodes, "center") == 1
  {
    CountKindAbsent(Nodes[1..], "center");
  }

  lemma CenterIsMedkit()
    ensures forall i :: 0 <= i < |Nodes| && Nodes[i].kind == "center" ==> Nodes[i].id == CenterId
  {
  }

  /** Every edge joins two distinct existing nodes, one of them `medkit`. */
  lemma EdgesAttached()
    ensures |Edges| == 9
    ensures forall k :: 0 <= k < |Edges| ==>
          && HasNode(Nodes, Edges[k].source)
          && HasNode(Nodes, Edges[k].target)
          && Edges[k].source != Edges[k].target
          && (Edges[k].source == CenterId || Edges[k].target == CenterId)
  {
    forall k | 0 <= k < |Edges|
      ensures HasNode(Nodes, Edges[k].source) && HasNode(Nodes, Edges[k].target)
    {
      var srcs := [1, 2, 3, 4, 5, 6, 0, 0, 0];
      var tgts := [0, 0, 0, 0, 0, 0, 7, 8, 9];
      assert Nodes[srcs[k]].id == Edges[k].source;
      assert Nodes[tgts[k]].id == Edges[k].target;
    }
  }

  /** The element list satisfies the graph invariants. */
  lemma ElementsWellFormed()
    ensures WellFormed(Nodes, Edges, CenterId)
  {
    NodeIdsUnique();
    SingleCenter();
    EdgesAttached();
  }

  function IntoCenter(): Edge -> bool {
    (e: Edge) => e.target == CenterId
  }

  function OutOfCenter(): Edge -> bool {
    (e: Edge) => e.source == CenterId
  }

  /** The first six edges go into the centre and the last three come out of
      it. */
  lemma EdgeDirections()
    ensures Filter(IntoCenter(), Edges) == Edges[..6]
    ensures Filter(OutOfCenter(), Edges) == Edges[6..]
    ensures |Filter(IntoCenter(), Edges)| == 6 && |Filter(OutOfCenter(), Edges)| == 3
  {
    var ins, outs := Edges[..6], Edges[6..];
    assert Edges == ins + outs;
    FilterAppend(IntoCenter(), ins, outs);
    FilterAppend(OutOfCenter(), ins, outs);
    assert forall k :: 0 <= k < |ins| ==> ins[k].target == CenterId && ins[k].source != CenterId;
    assert forall k :: 0 <= k < |outs| ==> outs[k].source == CenterId && outs[k].target != CenterId;
    FilterAll(IntoCenter(), ins);
    FilterNone(IntoCenter(), outs);
    FilterNone(OutOfCenter(), ins);
    FilterAll(OutOfCenter(), outs);
  }

  /** Every edge's curvature lies in {-140, 0, 140}; the vendor (`sold_by`)
      edge is straight. */
  lemma CurvatureTiers()
    ensures forall k :: 0 <= k < |Edges| ==>
      Edges[k].curvature.Some? && Edges[k].curvature.value in {-Curvature, 0, Curvature}
    ensures forall k :: 0 <= k < |Edges| && Edges[k].relation == "sold_by" ==> Edges[k].curvature == Some(0)
  {
  }
}
