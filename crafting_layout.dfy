/** The preset layout of the crafting-tree view: an explicit table from node
    id to position in three columns (app/crafting-tree/page.tsx), and the
    column each node's edges to the centre call for. */
module CraftingLayout {
  import opened CraftingGraph

  datatype Point = Point(x: int, y: int)

  const LeftX: int := 200
  const CenterX: int := 600
  const RightX: int := 1000
  const CenterY: int := 400
  const Spacing: int := 140  // vertical spacing between nodes

  /** The `positions` callback: the id table, and (0, 0) for any other id. */
  function Position(id: string): (p: Point)
    ensures id !in PlacedIds ==> p == Point(0, 0)
    ensures id in PlacedIds ==> p.x in {LeftX, CenterX, RightX}
    ensures p.x == CenterX <==> id == "medkit"
  {
    if id == "medkit" then Point(CenterX, CenterY)
    else if id == "chemicals" then Point(LeftX, CenterY - Spacing * 2)
    else if id == "chemicals2" then Point(LeftX, CenterY - Spacing * 3)
    else if id == "fabric" then Point(LeftX, CenterY - Spacing)
    else if id == "lance" then Point(LeftX, CenterY)
    else if id == "bandage" then Point(LeftX, CenterY + Spacing)
    else if id == "plastic" then Point(LeftX, CenterY + Spacing * 2)
    else if id == "first-aid" then Point(RightX, CenterY - Spacing)
    else if id == "health-pack" then Point(RightX, CenterY)
    else if id == "salvaged-parts" then Point(RightX, CenterY + Spacing)
    else Point(0, 0)
  }

  /** The ids the table places. */
  const PlacedIds: set<string> :=
    {"medkit", "chemicals", "chemicals2", "fabric", "lance", "bandage", "plastic",
     "first-aid", "health-pack", "salvaged-parts"}

  /** The column a node belongs in by its edges: the centre itself, the left
      column for a source of an edge into the centre, the right column for a
      target of an edge out of it (inputs take priority), else unplaced. */
  datatype Column = CenterColumn | LeftColumn | RightColumn | Unplaced

  function ColumnOf(edges: seq<Edge>, center: string, id: string): Column {
    if id == center then CenterColumn
    else if exists k :: 0 <= k < |edges| && edges[k].source == id && edges[k].target == center then LeftColumn
    else if exists k :: 0 <= k < |edges| && edges[k].source == center && edges[k].target == id then RightColumn
    else Unplaced
  }

  function ColumnX(c: Column): int {
    match c
    case CenterColumn => CenterX
    case LeftColumn => LeftX
    case RightColumn => RightX
    case Unplaced => 0
  }

  /** `medkit` sits at (600, 400); every source of an edge into it at
      x = 200; every target of an edge out of it at x = 1000. */
  lemma EdgeEndsInColumns()
    ensures Position(CenterId) == Point(600, 400)
    ensures forall k :: 0 <= k < |Edges| && Edges[k].target == CenterId ==> Position(Edges[k].source).x == 200
    ensures forall k :: 0 <= k < |Edges| && Edges[k].source == CenterId ==> Position(Edges[k].target).x == 1000
  {
  }

  /** The id table agrees with the columns the edges call for: every node's
      x is its column's x, and the centre is the only node at x = 600. */
  lemma TableMatchesColumns()
    ensures forall i :: 0 <= i < |Nodes| ==>
      Position(Nodes[i].id).x == ColumnX(ColumnOf(Edges, CenterId, Nodes[i].id))
    ensures forall i :: 0 <= i < |Nodes| ==> ColumnOf(Edges, CenterId, Nodes[i].id) != Unplaced
  {
    forall i | 0 <= i < |Nodes|
      ensures Position(Nodes[i].id).x == ColumnX(ColumnOf(Edges, CenterId, Nodes[i].id))
      ensures ColumnOf(Edges, CenterId, Nodes[i].id) != Unplaced
    {
      if 1 <= i <= 6 {
        assert Edges[i - 1].source == Nodes[i].id && Edges[i - 1].target == CenterId;
      } else if i >= 7 {
        assert Edges[i - 1].source == CenterId && Edges[i - 1].target == Nodes[i].id;
        assert !exists k :: 0 <= k < |Edges| && Edges[k].source == Nodes[i].id && Edges[k].target == CenterId;
      }
    }
  }

  /** Exactly the element list's ids are placed; any other id gets (0, 0). */
  lemma TableCoversNodes(id: string)
    ensures id !in PlacedIds ==> Position(id) == Point(0, 0)
    ensures id in PlacedIds <==> exists i :: 0 <= i < |Nodes| && Nodes[i].id == id
  {
    if id in PlacedIds {
      var ix :=
        if id == "medkit" then 0 else if id == "chemicals" then 1 else if id == "chemicals2" then 2
        else if id == "fabric" then 3 else if id == "bandage" then 4 else if id == "lance" then 5
        else if id == "plastic" then 6 else if id == "first-aid" then 7 else if id == "health-pack" then 8
        else 9;
      assert Nodes[ix].id == id;
    }
  }

  /** Rows: left-column nodes at 400 + k·140 for k in [-3, 2], right-column
      nodes for k in [-1, 1]. */
  lemma RowsOnGrid(id: string)
    ensures Position(id).x == LeftX ==>
      exists k :: -3 <= k <= 2 && Position(id).y == CenterY + k * Spacing
    ensures Position(id).x == RightX ==>
      exists k :: -1 <= k <= 1 && Position(id).y == CenterY + k * Spacing
  {
    var k := (Position(id).y - CenterY) / Spacing;
    assert Position(id).x in {LeftX, RightX} ==> Position(id).y == CenterY + k * Spacing;
  }

  /** No two ids in the same column share a row. */
  lemma ColumnRowsDistinct(a: string, b: string)
    requires a in PlacedIds && b in PlacedIds && a != b
    ensures Position(a).x == Position(b).x ==> Position(a).y != Position(b).y
  {
  }
}
