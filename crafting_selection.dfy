/** The selection state of the crafting-tree view: one `NodeInfo` or none,
    driven by the two tap listeners the view registers on the rendering
    engine (app/crafting-tree/page.tsx). */
module CraftingSelection {
  import opened Wrappers
  import opened CraftingGraph

  /** The detail record shown for the selected node. */
  datatype NodeInfo = NodeInfo(id: string, display: string, kind: string, rarity: Option<string>)

  /** What a tap event reports as its target: a node, an edge, or the
      engine's core itself (a tap on the background). */
  datatype TapTarget = NodeTarget(node: Node) | EdgeTarget(edge: Edge) | CoreTarget

  /** The record the node listener copies out of a node's data. */
  function InfoOf(n: Node): (info: NodeInfo)
    ensures info.id == n.id && info.display == n.display && info.kind == n.kind && info.rarity == n.rarity
  {
    NodeInfo(n.id, n.display, n.kind, n.rarity)
  }

  /** The selection after one tap, as a reducer: both listeners see every
      tap, the node listener acting only on nodes and the other only when
      the target is the core. */
  function AfterTap(selected: Option<NodeInfo>, target: TapTarget): (r: Option<NodeInfo>)
    ensures target.NodeTarget? ==> r.Some? && r.value.id == target.node.id
    ensures target.CoreTarget? ==> r.None?
    ensures target.EdgeTarget? ==> r == selected
  {
    match target
    case NodeTarget(n) => Some(InfoOf(n))
    case EdgeTarget(_) => selected
    case CoreTarget => None
  }

  /** The state machine's laws: a node tap selects that node whatever came
      before (so re-tapping is idempotent), a background tap clears the
      selection (and from none it stays none), an edge tap changes nothing. */
  lemma TapLaws(s: Option<NodeInfo>, n: Node, e: Edge)
    ensures AfterTap(s, NodeTarget(n)) == Some(InfoOf(n))
    ensures AfterTap(AfterTap(s, NodeTarget(n)), NodeTarget(n)) == AfterTap(s, NodeTarget(n))
    ensures AfterTap(s, CoreTarget) == None && AfterTap(None, CoreTarget) == None
    ensures AfterTap(s, EdgeTarget(e)) == s
  {
  }

  /** The last node or background tap decides the selection; edge taps in
      between do not matter. */
  function AfterTaps(selected: Option<NodeInfo>, taps: seq<TapTarget>): (r: Option<NodeInfo>)
    ensures (forall j :: 0 <= j < |taps| ==> taps[j].EdgeTarget?) ==> r == selected
    ensures r.Some? ==>
      r == selected || exists j :: 0 <= j < |taps| && taps[j].NodeTarget? && r == Some(InfoOf(taps[j].node))
    decreases |taps|
  {
    if taps == [] then selected else AfterTaps(AfterTap(selected, taps[0]), taps[1..])
  }

  lemma {:induction false} LastDecisiveTapWins(s: Option<NodeInfo>, taps: seq<TapTarget>, i: nat)
    requires i < |taps| && !taps[i].EdgeTarget?
    requires forall j :: i < j < |taps| ==> taps[j].EdgeTarget?
    ensures AfterTaps(s, taps) == AfterTap(None, taps[i])
    decreases i
  {
    if i == 0 {
      EdgeTapsKeep(AfterTap(s, taps[0]), taps[1..]);
    } else {
      LastDecisiveTapWins(AfterTap(s, taps[0]), taps[1..], i - 1);
    }
  }

  lemma {:induction false} EdgeTapsKeep(s: Option<NodeInfo>, taps: seq<TapTarget>)
    requires forall j :: 0 <= j < |taps| ==> taps[j].EdgeTarget?
    ensures AfterTaps(s, taps) == s
  {
    if taps != [] {
      EdgeTapsKeep(s, taps[1..]);
    }
  }

  /** The view's mutable selection (`selectedNode`). */
  class Selection {
    var selected: Option<NodeInfo>

    /** A freshly built view has nothing selected. */
    constructor ()
      ensures selected == None
    {
      selected := None;
    }

    /** The `tap` listener bound to `node`: select the tapped node. */
    method OnNodeTap(n: Node)
      modifies this
      ensures selected == Some(InfoOf(n))
    {
      selected := Some(InfoOf(n));
    }

    /** The `tap` listener bound to every target: clear the selection when
        the target is the core, else do nothing. */
    method OnAnyTap(target: TapTarget)
      modifies this
      ensures selected == if target == CoreTarget then None else old(selected)
    {
      if target == CoreTarget {
        selected := None;
      }
    }

    /** The engine delivering one tap to the listeners it matches. */
    method Tap(target: TapTarget)
      modifies this
      ensures selected == AfterTap(old(selected), target)
    {
      if target.NodeTarget? {
        OnNodeTap(target.node);
      }
      OnAnyTap(target);
    }
  }
}
