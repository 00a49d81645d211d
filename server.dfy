/**
 * The node lookup of the `nodes` route in web/app.py (`/nodes/` and `/nodes/<area>/<node_id>`),
 * which decides what the nodes template is rendered with.
 */
module Server {

  import opened Wrappers
  import opened Directory
  import Router
  import Visibility

  /**
   * `next((node for node in nodes if node['id'] == full_node_id or node['id'] == node_id), None)`:
   * the first node carrying either id.
   */
  function NextMatching(nodes: seq<Node>, fullNodeId: string, nodeId: string): (r: Option<Node>)
    ensures r.Some? ==> r.value in nodes && (r.value.id == fullNodeId || r.value.id == nodeId)
    ensures r.None? <==> forall n :: n in nodes ==> n.id != fullNodeId && n.id != nodeId
  {
    if nodes == [] then None
    else if nodes[0].id == fullNodeId || nodes[0].id == nodeId then Some(nodes[0])
    else
      var r := NextMatching(nodes[1..], fullNodeId, nodeId);
      assert nodes == [nodes[0]] + nodes[1..];
      r
  }

  /** What the nodes template is rendered with besides the data. */
  datatype NodesView = NodesView(currentNode: Option<Node>, showingIndividualNode: bool)

  /**
   * `nodes(area, node_id)`: a node is looked up only when both parts are given and not
   * empty, and the individual view is on exactly when one was found.
   */
  function NodesRoute(nodes: seq<Node>, area: Option<string>, nodeId: Option<string>): (v: NodesView)
    ensures v.showingIndividualNode <==> v.currentNode.Some?
    ensures !Router.Truthy(area) || !Router.Truthy(nodeId) ==> v.currentNode.None?
    ensures Router.Truthy(area) && Router.Truthy(nodeId) ==>
              (v.currentNode.None? <==> forall n :: n in nodes ==> !AnswersRoute(n, area.value, nodeId.value))
    ensures v.currentNode.Some? ==> v.currentNode.value in nodes
  {
    var currentNode :=
      if Router.Truthy(area) && Router.Truthy(nodeId) then
        NextMatching(nodes, nodeId.value + "." + area.value + ".ipnt.uk", nodeId.value)
      else None;
    assert Router.Truthy(area) && Router.Truthy(nodeId) ==> nodeId.value + "." + area.value + ".ipnt.uk" == FullId(nodeId.value, area.value);
    NodesView(currentNode, currentNode.Some?)
  }

  /** The generator expression finds the same node as the `find` of the nodes page. */
  lemma {:induction false} NextMatchingIsFindNode(nodes: seq<Node>, area: string, nodeId: string)
    ensures NextMatching(nodes, FullId(nodeId, area), nodeId) == FindNode(nodes, area, nodeId)
  {
    if nodes != [] {
      NextMatchingIsFindNode(nodes[1..], area, nodeId);
    }
  }

  /**
   * On the same node list, the server renders the node that the page shows after routing,
   * and the list exactly when the page falls back to it.
   */
  lemma ServerAgreesWithPage(nodes: seq<Node>, area: Option<string>, nodeId: Option<string>)
    ensures NodesRoute(nodes, area, nodeId).currentNode == Router.RouteTarget(nodes, area, nodeId)
  {
    if Router.Truthy(area) && Router.Truthy(nodeId) {
      assert nodeId.value + "." + area.value + ".ipnt.uk" == FullId(nodeId.value, area.value);
      NextMatchingIsFindNode(nodes, area.value, nodeId.value);
    }
  }

  /** A node marked private is never rendered as the current node. */
  lemma PrivateNodeNeverCurrent(entry: Option<seq<Node>>, area: Option<string>, nodeId: Option<string>)
    ensures NodesRoute(Visibility.PublicNodes(entry), area, nodeId).currentNode.Some? ==>
              NodesRoute(Visibility.PublicNodes(entry), area, nodeId).currentNode.value.isPublic != Some(false)
  {
  }
}
