/**
 * The filter engine of the nodes page (`applyFilters` in web/assets/js/app.js) and the
 * values the page derives from the node list: the dropdown sources, which come from the
 * unfiltered list, and the two counters, which come from the filtered one.
 */
module Filters {

  import opened Directory
  import Seqs
  import Strings

  /**
   * The five filter controls of the page. An empty selection means "any"; the initial
   * state of the page is `Initial` below.
   */
  datatype Criteria = Criteria(
    selectedHardware: string,
    selectedRole: string,
    selectedOwner: string,
    showOnlineOnly: bool,
    showTesting: bool)

  /** The controls as the page starts: nothing selected, offline nodes shown, testing nodes hidden. */
  const Initial: Criteria := Criteria("", "", "", false, false)

  /** Case-insensitive substring match of the hardware text; no selection matches all. */
  predicate HardwareMatch(c: Criteria, n: Node)
  {
    c.selectedHardware == "" || Strings.Includes(Strings.Lower(n.hardware), Strings.Lower(c.selectedHardware))
  }

  predicate RoleMatch(c: Criteria, n: Node)
  {
    c.selectedRole == "" || n.meshRole == c.selectedRole
  }

  predicate OwnerMatch(c: Criteria, n: Node)
  {
    c.selectedOwner == "" || n.memberId == c.selectedOwner
  }

  predicate OnlineMatch(c: Criteria, n: Node)
  {
    !c.showOnlineOnly || CountsAsOnline(n)
  }

  /** A node is hidden for testing only when it says it is a test node and those are not shown. */
  predicate TestingMatch(c: Criteria, n: Node)
  {
    c.showTesting || !IsTesting(n)
  }

  /** The conjunction `applyFilters` returns for each node. */
  predicate Matches(c: Criteria, n: Node)
  {
    HardwareMatch(c, n) && RoleMatch(c, n) && OwnerMatch(c, n) && OnlineMatch(c, n) && TestingMatch(c, n)
  }

  /**
   * `this.nodes.filter(...)` in `applyFilters`: exactly the matching nodes, in their
   * original order (there is no sort).
   */
  function FilterNodes(nodes: seq<Node>, c: Criteria): (r: seq<Node>)
    ensures Seqs.IsSubsequence(r, nodes)
    ensures forall i :: 0 <= i < |r| ==> Matches(c, r[i])
    ensures forall n :: n in r <==> n in nodes && Matches(c, n)
  {
    Seqs.Filter(nodes, n => Matches(c, n))
  }

  /** Re-filtering the filtered list with the same controls gives it back unchanged. */
  lemma FilterNodesIdempotent(nodes: seq<Node>, c: Criteria)
    ensures FilterNodes(FilterNodes(nodes, c), c) == FilterNodes(nodes, c)
  {
    Seqs.FilterIdempotent(nodes, n => Matches(c, n));
  }

  /** The filter decides node by node, so filtering a concatenation concatenates the results. */
  lemma FilterNodesAppend(xs: seq<Node>, ys: seq<Node>, c: Criteria)
    ensures FilterNodes(xs + ys, c) == FilterNodes(xs, c) + FilterNodes(ys, c)
  {
    Seqs.FilterAppend(xs, ys, n => Matches(c, n));
  }

  /**
   * With no selection, offline nodes allowed and testing nodes shown, nothing is filtered
   * out; with testing nodes not shown, exactly the test nodes are.
   */
  lemma NoSelectionFilters(nodes: seq<Node>, c: Criteria)
    requires c.selectedHardware == "" && c.selectedRole == "" && c.selectedOwner == ""
    requires !c.showOnlineOnly
    ensures c.showTesting ==> FilterNodes(nodes, c) == nodes
    ensures !c.showTesting ==> FilterNodes(nodes, c) == Seqs.Filter(nodes, n => !IsTesting(n))
  {
    if c.showTesting {
      Seqs.FilterKeepsAll(nodes, n => Matches(c, n));
    } else {
      Seqs.FilterExtensional(nodes, n => Matches(c, n), n => !IsTesting(n));
    }
  }

  /** The hardware match ignores the case of the selection as well as of the node's text. */
  lemma HardwareMatchIgnoresCase(c: Criteria, n: Node)
    requires c.selectedHardware != ""
    ensures HardwareMatch(c, n) == HardwareMatch(c.(selectedHardware := Strings.Lower(c.selectedHardware)), n)
    ensures HardwareMatch(c, n) == HardwareMatch(c, n.(hardware := Strings.Lower(n.hardware)))
  {
    Strings.LowerIdempotent(c.selectedHardware);
    Strings.LowerIdempotent(n.hardware);
  }

  /** `node.hardware` of every node in order. */
  function HardwareOf(nodes: seq<Node>): (r: seq<string>)
    ensures |r| == |nodes| && forall i :: 0 <= i < |nodes| ==> r[i] == nodes[i].hardware
    ensures forall v :: v in r <==> exists i :: 0 <= i < |nodes| && nodes[i].hardware == v
  {
    seq(|nodes|, i requires 0 <= i < |nodes| => nodes[i].hardware)
  }

  /** `node.meshRole` of every node in order. */
  function RolesOf(nodes: seq<Node>): (r: seq<string>)
    ensures |r| == |nodes| && forall i :: 0 <= i < |nodes| ==> r[i] == nodes[i].meshRole
    ensures forall v :: v in r <==> exists i :: 0 <= i < |nodes| && nodes[i].meshRole == v
  {
    seq(|nodes|, i requires 0 <= i < |nodes| => nodes[i].meshRole)
  }

  /** `node.memberId` of every node in order. */
  function OwnersOf(nodes: seq<Node>): (r: seq<string>)
    ensures |r| == |nodes| && forall i :: 0 <= i < |nodes| ==> r[i] == nodes[i].memberId
    ensures forall v :: v in r <==> exists i :: 0 <= i < |nodes| && nodes[i].memberId == v
  {
    seq(|nodes|, i requires 0 <= i < |nodes| => nodes[i].memberId)
  }

  /**
   * `availableHardware` (and `getUniqueHardware`, the same expression): each hardware text of
   * the unfiltered list once, in order of first appearance.
   */
  function AvailableHardware(nodes: seq<Node>): (r: seq<string>)
    ensures Seqs.NoDuplicates(r)
    ensures forall h :: h in r <==> exists i :: 0 <= i < |nodes| && nodes[i].hardware == h
    ensures forall i, j :: 0 <= i < j < |r| ==> Seqs.IndexOf(HardwareOf(nodes), r[i]) < Seqs.IndexOf(HardwareOf(nodes), r[j])
  {
    Seqs.Distinct(HardwareOf(nodes))
  }

  /** `getUniqueRoles`: each role of the unfiltered list once, in order of first appearance. */
  function UniqueRoles(nodes: seq<Node>): (r: seq<string>)
    ensures Seqs.NoDuplicates(r)
    ensures forall role :: role in r <==> exists i :: 0 <= i < |nodes| && nodes[i].meshRole == role
    ensures forall i, j :: 0 <= i < j < |r| ==> Seqs.IndexOf(RolesOf(nodes), r[i]) < Seqs.IndexOf(RolesOf(nodes), r[j])
  {
    Seqs.Distinct(RolesOf(nodes))
  }

  /** `availableOwners`: each owner id of the unfiltered list once, in ascending code-unit order. */
  function AvailableOwners(nodes: seq<Node>): (r: seq<string>)
    ensures Seqs.NoDuplicates(r)
    ensures Strings.Sorted(r)
    ensures forall o :: o in r <==> exists i :: 0 <= i < |nodes| && nodes[i].memberId == o
  {
    var d := Seqs.Distinct(OwnersOf(nodes));
    Strings.SortMembers(d);
    Strings.Sort(d)
  }

  /** `onlineNodesCount`: how many of the filtered nodes count as online. */
  function OnlineNodesCount(filteredNodes: seq<Node>): (k: nat)
    ensures k <= |filteredNodes|
    ensures k == |filteredNodes| <==> forall i :: 0 <= i < |filteredNodes| ==> CountsAsOnline(filteredNodes[i])
    ensures k == 0 <==> forall i :: 0 <= i < |filteredNodes| ==> !CountsAsOnline(filteredNodes[i])
  {
    Seqs.FilterLength(filteredNodes, CountsAsOnline);
    |Seqs.Filter(filteredNodes, CountsAsOnline)|
  }

  /** The online counter goes node by node: one more node adds one exactly when it counts as online. */
  lemma OnlineNodesCountSnoc(xs: seq<Node>, n: Node)
    ensures OnlineNodesCount(xs + [n]) == OnlineNodesCount(xs) + (if CountsAsOnline(n) then 1 else 0)
  {
    Seqs.FilterAppend(xs, [n], CountsAsOnline);
    assert [n][1..] == [];
  }

  /** `node.meshRole === 'repeater'`. */
  predicate IsRepeater(n: Node)
  {
    n.meshRole == "repeater"
  }

  /** `repeaterNodesCount`: how many of the filtered nodes have the role `repeater`. */
  function RepeaterNodesCount(filteredNodes: seq<Node>): (k: nat)
    ensures k <= |filteredNodes|
    ensures k == |filteredNodes| <==> forall i :: 0 <= i < |filteredNodes| ==> IsRepeater(filteredNodes[i])
    ensures k == 0 <==> forall i :: 0 <= i < |filteredNodes| ==> !IsRepeater(filteredNodes[i])
  {
    Seqs.FilterLength(filteredNodes, IsRepeater);
    |Seqs.Filter(filteredNodes, IsRepeater)|
  }

  /** The repeater counter goes node by node: one more node adds one exactly when it is a repeater. */
  lemma RepeaterNodesCountSnoc(xs: seq<Node>, n: Node)
    ensures RepeaterNodesCount(xs + [n]) == RepeaterNodesCount(xs) + (if IsRepeater(n) then 1 else 0)
  {
    Seqs.FilterAppend(xs, [n], IsRepeater);
    assert [n][1..] == [];
  }

  /** With "online only" on, every filtered node is counted as online. */
  lemma OnlineOnlyCountsAll(nodes: seq<Node>, c: Criteria)
    requires c.showOnlineOnly
    ensures OnlineNodesCount(FilterNodes(nodes, c)) == |FilterNodes(nodes, c)|
  {
    Seqs.FilterKeepsAll(FilterNodes(nodes, c), CountsAsOnline);
  }

  /**
   * With a role selected, the repeater counter counts every filtered node when the role is
   * `repeater` and none otherwise.
   */
  lemma RoleDecidesRepeaterCount(nodes: seq<Node>, c: Criteria)
    requires c.selectedRole != ""
    ensures c.selectedRole == "repeater" ==> RepeaterNodesCount(FilterNodes(nodes, c)) == |FilterNodes(nodes, c)|
    ensures c.selectedRole != "repeater" ==> RepeaterNodesCount(FilterNodes(nodes, c)) == 0
  {
    var f := FilterNodes(nodes, c);
    if c.selectedRole == "repeater" {
      Seqs.FilterKeepsAll(f, IsRepeater);
    } else {
      Seqs.FilterKeepsNone(f, IsRepeater);
    }
  }
}
