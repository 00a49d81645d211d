/**
 * Which records of nodes.json and members.json the site shows. The Flask server (`get_data`
 * in web/app.py) drops only the records that say `isPublic: false`, a missing key counting
 * as public; the browser (`loadData` in web/assets/js/app.js) keeps only the records whose
 * `isPublic` is truthy, so it also drops the records that leave the key out.
 */
module Visibility {

  import opened Wrappers
  import opened Directory
  import Seqs

  /** `node.get('isPublic', True)`: only an explicit `false` hides a node. */
  predicate ServerShowsNode(n: Node)
  {
    n.isPublic != Some(false)
  }

  /** `member.get('isPublic', True)`. */
  predicate ServerShowsMember(m: Member)
  {
    m.isPublic != Some(false)
  }

  /** `node.isPublic` as a JavaScript condition: only an explicit `true` shows a node. */
  predicate ClientShowsNode(n: Node)
  {
    n.isPublic == Some(true)
  }

  /** `member.isPublic` as a JavaScript condition. */
  predicate ClientShowsMember(m: Member)
  {
    m.isPublic == Some(true)
  }

  /**
   * The node list of `get_data`, from the `nodes` entry of nodes.json (`None` when that key,
   * or the whole file, is missing): the nodes not marked private, in file order, and nothing
   * at all when there is no entry.
   */
  function PublicNodes(entry: Option<seq<Node>>): (r: seq<Node>)
    ensures entry.None? ==> r == []
    ensures entry.Some? ==> Seqs.IsSubsequence(r, entry.value)
    ensures entry.Some? ==> forall n :: n in r <==> n in entry.value && n.isPublic != Some(false)
  {
    match entry
    case None => []
    case Some(nodes) => Seqs.Filter(nodes, ServerShowsNode)
  }

  /** The member list of `get_data`, in the same way from the `members` entry of members.json. */
  function PublicMembers(entry: Option<seq<Member>>): (r: seq<Member>)
    ensures entry.None? ==> r == []
    ensures entry.Some? ==> Seqs.IsSubsequence(r, entry.value)
    ensures entry.Some? ==> forall m :: m in r <==> m in entry.value && m.isPublic != Some(false)
  {
    match entry
    case None => []
    case Some(members) => Seqs.Filter(members, ServerShowsMember)
  }

  /** `nodesData.nodes.filter(node => node.isPublic)` in `loadData`. */
  function LoadedNodes(nodes: seq<Node>): (r: seq<Node>)
    ensures Seqs.IsSubsequence(r, nodes)
    ensures forall n :: n in r <==> n in nodes && n.isPublic == Some(true)
  {
    Seqs.Filter(nodes, ClientShowsNode)
  }

  /** `membersData.members.filter(member => member.isPublic)` in `loadData`. */
  function LoadedMembers(members: seq<Member>): (r: seq<Member>)
    ensures Seqs.IsSubsequence(r, members)
    ensures forall m :: m in r <==> m in members && m.isPublic == Some(true)
  {
    Seqs.Filter(members, ClientShowsMember)
  }

  /** Filtering the server's list of nodes with the browser's test gives the browser's list. */
  lemma LoadedNodesFromPublic(nodes: seq<Node>)
    ensures LoadedNodes(nodes) == Seqs.Filter(PublicNodes(Some(nodes)), ClientShowsNode)
    ensures Seqs.IsSubsequence(LoadedNodes(nodes), PublicNodes(Some(nodes)))
  {
    Seqs.FilterNarrower(nodes, ServerShowsNode, ClientShowsNode);
  }

  /**
   * The browser shows the same nodes as the server exactly when every node states
   * `isPublic`; a node that leaves it out is listed by the server and not by the browser.
   */
  lemma LoadedNodesMatchPublic(nodes: seq<Node>)
    ensures LoadedNodes(nodes) == PublicNodes(Some(nodes)) <==> forall i :: 0 <= i < |nodes| ==> nodes[i].isPublic.Some?
  {
    if forall i :: 0 <= i < |nodes| ==> nodes[i].isPublic.Some? {
      forall i | 0 <= i < |nodes|
        ensures ClientShowsNode(nodes[i]) == ServerShowsNode(nodes[i])
      {
        if nodes[i].isPublic.value {
          assert nodes[i].isPublic == Some(true);
        } else {
          assert nodes[i].isPublic == Some(false);
        }
      }
      Seqs.FilterExtensional(nodes, ClientShowsNode, ServerShowsNode);
    } else {
      var i :| 0 <= i < |nodes| && nodes[i].isPublic.None?;
      assert nodes[i] in PublicNodes(Some(nodes)) && nodes[i] !in LoadedNodes(nodes);
    }
  }

  /** The same two facts for members. */
  lemma LoadedMembersMatchPublic(members: seq<Member>)
    ensures Seqs.IsSubsequence(LoadedMembers(members), PublicMembers(Some(members)))
    ensures LoadedMembers(members) == PublicMembers(Some(members)) <==> forall i :: 0 <= i < |members| ==> members[i].isPublic.Some?
  {
    Seqs.FilterNarrower(members, ServerShowsMember, ClientShowsMember);
    if forall i :: 0 <= i < |members| ==> members[i].isPublic.Some? {
      forall i | 0 <= i < |members|
        ensures ClientShowsMember(members[i]) == ServerShowsMember(members[i])
      {
        if members[i].isPublic.value {
          assert members[i].isPublic == Some(true);
        } else {
          assert members[i].isPublic == Some(false);
        }
      }
      Seqs.FilterExtensional(members, ClientShowsMember, ServerShowsMember);
    } else {
      var i :| 0 <= i < |members| && members[i].isPublic.None?;
      assert members[i] in PublicMembers(Some(members)) && members[i] !in LoadedMembers(members);
    }
  }
}
