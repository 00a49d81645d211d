/**
 * The two helpers of the members page component (`membersData` in web/assets/js/app.js):
 * the node count shown on each member card and the avatar address.
 */
module MembersPage {

  import opened Wrappers
  import opened Directory
  import Seqs
  import Strings
  import Eleventy
  import Visibility

  /** `node.memberId === memberId && node.isPublic`. */
  predicate CountedFor(memberId: string, n: Node)
  {
    n.memberId == memberId && n.isPublic == Some(true)
  }

  /**
   * `getNodeCount(memberId)`: how many of the page's nodes belong to the member and are
   * public; it is positive exactly when there is such a node.
   */
  function NodeCount(nodes: seq<Node>, memberId: string): (k: nat)
    ensures k <= |nodes|
    ensures k > 0 <==> exists i :: 0 <= i < |nodes| && nodes[i].memberId == memberId && nodes[i].isPublic == Some(true)
  {
    var owned := Seqs.Filter(nodes, n => CountedFor(memberId, n));
    assert |owned| > 0 ==> owned[0] in owned;
    assert forall i :: 0 <= i < |nodes| && CountedFor(memberId, nodes[i]) ==> nodes[i] in owned;
    |owned|
  }

  /** The count is taken node by node, so it adds up over a split of the node list. */
  lemma NodeCountAppend(xs: seq<Node>, ys: seq<Node>, memberId: string)
    ensures NodeCount(xs + ys, memberId) == NodeCount(xs, memberId) + NodeCount(ys, memberId)
  {
    Seqs.FilterAppend(xs, ys, n => CountedFor(memberId, n));
  }

  /**
   * The page's nodes come from `loadData`, which already keeps only public nodes, so the
   * count's own `isPublic` test removes nothing further: counting the loaded nodes is
   * counting the file's nodes.
   */
  lemma NodeCountOfLoaded(nodes: seq<Node>, memberId: string)
    ensures NodeCount(Visibility.LoadedNodes(nodes), memberId) == NodeCount(nodes, memberId)
  {
    Seqs.FilterNarrower(nodes, Visibility.ClientShowsNode, n => CountedFor(memberId, n));
  }

  /**
   * `getAvatarUrl(avatarPath)`: nothing for a missing or empty path, otherwise the path
   * prefix followed by the path exactly as stored.
   */
  function AvatarUrl(pathPrefix: string, avatarPath: Option<string>): (r: string)
    ensures avatarPath.None? || avatarPath.value == "" ==> r == ""
    ensures avatarPath.Some? && avatarPath.value != "" ==>
              Strings.StartsWith(r, pathPrefix) && r[|pathPrefix|..] == avatarPath.value
  {
    if avatarPath.None? || avatarPath.value == "" then "" else pathPrefix + avatarPath.value
  }

  /**
   * For a stored path that starts with `/` the avatar address is what the `url` filter of the
   * static build gives; for any other non-empty path it is not, since the filter inserts a
   * `/` that `getAvatarUrl` does not.
   */
  lemma AvatarUrlAgainstUrlFilter(pathPrefix: string, path: string)
    requires path != ""
    ensures Strings.StartsWith(path, "/") ==> AvatarUrl(pathPrefix, Some(path)) == Eleventy.Url(pathPrefix, path)
    ensures !Strings.StartsWith(path, "/") ==> AvatarUrl(pathPrefix, Some(path)) != Eleventy.Url(pathPrefix, path)
  {
    if !Strings.StartsWith(path, "/") {
      assert |AvatarUrl(pathPrefix, Some(path))| == |pathPrefix| + |path|;
    }
  }
}
