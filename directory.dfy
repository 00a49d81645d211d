/**
 * The records of the node directory and the two lookups every page shares: a member's
 * display name by id (`getMemberName`) and a node by the `<area>/<shortId>` of a detail
 * route (the `find` in `showNode` of web/assets/js/app.js and the `next(...)` in the `nodes`
 * route of web/app.py, which test the same two ids).
 *
 * Optional JSON booleans are `Option<bool>`: `None` is a missing key. A coordinate is a
 * `real` and, as in JavaScript, counts as present only when it is not zero.
 */
module Directory {

  import opened Wrappers
  import Seqs
  import Strings

  datatype Location = Location(lat: real, lng: real)

  /** One mesh device of nodes.json. Its `id` has the form `<shortId>.<area>.ipnt.uk`. */
  datatype Node = Node(
    id: string,
    area: string,
    name: string,
    hardware: string,
    meshRole: string,
    memberId: string,
    location: Option<Location>,
    isOnline: Option<bool>,
    isTesting: Option<bool>,
    isPublic: Option<bool>,
    showOnMap: Option<bool>)

  /** One owner of members.json. */
  datatype Member = Member(id: string, name: string, isPublic: Option<bool>, avatarPath: Option<string>)

  /** `node.isOnline !== false`: a node that does not say it is offline counts as online. */
  predicate CountsAsOnline(n: Node)
  {
    n.isOnline != Some(false)
  }

  /** `node.isTesting === true`. */
  predicate IsTesting(n: Node)
  {
    n.isTesting == Some(true)
  }

  /**
   * `node.showOnMap && node.location && node.location.lat && node.location.lng`: the node
   * is meant for the map and has both coordinates.
   */
  predicate OnMap(n: Node)
  {
    n.showOnMap == Some(true) && n.location.Some? && n.location.value.lat != 0.0 && n.location.value.lng != 0.0
  }

  /** The domain every full node id ends in. */
  const Domain: string := "ipnt.uk"

  /** `${nodeId}.${area}.ipnt.uk`, the full id a detail route stands for. */
  function FullId(shortId: string, area: string): string
  {
    shortId + "." + area + "." + Domain
  }

  /** A node answers the route `<area>/<nodeId>` when its id is `nodeId` itself or the full id. */
  predicate AnswersRoute(n: Node, area: string, nodeId: string)
  {
    n.id == nodeId || n.id == FullId(nodeId, area)
  }

  /** The node a detail route resolves to: the first one answering it, in the given order. */
  function FindNode(nodes: seq<Node>, area: string, nodeId: string): (r: Option<Node>)
    ensures r.Some? ==> exists i :: 0 <= i < |nodes| && nodes[i] == r.value && AnswersRoute(nodes[i], area, nodeId)
                                   && forall j :: 0 <= j < i ==> !AnswersRoute(nodes[j], area, nodeId)
    ensures r.None? <==> forall i :: 0 <= i < |nodes| ==> !AnswersRoute(nodes[i], area, nodeId)
  {
    var r := Seqs.Find(nodes, n => AnswersRoute(n, area, nodeId));
    assert r.Some? ==> exists i :: 0 <= i < |nodes| && nodes[i] == r.value && AnswersRoute(nodes[i], area, nodeId)
                                   && Seqs.FirstMatchAt(nodes, n => AnswersRoute(n, area, nodeId), i);
    r
  }

  /** `getMemberName`: the name of the first member with this id, or `Unknown` when there is none. */
  function MemberName(members: seq<Member>, memberId: string): (name: string)
    ensures (forall i :: 0 <= i < |members| ==> members[i].id != memberId) ==> name == "Unknown"
    ensures forall i :: 0 <= i < |members| && members[i].id == memberId
                        && (forall j :: 0 <= j < i ==> members[j].id != memberId)
                        ==> name == members[i].name
  {
    match Seqs.Find(members, (m: Member) => m.id == memberId)
    case Some(m) =>
      assert exists i :: 0 <= i < |members| && members[i] == m && members[i].id == memberId
                         && Seqs.FirstMatchAt(members, (m: Member) => m.id == memberId, i);
      m.name
    case None => "Unknown"
  }

  /** `id.split('.')[0]`: the short id, everything before the first dot. */
  function ShortId(id: string): (s: string)
    ensures '.' !in s && s <= id
    ensures |s| < |id| ==> id[|s|] == '.'
  {
    Strings.SplitFirstIsPrefix(id, '.');
    Strings.Split(id, '.')[0]
  }

  /** Ids are unique across the sequence. */
  predicate UniqueIds(nodes: seq<Node>)
  {
    forall i, j :: 0 <= i < j < |nodes| ==> nodes[i].id != nodes[j].id
  }

  /** Every id is dotted, as `<shortId>.<area>.ipnt.uk` is. */
  predicate DottedIds(nodes: seq<Node>)
  {
    forall i :: 0 <= i < |nodes| ==> '.' in nodes[i].id
  }

  /**
   * The short id of `<shortId>.<area>.ipnt.uk` is `<shortId>`, and the route
   * `<area>/<shortId>` resolves to that node when ids are unique and dotted: no other node
   * can carry the full id, and no dotted id equals a dot-free short id.
   */
  lemma {:induction false} RouteResolvesToNode(nodes: seq<Node>, k: nat, shortId: string, area: string)
    requires k < |nodes| && UniqueIds(nodes) && DottedIds(nodes)
    requires '.' !in shortId
    requires nodes[k].id == FullId(shortId, area)
    ensures ShortId(nodes[k].id) == shortId
    ensures FindNode(nodes, area, shortId) == Some(nodes[k])
  {
    assert nodes[k].id == shortId + ['.'] + (area + "." + Domain);
    Strings.SplitFirst(shortId, '.', area + "." + Domain);
    assert AnswersRoute(nodes[k], area, shortId);
    var r := FindNode(nodes, area, shortId);
    var i :| 0 <= i < |nodes| && nodes[i] == r.value && AnswersRoute(nodes[i], area, shortId);
    assert '.' in nodes[i].id;
    assert nodes[i].id == nodes[k].id;
  }
}
