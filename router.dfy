/**
 * `Router` of web/assets/js/app.js and the browser state it works on.
 *
 * `Router.updateUrl` pushes a PATH, `/<area>/<nodeId>`, while `Router.getUrlParams` reads
 * only the QUERY STRING, `?area=<area>&node=<nodeId>`. Both are modelled as written;
 * `PushedDetailUrlReadsAsList` below states what follows: a detail URL the router wrote
 * itself routes to the list when it is read back (on back/forward navigation).
 *
 * A location is the path-and-query string the page sees (`/nodes/?area=ip3&node=rep01`).
 */
module Router {

  import opened Wrappers
  import Strings
  import Directory

  /** The two query parameters `getUrlParams` returns; `None` is `null`. */
  datatype UrlParams = UrlParams(area: Option<string>, node: Option<string>)

  /** What `handleRouting` does with the parameters. */
  datatype Route = List | Detail(area: string, nodeId: string)

  /** The URL `navigateToNodes` pushes. */
  const NodesListUrl: string := "/nodes/"

  /**
   * `updateUrl(area, nodeId)`: the URL it pushes, `/${area}/${nodeId}`. It holds no
   * character besides `/` and those of the two parts, and splits back into them on `/`
   * when neither part holds a `/`.
   */
  function DetailUrl(area: string, nodeId: string): (u: string)
    ensures forall c :: c in u <==> c == '/' || c in area || c in nodeId
    ensures '/' !in area && '/' !in nodeId ==> Strings.Split(u, '/') == ["", area, nodeId]
  {
    var u := "/" + area + "/" + nodeId;
    assert '/' !in area && '/' !in nodeId ==> Strings.Split(u, '/') == ["", area, nodeId] by {
      if '/' !in area && '/' !in nodeId {
        assert u == "" + ['/'] + (area + ['/'] + nodeId);
        Strings.SplitFirst("", '/', area + ['/'] + nodeId);
        Strings.SplitFirst(area, '/', nodeId);
        Strings.SplitNoSeparator(nodeId, '/');
      }
    }
    u
  }

  /** `window.location.search` without its `?`: from the first `?` to the fragment, or empty. */
  function SearchOf(location: string): string
  {
    var beforeHash := Strings.Split(location, '#')[0];
    var path := Strings.Split(beforeHash, '?')[0];
    if |path| < |beforeHash| then beforeHash[|path| + 1..] else ""
  }

  /**
   * `new URLSearchParams(search).get(key)`: the value of the first `&`-separated field whose
   * name (the text before its first `=`) is `key`.
   */
  function QueryGet(search: string, key: string): Option<string>
  {
    FirstValue(Strings.Split(search, '&'), key)
  }

  /** A non-empty field whose name, the text before its first `=`, is `key`. */
  predicate Named(field: string, key: string)
  {
    field != "" && Strings.Split(field, '=')[0] == key
  }

  /** The value of a field: the text after its first `=`, or empty when it has none. */
  function ValueOf(field: string): string
  {
    var name := Strings.Split(field, '=')[0];
    if |name| < |field| then field[|name| + 1..] else ""
  }

  /** `fields[i]` is the first field named `key`. */
  predicate FirstNamed(fields: seq<string>, key: string, i: int)
  {
    0 <= i < |fields| && Named(fields[i], key) && forall j :: 0 <= j < i ==> !Named(fields[j], key)
  }

  /** The value of the first field named `key`, and nothing exactly when no field has that name. */
  function FirstValue(fields: seq<string>, key: string): (r: Option<string>)
    ensures r.None? <==> forall i :: 0 <= i < |fields| ==> !Named(fields[i], key)
    ensures r.Some? ==> exists i :: FirstNamed(fields, key, i) && r.value == ValueOf(fields[i])
  {
    if fields == [] then None
    else if Named(fields[0], key) then
      assert FirstNamed(fields, key, 0);
      Some(ValueOf(fields[0]))
    else
      var r := FirstValue(fields[1..], key);
      if r.Some? then
        var i :| FirstNamed(fields[1..], key, i) && r.value == ValueOf(fields[1..][i]);
        assert FirstNamed(fields, key, i + 1);
        r
      else
        r
  }

  /** The `&`-separated fields of the query string at `location`. */
  function SearchFields(location: string): seq<string>
  {
    Strings.Split(SearchOf(location), '&')
  }

  /**
   * `Router.getUrlParams()` at `location`: each parameter is the value of the first query
   * field with its name, and `null` exactly when no field has that name.
   */
  function GetUrlParams(location: string): (r: UrlParams)
    ensures r.area.None? <==> forall i :: 0 <= i < |SearchFields(location)| ==> !Named(SearchFields(location)[i], "area")
    ensures r.area.Some? ==> exists i :: FirstNamed(SearchFields(location), "area", i) && r.area.value == ValueOf(SearchFields(location)[i])
    ensures r.node.None? <==> forall i :: 0 <= i < |SearchFields(location)| ==> !Named(SearchFields(location)[i], "node")
    ensures r.node.Some? ==> exists i :: FirstNamed(SearchFields(location), "node", i) && r.node.value == ValueOf(SearchFields(location)[i])
  {
    var fields := SearchFields(location);
    UrlParams(FirstValue(fields, "area"), FirstValue(fields, "node"))
  }

  /** A JavaScript truthy string: present and not empty. */
  predicate Truthy(s: Option<string>)
  {
    s.Some? && s.value != ""
  }

  /**
   * The branch `handleRouting` (and the `routechange` listener) takes: the detail view only
   * when both the area and the node are given and non-empty.
   */
  function RouteOf(area: Option<string>, nodeId: Option<string>): (r: Route)
    ensures r.Detail? <==> Truthy(area) && Truthy(nodeId)
    ensures r.Detail? ==> r.area == area.value && r.nodeId == nodeId.value
  {
    if Truthy(area) && Truthy(nodeId) then Detail(area.value, nodeId.value) else List
  }

  /**
   * The node the nodes page ends up showing for a pair of route parameters: `handleRouting`
   * (like the `routechange` listener) calls `showNode` only for a truthy pair, and `showNode`
   * falls back to the list when no node answers the route. `None` stands for the list.
   */
  function RouteTarget(nodes: seq<Directory.Node>, area: Option<string>, nodeId: Option<string>): (r: Option<Directory.Node>)
    ensures r.Some? <==> Truthy(area) && Truthy(nodeId) && Directory.FindNode(nodes, area.value, nodeId.value).Some?
    ensures r.Some? ==> r.value in nodes && Directory.AnswersRoute(r.value, area.value, nodeId.value)
    ensures Truthy(area) && Truthy(nodeId) ==> r == Directory.FindNode(nodes, area.value, nodeId.value)
  {
    match RouteOf(area, nodeId)
    case List => None
    case Detail(a, id) => Directory.FindNode(nodes, a, id)
  }

  /**
   * `navigateToNode(node)`: the area (lower-cased) and the short id (the first dot-separated
   * part of the id) it routes to.
   */
  function DetailTarget(n: Directory.Node): (t: (string, string))
    ensures |t.0| == |n.area| && forall k :: 0 <= k < |t.0| ==> !('A' <= t.0[k] <= 'Z')
    ensures forall k :: 0 <= k < |t.0| && !('A' <= n.area[k] <= 'Z') ==> t.0[k] == n.area[k]
    ensures '.' !in t.1 && t.1 <= n.id && (|t.1| < |n.id| ==> n.id[|t.1|] == '.')
  {
    Strings.LowerIdempotent(n.area);
    (Strings.Lower(n.area), Directory.ShortId(n.id))
  }

  /**
   * `navigateToNode` followed by the `routechange` listener finds the node it started from:
   * for a node whose id is `<shortId>.<area in lower case>.ipnt.uk`, the pair it dispatches is
   * truthy, and the lookup of `showNode` resolves it back to that node when ids are unique
   * and dotted.
   */
  lemma NavigateRoundTrip(nodes: seq<Directory.Node>, k: nat, shortId: string)
    requires k < |nodes| && Directory.UniqueIds(nodes) && Directory.DottedIds(nodes)
    requires '.' !in shortId && shortId != "" && nodes[k].area != ""
    requires nodes[k].id == Directory.FullId(shortId, Strings.Lower(nodes[k].area))
    ensures DetailTarget(nodes[k]) == (Strings.Lower(nodes[k].area), shortId)
    ensures RouteOf(Some(DetailTarget(nodes[k]).0), Some(DetailTarget(nodes[k]).1)).Detail?
    ensures Directory.FindNode(nodes, DetailTarget(nodes[k]).0, DetailTarget(nodes[k]).1) == Some(nodes[k])
  {
    Directory.RouteResolvesToNode(nodes, k, shortId, Strings.Lower(nodes[k].area));
  }

  /**
   * A node `navigateToNode` can lead back to: one of the loaded nodes, in a directory of
   * unique dotted ids, with an id of the form `<shortId>.<area in lower case>.ipnt.uk`.
   */
  predicate Navigable(nodes: seq<Directory.Node>, n: Directory.Node)
  {
    n in nodes && Directory.UniqueIds(nodes) && Directory.DottedIds(nodes) && n.area != ""
    && Directory.ShortId(n.id) != "" && n.id == Directory.FullId(Directory.ShortId(n.id), Strings.Lower(n.area))
  }

  /** The pair `navigateToNode` dispatches for a navigable node resolves to that node. */
  lemma NavigableResolves(nodes: seq<Directory.Node>, n: Directory.Node)
    requires Navigable(nodes, n)
    ensures RouteTarget(nodes, Some(DetailTarget(n).0), Some(DetailTarget(n).1)) == Some(n)
  {
    var k :| 0 <= k < |nodes| && nodes[k] == n;
    NavigateRoundTrip(nodes, k, Directory.ShortId(n.id));
  }

  /** A location without `?` has an empty query string. */
  lemma NoQuestionMarkNoSearch(location: string)
    requires '?' !in location
    ensures SearchOf(location) == ""
  {
    var beforeHash := Strings.Split(location, '#')[0];
    Strings.SplitFirstIsPrefix(location, '#');
    assert forall k :: 0 <= k < |beforeHash| ==> beforeHash[k] == location[k];
    assert '?' !in beforeHash;
    Strings.SplitNoSeparator(beforeHash, '?');
  }

  /** The empty query string has no fields with a name, so every parameter is absent. */
  lemma EmptySearchHasNoParams(key: string)
    ensures QueryGet("", key) == None
  {
    Strings.SplitNoSeparator("", '&');
    assert FirstValue([""], key) == FirstValue([], key);
  }

  /**
   * As written, the detail URL the router pushes is not read back: `getUrlParams` finds
   * neither parameter in `/<area>/<nodeId>`, so `handleRouting` (run on back/forward
   * navigation) shows the list instead of the node.
   */
  lemma PushedDetailUrlReadsAsList(area: string, nodeId: string)
    requires '?' !in area && '?' !in nodeId
    ensures GetUrlParams(DetailUrl(area, nodeId)) == UrlParams(None, None)
    ensures RouteOf(GetUrlParams(DetailUrl(area, nodeId)).area, GetUrlParams(DetailUrl(area, nodeId)).node) == List
  {
    var url := DetailUrl(area, nodeId);
    NoQuestionMarkNoSearch(url);
    EmptySearchHasNoParams("area");
    EmptySearchHasNoParams("node");
  }

  /** The query string of `<path>?<search>` is `search` when neither part has a fragment. */
  lemma SearchAfterPath(path: string, search: string)
    requires '?' !in path && '#' !in path && '#' !in search
    ensures SearchOf(path + ['?'] + search) == search
  {
    var url := path + ['?'] + search;
    assert '#' !in url by {
      forall k | 0 <= k < |url| ensures url[k] != '#' {
        if k < |path| {
          assert url[k] == path[k];
        } else if k > |path| {
          assert url[k] == search[k - |path| - 1];
        }
      }
    }
    Strings.SplitNoSeparator(url, '#');
    Strings.SplitFirst(path, '?', search);
  }

  /** A field `<name>=<value>` with no `=` in the name has that name and that value. */
  lemma FieldNameValue(name: string, value: string, others: seq<string>)
    requires '=' !in name && name != ""
    ensures FirstValue([name + ['='] + value] + others, name) == Some(value)
  {
    Strings.SplitFirst(name, '=', value);
    var field := name + ['='] + value;
    assert field[|name| + 1..] == value;
  }

  /**
   * The query form is read back: at `/nodes/?area=<a>&node=<n>`, `getUrlParams` returns `a`
   * and `n`, provided neither contains `&` or `#` (which would end the value) nor the
   * characters URL decoding rewrites (`%`, `+`).
   */
  lemma QueryUrlReadsBack(a: string, n: string)
    requires '&' !in a && '#' !in a && '%' !in a && '+' !in a
    requires '&' !in n && '#' !in n && '%' !in n && '+' !in n
    ensures GetUrlParams(NodesListUrl + "?area=" + a + "&node=" + n) == UrlParams(Some(a), Some(n))
  {
    var areaField := "area" + ['='] + a;
    var nodeField := "node" + ['='] + n;
    QuerySearch(a, n);
    QueryFields(a, n);
    FieldNameValue("area", a, [nodeField]);
    FieldNameValue("node", n, []);
    Strings.SplitFirst("area", '=', a);
    assert FirstValue([areaField] + [nodeField], "node") == FirstValue([nodeField], "node");
    assert [nodeField] == [nodeField] + [];
  }

  /** The search part of `/nodes/?area=<a>&node=<n>` is the two fields joined by `&`. */
  lemma QuerySearch(a: string, n: string)
    requires '#' !in a && '#' !in n
    ensures SearchOf(NodesListUrl + "?area=" + a + "&node=" + n) == "area" + ['='] + a + ['&'] + ("node" + ['='] + n)
  {
    var search := "area" + ['='] + a + ['&'] + ("node" + ['='] + n);
    assert NodesListUrl + "?area=" + a + "&node=" + n == NodesListUrl + ['?'] + search;
    assert '#' !in "area" + ['='] && '#' !in ['&'] + "node" + ['='];
    assert '#' !in search;
    SearchAfterPath(NodesListUrl, search);
  }

  /** Values free of `&` split back into the `area` field and the `node` field. */
  lemma QueryFields(a: string, n: string)
    requires '&' !in a && '&' !in n
    ensures Strings.Split("area" + ['='] + a + ['&'] + ("node" + ['='] + n), '&')
            == ["area" + ['='] + a] + ["node" + ['='] + n]
  {
    var areaField := "area" + ['='] + a;
    var nodeField := "node" + ['='] + n;
    assert '&' !in "area" + ['='] && '&' !in "node" + ['='];
    assert '&' !in areaField && '&' !in nodeField;
    Strings.SplitFirst(areaField, '&', nodeField);
    Strings.SplitNoSeparator(nodeField, '&');
  }

  /**
   * The browser's session history (`history.pushState`, back and forward) and the current
   * location, the `window.location` the router reads.
   */
  class Browser {
    var entries: seq<string>
    var index: nat

    ghost predicate Valid()
      reads this
    {
      index < |entries|
    }

    /** The current location. */
    function Location(): string
      reads this
      requires Valid()
    {
      entries[index]
    }

    /** A session that starts at `url`. */
    constructor (url: string)
      ensures Valid() && entries == [url] && index == 0
    {
      entries := [url];
      index := 0;
    }

    /** `history.pushState(state, '', url)`: drop the forward entries, add `url`, make it current. */
    method PushState(url: string)
      requires Valid()
      modifies this
      ensures Valid()
      ensures entries == old(entries[..index + 1]) + [url] && index == old(index) + 1
      ensures Location() == url
    {
      entries := entries[..index + 1] + [url];
      index := index + 1;
    }

    /** The back button: one entry back if there is one; `moved` tells whether `popstate` fires. */
    method Back() returns (moved: bool)
      requires Valid()
      modifies this
      ensures Valid() && entries == old(entries)
      ensures moved == (old(index) > 0)
      ensures index == if moved then old(index) - 1 else old(index)
    {
      moved := index > 0;
      if moved {
        index := index - 1;
      }
    }

    /** The forward button: one entry forward if there is one; `moved` tells whether `popstate` fires. */
    method Forward() returns (moved: bool)
      requires Valid()
      modifies this
      ensures Valid() && entries == old(entries)
      ensures moved == (old(index) + 1 < |old(entries)|)
      ensures index == if moved then old(index) + 1 else old(index)
    {
      moved := index + 1 < |entries|;
      if moved {
        index := index + 1;
      }
    }
  }
}
