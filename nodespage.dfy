/**
 * `nodesData()` of web/assets/js/app.js: the Alpine component behind the nodes page. It keeps
 * the loaded nodes and members, the five filter controls, the filtered list, the Leaflet map
 * with its markers (straight on the map, or in a cluster group once the plugin is ready),
 * and the route state: the list, or one node shown in detail.
 *
 * Work the page defers with `$nextTick`, `setTimeout` and `whenReady` is modelled as the
 * state change it makes when it runs: `InitMap` and `MapReady` are the two halves of
 * `initMap`, `FocusMapOnCurrentNode` is the callback `showNode` schedules, and the deferred
 * `fitMapToNodes` of `showNodesList` is applied at once.
 */
module NodesPage {

  import opened Wrappers
  import opened Directory
  import Seqs
  import Strings
  import Filters
  import Router
  import opened MapSurface

  /** The filtered nodes `fitMapToNodes` and `initMap` place on the map, in order. */
  function OnMapNodes(filtered: seq<Node>): (r: seq<Node>)
    ensures forall i :: 0 <= i < |r| ==> OnMap(r[i]) && r[i].location.Some?
    ensures forall n :: n in r <==> n in filtered && OnMap(n)
  {
    Seqs.Filter(filtered, OnMap)
  }

  /**
   * The filtered nodes `updateMapMarkers` gives a marker: those on the map whose marker is
   * built without an error (`markerFails` says which fail; each node has its own try/catch).
   */
  function MarkedNodes(filtered: seq<Node>, markerFails: Node -> bool): seq<Node>
  {
    Seqs.Filter(filtered, n => OnMap(n) && !markerFails(n))
  }

  /** One more filtered node adds itself to the marked nodes exactly when it gets a marker. */
  lemma MarkedNodesSnoc(filtered: seq<Node>, i: nat, markerFails: Node -> bool)
    requires i < |filtered|
    ensures MarkedNodes(filtered[..i + 1], markerFails)
            == MarkedNodes(filtered[..i], markerFails)
               + (if OnMap(filtered[i]) && !markerFails(filtered[i]) then [filtered[i]] else [])
  {
    Seqs.FilterSnoc(filtered, i, n => OnMap(n) && !markerFails(n));
  }

  /** Without a failing node, every node on the map gets its marker. */
  lemma NoFailureMarksAll(filtered: seq<Node>, markerFails: Node -> bool)
    requires forall i :: 0 <= i < |filtered| ==> !markerFails(filtered[i])
    ensures MarkedNodes(filtered, markerFails) == OnMapNodes(filtered)
  {
    Seqs.FilterExtensional(filtered, n => OnMap(n) && !markerFails(n), OnMap);
  }

  /**
   * A marker shows a node as `updateMapMarkers` builds it: at the node's position, green or
   * red by its status, the id as tooltip, and the name and owner name in the popup.
   */
  predicate Depicts(m: Marker, n: Node, members: seq<Member>)
  {
    n.location.Some? && m.position == PositionOf(n) && m.colour == StatusColour(n)
    && m.tooltip == n.id && m.title == n.name && m.owner == MemberName(members, n.memberId)
  }

  /** The markers as a set of layers. */
  function MarkerSet(ms: seq<Marker>): set<Marker>
  {
    set m | m in ms
  }

  /**
   * The camera `fitMapToNodes` leaves, from the camera before and the filtered nodes: kept
   * when no node is on the map, centred on the one node at zoom 13, or fitted to the bounds
   * of all of them, which then hold every one, with padding 20 and zoom at most 13.
   */
  function FittedCamera(before: Camera, filtered: seq<Node>): (c: Camera)
    ensures |OnMapNodes(filtered)| == 0 ==> c == before
    ensures |OnMapNodes(filtered)| == 1 ==> c == Centered(PositionOf(OnMapNodes(filtered)[0]), 13)
    ensures |OnMapNodes(filtered)| > 1 ==> c.Fitted? && c.padding == 20 && c.maxZoom == 13
    ensures |OnMapNodes(filtered)| > 1 ==> c.bounds == BoundsOf(PositionsOf(OnMapNodes(filtered)))
    ensures |OnMapNodes(filtered)| > 1 ==> forall n :: n in filtered && OnMap(n) ==> Contains(c.bounds, PositionOf(n))
  {
    var onMap := OnMapNodes(filtered);
    if |onMap| > 1 then
      var positions := PositionsOf(onMap);
      assert forall n :: n in filtered && OnMap(n) ==> PositionOf(n) in positions by {
        forall n | n in filtered && OnMap(n) ensures PositionOf(n) in positions {
          var i :| 0 <= i < |onMap| && onMap[i] == n;
          assert positions[i] == PositionOf(n);
        }
      }
      Fitted(BoundsOf(positions), 20, 13)
    else if |onMap| == 1 then
      Centered(PositionOf(onMap[0]), 13)
    else
      before
  }

  /** Fitting twice to the same nodes is fitting once. */
  lemma FittedCameraIdempotent(before: Camera, filtered: seq<Node>)
    ensures FittedCamera(FittedCamera(before, filtered), filtered) == FittedCamera(before, filtered)
  {
  }

  /**
   * The map after `showNodesList`: the last opened popup closes and the camera is fitted to
   * the filtered nodes; the layers, the cluster groups and the remembered popup stay.
   */
  function ListView(v: MapView, filtered: seq<Node>): MapView
  {
    v.(camera := FittedCamera(v.camera, filtered), openPopups := AfterClosePopup(v.openPopups, v.popup))
  }

  /** The map after a route is followed: as it was when a node is shown, the list's otherwise. */
  function RoutedView(v: MapView, current: Option<Node>, filtered: seq<Node>): MapView
  {
    if current.Some? then v else ListView(v, filtered)
  }

  /**
   * The map after `focusMapOnCurrentNode` for a node at `at`: the camera just below it at
   * zoom 16, the popups of the markers at `at` opened on top of those already open, and the
   * last of them remembered as the last opened popup.
   */
  function FocusedView(v: MapView, ms: seq<Marker>, at: LatLng, latOffset: real): MapView
  {
    v.(camera := Centered(LatLng(at.lat - latOffset, at.lng), 16),
       openPopups := v.openPopups + MarkersAt(ms, at), popup := LastAt(ms, at, v.popup))
  }

  /** The nodes page component. */
  class NodesData {
    var nodes: seq<Node>
    var members: seq<Member>
    var filteredNodes: seq<Node>
    var selectedHardware: string
    var selectedRole: string
    var selectedOwner: string
    var showOnlineOnly: bool
    var showTesting: bool
    var mapInitialized: bool
    var leafletMap: LeafletMap?
    var markers: seq<Marker>
    var markerClusterGroup: ClusterGroup?
    var currentNode: Option<Node>
    var showingIndividualNode: bool
    /** The window's location and session history, which the router reads and writes. */
    const browser: Router.Browser

    /** The five filter controls as one value. */
    function CurrentCriteria(): Filters.Criteria
      reads this
    {
      Filters.Criteria(selectedHardware, selectedRole, selectedOwner, showOnlineOnly, showTesting)
    }

    /** What no method changes after `init`: the loaded data and the filter controls. */
    ghost function Data(): (seq<Node>, seq<Member>, Filters.Criteria)
      reads this
    {
      (nodes, members, CurrentCriteria())
    }

    /** The map, once created, and its cluster group. */
    ghost function Surface(): (bool, LeafletMap?, ClusterGroup?)
      reads this
    {
      (mapInitialized, leafletMap, markerClusterGroup)
    }

    /**
     * The route state and the map's bookkeeping: the detail flag goes with a current node
     * taken from the loaded nodes; the map exists once `initMap` ran, the cluster group only
     * on the map; no markers before the map; each marker once.
     */
    ghost predicate Core()
      reads this, leafletMap, browser
    {
      browser.Valid()
      && (showingIndividualNode <==> currentNode.Some?)
      && (currentNode.Some? ==> currentNode.value in nodes)
      && (mapInitialized <==> leafletMap != null)
      && (leafletMap == null ==> markers == [] && markerClusterGroup == null)
      && (markerClusterGroup != null ==> leafletMap != null && markerClusterGroup in leafletMap.clusterGroups)
      && Seqs.NoDuplicates(markers)
    }

    /**
     * `markers` are exactly the marker layers where the page puts them: in the cluster group
     * when there is one, straight on the map otherwise.
     */
    ghost predicate Valid()
      reads this, leafletMap, markerClusterGroup, browser
    {
      Core()
      && (leafletMap != null && markerClusterGroup != null ==> markerClusterGroup.layers == MarkerSet(markers))
      && (leafletMap != null && markerClusterGroup == null ==> leafletMap.markerLayers == MarkerSet(markers))
    }

    /**
     * `init()` with the data `loadData` returned: the route of the current location, then
     * the filters in their initial state. The map comes later, in `InitMap`.
     */
    constructor (nodes: seq<Node>, members: seq<Member>, browser: Router.Browser)
      requires browser.Valid()
      ensures Valid()
      ensures Data() == (nodes, members, Filters.Initial) && this.browser == browser
      ensures filteredNodes == Filters.FilterNodes(nodes, Filters.Initial)
      ensures Surface() == (false, null, null) && markers == []
      ensures currentNode == Router.RouteTarget(nodes, Router.GetUrlParams(browser.Location()).area,
                                                Router.GetUrlParams(browser.Location()).node)
    {
      this.nodes := nodes;
      this.members := members;
      this.browser := browser;
      filteredNodes := [];
      selectedHardware := "";
      selectedRole := "";
      selectedOwner := "";
      showOnlineOnly := false;
      showTesting := false;
      mapInitialized := false;
      leafletMap := null;
      markers := [];
      markerClusterGroup := null;
      currentNode := None;
      showingIndividualNode := false;
      new;
      HandleRouting();
      ApplyFilters(_ => false);
    }

    /**
     * `applyFilters()`: the filtered list from the controls, then the markers and the camera
     * for it.
     */
    method ApplyFilters(markerFails: Node -> bool)
      requires Valid()
      modifies this, leafletMap, markerClusterGroup
      ensures Valid()
      ensures Data() == old(Data()) && Surface() == old(Surface())
      ensures currentNode == old(currentNode) && showingIndividualNode == old(showingIndividualNode)
      ensures filteredNodes == Filters.FilterNodes(nodes, CurrentCriteria())
      ensures leafletMap == null ==> markers == old(markers)
      ensures leafletMap != null ==> DepictsAll(markers, MarkedNodes(filteredNodes, markerFails), members)
      ensures leafletMap != null ==> fresh(MarkerSet(markers))
      ensures leafletMap != null ==> leafletMap.camera == FittedCamera(old(leafletMap.camera), filteredNodes)
      ensures leafletMap != null ==> leafletMap.popup == old(leafletMap.popup) && leafletMap.clusterGroups == old(leafletMap.clusterGroups)
      ensures leafletMap != null ==> leafletMap.openPopups == old(leafletMap.openPopups) - old(Placed(leafletMap, markerClusterGroup))
      ensures leafletMap != null && markerClusterGroup != null ==> leafletMap.markerLayers == old(leafletMap.markerLayers)
    {
      filteredNodes := Filters.FilterNodes(nodes, CurrentCriteria());
      UpdateMapMarkers(markerFails);
      FitMapToNodes();
    }

    /**
     * `updateMapMarkers()`: without a map nothing happens. Otherwise the old markers are
     * removed (by clearing the cluster group, or one by one from the map), and one new marker
     * per node on the map is added where the page puts markers, in the order of the filtered
     * list. No old marker is left in `markers` or in the layers the page manages.
     */
    method UpdateMapMarkers(markerFails: Node -> bool)
      requires Core()
      requires leafletMap != null && markerClusterGroup == null ==> leafletMap.markerLayers == MarkerSet(markers)
      modifies this, leafletMap, markerClusterGroup
      ensures Valid()
      ensures Data() == old(Data()) && Surface() == old(Surface()) && filteredNodes == old(filteredNodes)
      ensures currentNode == old(currentNode) && showingIndividualNode == old(showingIndividualNode)
      ensures leafletMap == null ==> markers == old(markers)
      ensures leafletMap != null ==> DepictsAll(markers, MarkedNodes(filteredNodes, markerFails), members)
      ensures leafletMap != null ==> fresh(MarkerSet(markers))
      ensures leafletMap != null && markerClusterGroup != null ==> leafletMap.markerLayers == old(leafletMap.markerLayers)
      ensures leafletMap != null && markerClusterGroup != null ==>
                leafletMap.openPopups == old(leafletMap.openPopups) - old(markerClusterGroup.layers)
      ensures leafletMap != null && markerClusterGroup == null ==>
                leafletMap.openPopups == old(leafletMap.openPopups) - MarkerSet(old(markers))
      ensures leafletMap != null ==> leafletMap.camera == old(leafletMap.camera) && leafletMap.clusterGroups == old(leafletMap.clusterGroups)
      ensures leafletMap != null ==> leafletMap.popup == old(leafletMap.popup)
    {
      if leafletMap == null {
        return;
      }
      ClearMarkers();
      var shown := PlaceMarkers(leafletMap, markerClusterGroup, filteredNodes, members, markerFails);
      markers := shown;
    }

    /**
     * The first part of `updateMapMarkers()`: the cluster group is cleared when there is one;
     * otherwise each marker in `markers` that is on the map is removed from it. Removing a
     * marker closes its popup.
     */
    method ClearMarkers()
      requires leafletMap != null
      requires markerClusterGroup == null ==> leafletMap.markerLayers == MarkerSet(markers)
      modifies leafletMap, markerClusterGroup
      ensures markerClusterGroup != null ==> markerClusterGroup.layers == {}
      ensures markerClusterGroup != null ==> leafletMap.markerLayers == old(leafletMap.markerLayers)
      ensures markerClusterGroup != null ==>
                leafletMap.openPopups == old(leafletMap.openPopups) - old(markerClusterGroup.layers)
      ensures markerClusterGroup == null ==> leafletMap.markerLayers == {}
      ensures markerClusterGroup == null ==> leafletMap.openPopups == old(leafletMap.openPopups) - MarkerSet(markers)
      ensures leafletMap.camera == old(leafletMap.camera) && leafletMap.clusterGroups == old(leafletMap.clusterGroups)
      ensures leafletMap.popup == old(leafletMap.popup)
    {
      if markerClusterGroup != null {
        markerClusterGroup.ClearLayers(leafletMap);
        return;
      }
      var theMap := leafletMap;
      var j := 0;
      while j < |markers|
        invariant 0 <= j <= |markers|
        invariant theMap.markerLayers == old(theMap.markerLayers) - MarkerSet(markers[..j])
        invariant theMap.openPopups == old(theMap.openPopups) - MarkerSet(markers[..j])
        invariant theMap.camera == old(theMap.camera) && theMap.clusterGroups == old(theMap.clusterGroups)
        invariant theMap.popup == old(theMap.popup)
        modifies theMap
      {
        assert MarkerSet(markers[..j + 1]) == MarkerSet(markers[..j]) + {markers[j]} by {
          assert markers[..j + 1] == markers[..j] + [markers[j]];
        }
        if theMap.HasLayer(markers[j]) {
          theMap.RemoveMarker(markers[j]);
        } else {
          assert markers[j] in MarkerSet(markers[..j]);
        }
        j := j + 1;
      }
      assert markers[..|markers|] == markers;
    }

    /**
     * `fitMapToNodes()`: with a map, the camera moves as `FittedCamera` says; the layers and
     * popups stay as they are.
     */
    method FitMapToNodes()
      modifies leafletMap
      ensures leafletMap != null ==> leafletMap.camera == FittedCamera(old(leafletMap.camera), filteredNodes)
      ensures leafletMap != null ==> leafletMap.markerLayers == old(leafletMap.markerLayers) && leafletMap.clusterGroups == old(leafletMap.clusterGroups)
      ensures leafletMap != null ==> leafletMap.openPopups == old(leafletMap.openPopups) && leafletMap.popup == old(leafletMap.popup)
    {
      if leafletMap == null {
        return;
      }
      var onMap := OnMapNodes(filteredNodes);
      if |onMap| > 1 {
        leafletMap.FitBounds(BoundsOf(PositionsOf(onMap)), 20, 13);
      } else if |onMap| == 1 {
        leafletMap.SetView(PositionOf(onMap[0]), 13);
      }
    }

    /**
     * The first half of `initMap()`: once, and only when Leaflet is loaded, a map with the
     * camera `InitialCamera` picks for the filtered nodes on the map.
     */
    method InitMap(leafletLoaded: bool, location: Option<MapConfig>)
      requires Valid()
      modifies this
      ensures Valid()
      ensures Data() == old(Data()) && filteredNodes == old(filteredNodes) && markers == old(markers)
      ensures currentNode == old(currentNode) && showingIndividualNode == old(showingIndividualNode)
      ensures old(mapInitialized) || !leafletLoaded ==> Surface() == old(Surface())
      ensures !old(mapInitialized) && leafletLoaded ==> mapInitialized && leafletMap != null && fresh(leafletMap)
      ensures !old(mapInitialized) && leafletLoaded ==> markerClusterGroup == null && leafletMap.markerLayers == {}
      ensures !old(mapInitialized) && leafletLoaded ==> leafletMap.clusterGroups == {} && leafletMap.openPopups == {}
      ensures !old(mapInitialized) && leafletLoaded ==> leafletMap.camera == InitialCamera(OnMapNodes(filteredNodes), location)
    {
      if mapInitialized || !leafletLoaded {
        return;
      }
      CreateMap(InitialCamera(OnMapNodes(filteredNodes), location));
    }

    /** The body of `initMap` past its guard: a new map, with nothing on it, looking through `camera`. */
    method CreateMap(camera: Camera)
      requires Valid() && !mapInitialized && camera.Centered?
      modifies this
      ensures Valid()
      ensures Data() == old(Data()) && filteredNodes == old(filteredNodes) && markers == old(markers)
      ensures currentNode == old(currentNode) && showingIndividualNode == old(showingIndividualNode)
      ensures mapInitialized && leafletMap != null && fresh(leafletMap)
      ensures markerClusterGroup == null && leafletMap.markerLayers == {}
      ensures leafletMap.clusterGroups == {} && leafletMap.openPopups == {} && leafletMap.camera == camera
    {
      leafletMap := new LeafletMap(camera.center, camera.zoom);
      mapInitialized := true;
    }

    /**
     * The second half of `initMap()`, run when the map is ready: the cluster group when the
     * plugin is loaded, then the markers and the camera for the filtered nodes. Markers put
     * straight on the map before the group existed stay there.
     */
    method MapReady(clusterPluginLoaded: bool, markerFails: Node -> bool)
      requires Valid() && leafletMap != null && markerClusterGroup == null
      modifies this, leafletMap
      ensures Valid()
      ensures Data() == old(Data()) && filteredNodes == old(filteredNodes)
      ensures currentNode == old(currentNode) && showingIndividualNode == old(showingIndividualNode)
      ensures leafletMap == old(leafletMap) && mapInitialized
      ensures clusterPluginLoaded ==> markerClusterGroup != null && fresh(markerClusterGroup)
      ensures clusterPluginLoaded ==> markerClusterGroup.maxClusterRadius == 50 && markerClusterGroup.disableClusteringAtZoom == 16
      ensures clusterPluginLoaded ==> leafletMap.clusterGroups == old(leafletMap.clusterGroups) + {markerClusterGroup}
      ensures clusterPluginLoaded ==> leafletMap.markerLayers == old(leafletMap.markerLayers)
      ensures !clusterPluginLoaded ==> markerClusterGroup == null && leafletMap.clusterGroups == old(leafletMap.clusterGroups)
      ensures DepictsAll(markers, MarkedNodes(filteredNodes, markerFails), members)
      ensures fresh(MarkerSet(markers))
      ensures leafletMap.camera == FittedCamera(old(leafletMap.camera), filteredNodes)
      ensures leafletMap.popup == old(leafletMap.popup)
      ensures clusterPluginLoaded ==> leafletMap.openPopups == old(leafletMap.openPopups)
      ensures !clusterPluginLoaded ==> leafletMap.openPopups == old(leafletMap.openPopups) - MarkerSet(old(markers))
      ensures !clusterPluginLoaded ==> leafletMap.markerLayers == MarkerSet(markers)
    {
      if clusterPluginLoaded {
        var group := new ClusterGroup();
        leafletMap.AddClusterGroup(group);
        markerClusterGroup := group;
      }
      UpdateMapMarkers(markerFails);
      FitMapToNodes();
    }

    /**
     * `handleRouting()`: the route in the query string of the current location; the node it
     * names when both parameters are there and a node answers, the list otherwise.
     */
    method HandleRouting()
      requires Valid()
      modifies this, leafletMap
      ensures Valid()
      ensures Data() == old(Data()) && Surface() == old(Surface())
      ensures filteredNodes == old(filteredNodes) && markers == old(markers)
      ensures currentNode == Router.RouteTarget(nodes, Router.GetUrlParams(browser.Location()).area,
                                                Router.GetUrlParams(browser.Location()).node)
      ensures leafletMap != null ==> leafletMap.View() == RoutedView(old(leafletMap.View()), currentNode, filteredNodes)
    {
      var params := Router.GetUrlParams(browser.Location());
      OnRouteChange(params.area, params.node);
    }

    /**
     * The `routechange` listener: `showNode` for a truthy pair, `showNodesList` otherwise.
     * `handleRouting` makes the same choice from the query string.
     */
    method OnRouteChange(area: Option<string>, nodeId: Option<string>)
      requires Valid()
      modifies this, leafletMap
      ensures Valid()
      ensures Data() == old(Data()) && Surface() == old(Surface())
      ensures filteredNodes == old(filteredNodes) && markers == old(markers)
      ensures currentNode == Router.RouteTarget(nodes, area, nodeId)
      ensures leafletMap != null ==> leafletMap.View() == RoutedView(old(leafletMap.View()), currentNode, filteredNodes)
    {
      if Router.Truthy(area) && Router.Truthy(nodeId) {
        ShowNode(area.value, nodeId.value);
      } else {
        ShowNodesList();
      }
    }

    /**
     * `showNode(area, nodeId)`: the first of the loaded (unfiltered) nodes answering the
     * route becomes the current node; with none, the list is shown instead.
     */
    method ShowNode(area: string, nodeId: string)
      requires Valid()
      modifies this, leafletMap
      ensures Valid()
      ensures Data() == old(Data()) && Surface() == old(Surface())
      ensures filteredNodes == old(filteredNodes) && markers == old(markers)
      ensures currentNode == FindNode(nodes, area, nodeId)
      ensures leafletMap != null ==> leafletMap.View() == RoutedView(old(leafletMap.View()), currentNode, filteredNodes)
    {
      var found := FindNode(nodes, area, nodeId);
      if found.Some? {
        currentNode := found;
        showingIndividualNode := true;
      } else {
        ShowNodesList();
      }
    }

    /**
     * `showNodesList()`: back to the list; the last opened popup closes and the camera is
     * fitted to the filtered nodes again.
     */
    method ShowNodesList()
      requires Valid()
      modifies this, leafletMap
      ensures Valid()
      ensures Data() == old(Data()) && Surface() == old(Surface())
      ensures filteredNodes == old(filteredNodes) && markers == old(markers)
      ensures currentNode == None && !showingIndividualNode
      ensures leafletMap != null ==> leafletMap.View() == ListView(old(leafletMap.View()), filteredNodes)
    {
      showingIndividualNode := false;
      currentNode := None;
      if leafletMap != null {
        leafletMap.ClosePopup();
      }
      FitMapToNodes();
    }

    /**
     * The callback `showNode` schedules (`focusMapOnCurrentNode`): with a map and a current
     * node that has a location, the camera centres just below the node at zoom 16 (the
     * offset, which depends on the map's size in pixels, is a parameter), and the popup of
     * every marker at exactly the node's position opens.
     */
    method FocusMapOnCurrentNode(latOffset: real)
      requires Valid()
      modifies leafletMap
      ensures Valid()
      ensures leafletMap != null && currentNode.Some? && currentNode.value.location.Some? ==>
                leafletMap.View() == FocusedView(old(leafletMap.View()), markers, PositionOf(currentNode.value), latOffset)
      ensures leafletMap != null && (currentNode.None? || currentNode.value.location.None?) ==>
                leafletMap.View() == old(leafletMap.View())
    {
      if leafletMap == null || currentNode.None? || currentNode.value.location.None? {
        return;
      }
      var at := PositionOf(currentNode.value);
      leafletMap.SetView(LatLng(at.lat - latOffset, at.lng), 16);
      var i := 0;
      while i < |markers|
        invariant 0 <= i <= |markers|
        invariant leafletMap.openPopups == old(leafletMap.openPopups) + MarkersAt(markers[..i], at)
        invariant leafletMap.popup == LastAt(markers[..i], at, old(leafletMap.popup))
        invariant leafletMap.camera == Centered(LatLng(at.lat - latOffset, at.lng), 16)
        invariant leafletMap.markerLayers == old(leafletMap.markerLayers) && leafletMap.clusterGroups == old(leafletMap.clusterGroups)
        modifies leafletMap
      {
        assert markers[..i + 1] == markers[..i] + [markers[i]];
        assert markers[..i + 1][..i] == markers[..i];
        if markers[i].position == at {
          leafletMap.OpenPopup(markers[i]);
        }
        i := i + 1;
      }
      assert markers[..|markers|] == markers;
    }

    /**
     * `navigateToNode(node)` and the `routechange` it dispatches: the detail path of the
     * node's lower-cased area and short id is pushed, and the page shows what that pair
     * resolves to, which is the node itself when its id is `<shortId>.<area>.ipnt.uk` and ids
     * are unique and dotted.
     */
    method NavigateToNode(n: Node)
      requires Valid()
      modifies this, leafletMap, browser
      ensures Valid()
      ensures Data() == old(Data()) && Surface() == old(Surface())
      ensures filteredNodes == old(filteredNodes) && markers == old(markers)
      ensures browser.entries == old(browser.entries[..browser.index + 1])
                                 + [Router.DetailUrl(Router.DetailTarget(n).0, Router.DetailTarget(n).1)]
      ensures browser.index == old(browser.index) + 1
      ensures currentNode == Router.RouteTarget(nodes, Some(Router.DetailTarget(n).0), Some(Router.DetailTarget(n).1))
      ensures Router.Navigable(nodes, n) ==> currentNode == Some(n)
      ensures leafletMap != null ==> leafletMap.View() == RoutedView(old(leafletMap.View()), currentNode, filteredNodes)
    {
      var target := Router.DetailTarget(n);
      browser.PushState(Router.DetailUrl(target.0, target.1));
      OnRouteChange(Some(target.0), Some(target.1));
      if Router.Navigable(nodes, n) {
        Router.NavigableResolves(nodes, n);
      }
    }

    /** `navigateToNodesList()`: `/nodes/` is pushed and the list is shown. */
    method NavigateToNodesList()
      requires Valid()
      modifies this, leafletMap, browser
      ensures Valid()
      ensures Data() == old(Data()) && Surface() == old(Surface())
      ensures filteredNodes == old(filteredNodes) && markers == old(markers)
      ensures browser.entries == old(browser.entries[..browser.index + 1]) + [Router.NodesListUrl]
      ensures browser.index == old(browser.index) + 1
      ensures currentNode == None && !showingIndividualNode
      ensures leafletMap != null ==> leafletMap.View() == ListView(old(leafletMap.View()), filteredNodes)
    {
      browser.PushState(Router.NodesListUrl);
      OnRouteChange(None, None);
    }

    /**
     * `focusNodeOnMap(node)`: with a map, the camera centres on the node at zoom 15; then the
     * page navigates to the node. With a map and a node without a location, reading
     * `node.location.lat` throws before anything changes.
     */
    method FocusNodeOnMap(n: Node)
      requires Valid()
      modifies this, leafletMap, browser
      ensures Valid()
      ensures Data() == old(Data()) && Surface() == old(Surface())
      ensures filteredNodes == old(filteredNodes) && markers == old(markers)
      ensures leafletMap != null && n.location.None? ==>
                browser.entries == old(browser.entries) && browser.index == old(browser.index)
                && currentNode == old(currentNode) && showingIndividualNode == old(showingIndividualNode)
                && leafletMap.View() == old(leafletMap.View())
      ensures leafletMap == null || n.location.Some? ==>
                browser.entries == old(browser.entries[..browser.index + 1])
                                   + [Router.DetailUrl(Router.DetailTarget(n).0, Router.DetailTarget(n).1)]
                && browser.index == old(browser.index) + 1
                && currentNode == Router.RouteTarget(nodes, Some(Router.DetailTarget(n).0), Some(Router.DetailTarget(n).1))
                && (Router.Navigable(nodes, n) ==> currentNode == Some(n))
      ensures leafletMap != null && n.location.Some? ==>
                leafletMap.View() == RoutedView(old(leafletMap.View()).(camera := Centered(PositionOf(n), 15)),
                                                currentNode, filteredNodes)
    {
      if leafletMap != null {
        if n.location.None? {
          return;
        }
        leafletMap.SetView(PositionOf(n), 15);
      }
      NavigateToNode(n);
    }

    /**
     * The browser's back button and the `popstate` listener: when there is an entry to go
     * back to, the page routes by the location it lands on.
     */
    method HistoryBack() returns (moved: bool)
      requires Valid()
      modifies this, leafletMap, browser
      ensures Valid()
      ensures Data() == old(Data()) && Surface() == old(Surface())
      ensures filteredNodes == old(filteredNodes) && markers == old(markers)
      ensures moved == (old(browser.index) > 0) && browser.entries == old(browser.entries)
      ensures browser.index == if moved then old(browser.index) - 1 else old(browser.index)
      ensures !moved ==> currentNode == old(currentNode) && showingIndividualNode == old(showingIndividualNode)
      ensures !moved && leafletMap != null ==> leafletMap.View() == old(leafletMap.View())
      ensures moved ==> currentNode == Router.RouteTarget(nodes, Router.GetUrlParams(browser.Location()).area,
                                                          Router.GetUrlParams(browser.Location()).node)
      ensures moved && leafletMap != null ==> leafletMap.View() == RoutedView(old(leafletMap.View()), currentNode, filteredNodes)
    {
      moved := browser.Back();
      if moved {
        HandleRouting();
      }
    }

    /** The browser's forward button and the `popstate` listener. */
    method HistoryForward() returns (moved: bool)
      requires Valid()
      modifies this, leafletMap, browser
      ensures Valid()
      ensures Data() == old(Data()) && Surface() == old(Surface())
      ensures filteredNodes == old(filteredNodes) && markers == old(markers)
      ensures moved == (old(browser.index) + 1 < |old(browser.entries)|) && browser.entries == old(browser.entries)
      ensures browser.index == if moved then old(browser.index) + 1 else old(browser.index)
      ensures !moved ==> currentNode == old(currentNode) && showingIndividualNode == old(showingIndividualNode)
      ensures !moved && leafletMap != null ==> leafletMap.View() == old(leafletMap.View())
      ensures moved ==> currentNode == Router.RouteTarget(nodes, Router.GetUrlParams(browser.Location()).area,
                                                          Router.GetUrlParams(browser.Location()).node)
      ensures moved && leafletMap != null ==> leafletMap.View() == RoutedView(old(leafletMap.View()), currentNode, filteredNodes)
    {
      moved := browser.Forward();
      if moved {
        HandleRouting();
      }
    }
  }

  /**
   * The second part of `updateMapMarkers()`: for each filtered node on the map whose marker
   * builds without an error, in order, a new marker that depicts it, added to the cluster
   * group when there is one and straight to the map otherwise.
   */
  method PlaceMarkers(theMap: LeafletMap, group: ClusterGroup?, filtered: seq<Node>, members: seq<Member>,
                      markerFails: Node -> bool) returns (shown: seq<Marker>)
    modifies theMap, group
    ensures DepictsAll(shown, MarkedNodes(filtered, markerFails), members)
    ensures fresh(MarkerSet(shown)) && Seqs.NoDuplicates(shown)
    ensures Placed(theMap, group) == old(Placed(theMap, group)) + MarkerSet(shown)
    ensures Untouched(theMap, group) == old(Untouched(theMap, group))
  {
    ghost var marked: seq<Node> := [];
    ghost var placed0 := Placed(theMap, group);
    ghost var untouched0 := Untouched(theMap, group);
    shown := [];
    assert filtered[..0] == [];
    var i := 0;
    while i < |filtered|
      invariant i <= |filtered| && Progress(filtered, i, markerFails, members, shown, marked)
      invariant AllNew(shown)
      invariant Placed(theMap, group) == Union(placed0, shown)
      invariant Untouched(theMap, group) == untouched0
    {
      shown, marked := PlaceStep(theMap, group, filtered, i, members, markerFails, shown, marked, placed0);
      i := i + 1;
    }
    assert filtered[..|filtered|] == filtered;
    UnionIsMarkerSet(placed0, shown);
    AllNewIsFresh(shown);
  }

  /** `placed` with the markers of `ms` added one after the other. */
  function Union(placed: set<Marker>, ms: seq<Marker>): set<Marker>
  {
    if ms == [] then placed else Union(placed, ms[..|ms| - 1]) + {ms[|ms| - 1]}
  }

  /** Adding the markers one by one adds the set of them. */
  lemma {:induction false} UnionIsMarkerSet(placed: set<Marker>, ms: seq<Marker>)
    ensures Union(placed, ms) == placed + MarkerSet(ms)
  {
    if ms != [] {
      UnionIsMarkerSet(placed, ms[..|ms| - 1]);
      assert MarkerSet(ms) == MarkerSet(ms[..|ms| - 1]) + {ms[|ms| - 1]} by {
        assert ms == ms[..|ms| - 1] + [ms[|ms| - 1]];
      }
    }
  }

  /** Every marker of `ms` was created since the state `old` refers to, added one at a time. */
  twostate predicate AllNew(new ms: seq<Marker>)
  {
    ms == [] || (AllNew(ms[..|ms| - 1]) && fresh(ms[|ms| - 1]))
  }

  /** Markers each created since the old state make a fresh set. */
  twostate lemma {:induction false} AllNewIsFresh(new ms: seq<Marker>)
    requires AllNew(ms)
    ensures fresh(MarkerSet(ms))
  {
    if ms != [] {
      AllNewIsFresh(ms[..|ms| - 1]);
      MarkerSetSnoc(ms[..|ms| - 1], ms[|ms| - 1]);
      assert ms == ms[..|ms| - 1] + [ms[|ms| - 1]];
    }
  }

  /**
   * The state of the `forEach` after the first `i` filtered nodes: the markers shown so far
   * depict, one for one and in order, the nodes marked so far, and are distinct.
   */
  ghost predicate Progress(filtered: seq<Node>, i: nat, markerFails: Node -> bool, members: seq<Member>,
                           shown: seq<Marker>, marked: seq<Node>)
  {
    i <= |filtered| && marked == MarkedNodes(filtered[..i], markerFails)
    && DepictsAll(shown, marked, members) && Seqs.NoDuplicates(shown)
  }

  /**
   * The `forEach` callback for the `i`-th filtered node: a node not on the map is skipped
   * (the early `return`), as is one whose marker fails; otherwise its marker is placed.
   */
  method PlaceStep(theMap: LeafletMap, group: ClusterGroup?, filtered: seq<Node>, i: nat, members: seq<Member>,
                   markerFails: Node -> bool, shown: seq<Marker>, ghost marked: seq<Node>, ghost placed0: set<Marker>)
    returns (shown': seq<Marker>, ghost marked': seq<Node>)
    requires i < |filtered| && Progress(filtered, i, markerFails, members, shown, marked)
    requires Placed(theMap, group) == Union(placed0, shown)
    modifies theMap, group
    ensures Progress(filtered, i + 1, markerFails, members, shown', marked')
    ensures shown' == shown || (|shown'| == |shown| + 1 && shown'[..|shown|] == shown && fresh(shown'[|shown|]))
    ensures Placed(theMap, group) == Union(placed0, shown')
    ensures Untouched(theMap, group) == old(Untouched(theMap, group))
  {
    var n := filtered[i];
    if OnMap(n) && !markerFails(n) {
      var m := PlaceNode(theMap, group, n, members);
      ExtendShown(filtered, i, markerFails, members, shown, marked, m);
      shown', marked' := shown + [m], marked + [n];
    } else {
      SkipNode(filtered, i, markerFails, members, shown, marked);
      shown', marked' := shown, marked;
    }
  }

  /**
   * The body of the `try` for a node on the map: a new marker depicting the node, added to
   * the cluster group if there is one, otherwise to the map.
   */
  method PlaceNode(theMap: LeafletMap, group: ClusterGroup?, n: Node, members: seq<Member>) returns (m: Marker)
    requires OnMap(n)
    modifies theMap, group
    ensures fresh(m) && Depicts(m, n, members)
    ensures Placed(theMap, group) == old(Placed(theMap, group)) + {m}
    ensures Untouched(theMap, group) == old(Untouched(theMap, group))
  {
    m := NewMarker(n, members);
    AddToSurface(theMap, group, m);
  }

  /** A placed marker extends the progress of the `forEach` by its node. */
  lemma ExtendShown(filtered: seq<Node>, i: nat, markerFails: Node -> bool, members: seq<Member>,
                    shown: seq<Marker>, marked: seq<Node>, m: Marker)
    requires i < |filtered| && OnMap(filtered[i]) && !markerFails(filtered[i])
    requires Progress(filtered, i, markerFails, members, shown, marked)
    requires Depicts(m, filtered[i], members) && m !in shown
    ensures Progress(filtered, i + 1, markerFails, members, shown + [m], marked + [filtered[i]])
    ensures (shown + [m])[..|shown|] == shown
  {
    MarkedNodesSnoc(filtered, i, markerFails);
    DepictsAllSnoc(shown, marked, m, filtered[i], members);
    NoDuplicatesSnoc(shown, m);
  }

  /** A node that gets no marker leaves the markers as they are. */
  lemma SkipNode(filtered: seq<Node>, i: nat, markerFails: Node -> bool, members: seq<Member>,
                 shown: seq<Marker>, marked: seq<Node>)
    requires i < |filtered| && !(OnMap(filtered[i]) && !markerFails(filtered[i]))
    requires Progress(filtered, i, markerFails, members, shown, marked)
    ensures Progress(filtered, i + 1, markerFails, members, shown, marked)
  {
    MarkedNodesSnoc(filtered, i, markerFails);
  }

  /** The marker set grows by the appended marker. */
  lemma MarkerSetSnoc(ms: seq<Marker>, m: Marker)
    ensures MarkerSet(ms + [m]) == MarkerSet(ms) + {m}
  {
  }

  /** Appending a marker not yet among them keeps the markers distinct. */
  lemma NoDuplicatesSnoc(ms: seq<Marker>, m: Marker)
    requires Seqs.NoDuplicates(ms) && m !in ms
    ensures Seqs.NoDuplicates(ms + [m])
  {
  }

  /** The layers the page puts markers in: the cluster group when there is one, the map otherwise. */
  function Placed(theMap: LeafletMap, group: ClusterGroup?): set<Marker>
    reads theMap, group
  {
    if group != null then group.layers else theMap.markerLayers
  }

  /**
   * The rest of the map's state: its own marker layers when markers go to the cluster group,
   * its open popups, the last opened popup, its camera and its cluster groups.
   */
  function Untouched(theMap: LeafletMap, group: ClusterGroup?): (set<Marker>, set<Marker>, Marker?, Camera, set<ClusterGroup>)
    reads theMap
  {
    (if group != null then theMap.markerLayers else {}, theMap.openPopups, theMap.popup, theMap.camera, theMap.clusterGroups)
  }

  /** Where `updateMapMarkers` puts a marker: into the cluster group if there is one, else on the map. */
  method AddToSurface(theMap: LeafletMap, group: ClusterGroup?, m: Marker)
    modifies theMap, group
    ensures Placed(theMap, group) == old(Placed(theMap, group)) + {m}
    ensures Untouched(theMap, group) == old(Untouched(theMap, group))
  {
    if group != null {
      group.AddLayer(m);
    } else {
      theMap.AddMarker(m);
    }
  }

  /**
   * The `L.marker(...)` of one node, with its status icon, its id as tooltip and its popup
   * of name and owner.
   */
  method NewMarker(n: Node, members: seq<Member>) returns (m: Marker)
    requires OnMap(n)
    ensures fresh(m) && Depicts(m, n, members)
  {
    m := new Marker(PositionOf(n), StatusColour(n), n.id, n.name, MemberName(members, n.memberId));
  }

  /** Each marker depicts the node at the same place of `ns`. */
  predicate DepictsAll(ms: seq<Marker>, ns: seq<Node>, members: seq<Member>)
  {
    |ms| == |ns| && forall k :: 0 <= k < |ms| ==> Depicts(ms[k], ns[k], members)
  }

  lemma DepictsAllSnoc(ms: seq<Marker>, ns: seq<Node>, m: Marker, n: Node, members: seq<Member>)
    requires DepictsAll(ms, ns, members) && Depicts(m, n, members)
    ensures DepictsAll(ms + [m], ns + [n], members)
  {
  }

  /** The markers standing exactly at `p`. */
  function MarkersAt(ms: seq<Marker>, p: LatLng): set<Marker>
  {
    set m | m in ms && m.position == p
  }

  /** The last marker of `ms` standing at `p`, or `otherwise` when none does. */
  function LastAt(ms: seq<Marker>, p: LatLng, otherwise: Marker?): Marker?
  {
    if ms == [] then otherwise
    else if ms[|ms| - 1].position == p then ms[|ms| - 1]
    else LastAt(ms[..|ms| - 1], p, otherwise)
  }

  /** When a marker of `ms` stands at `p`, the last one found is one of them; otherwise nothing is found. */
  lemma {:induction false} LastAtFound(ms: seq<Marker>, p: LatLng, otherwise: Marker?)
    ensures MarkersAt(ms, p) != {} ==> LastAt(ms, p, otherwise) != null && LastAt(ms, p, otherwise) in MarkersAt(ms, p)
    ensures MarkersAt(ms, p) == {} ==> LastAt(ms, p, otherwise) == otherwise
  {
    if ms != [] {
      var init := ms[..|ms| - 1];
      LastAtFound(init, p, otherwise);
      assert ms == init + [ms[|ms| - 1]];
      assert MarkersAt(ms, p) == MarkersAt(init, p) + (if ms[|ms| - 1].position == p then {ms[|ms| - 1]} else {});
    }
  }

  /**
   * Focusing a node at `at` and then going back to the list (`focusMapOnCurrentNode`, then
   * `showNodesList`): of the popups the focus opened, only the last one closes. So no popup
   * is left open when none was open before and at most one marker stands at `at`, while two
   * markers at `at` leave a popup open.
   */
  lemma FocusThenList(v: MapView, ms: seq<Marker>, at: LatLng, latOffset: real, filtered: seq<Node>)
    ensures MarkersAt(ms, at) != {} ==>
              ListView(FocusedView(v, ms, at, latOffset), filtered).openPopups
              == (v.openPopups + MarkersAt(ms, at)) - {LastAt(ms, at, v.popup)}
    ensures v.openPopups == {}
            && (forall i, j :: 0 <= i < |ms| && 0 <= j < |ms| && ms[i].position == at && ms[j].position == at ==> ms[i] == ms[j])
            ==> ListView(FocusedView(v, ms, at, latOffset), filtered).openPopups == {}
    ensures (exists i, j :: 0 <= i < |ms| && 0 <= j < |ms| && ms[i].position == at && ms[j].position == at && ms[i] != ms[j])
            ==> ListView(FocusedView(v, ms, at, latOffset), filtered).openPopups != {}
  {
    LastAtFound(ms, at, v.popup);
    var after := ListView(FocusedView(v, ms, at, latOffset), filtered).openPopups;
    if v.openPopups == {}
       && (forall i, j :: 0 <= i < |ms| && 0 <= j < |ms| && ms[i].position == at && ms[j].position == at ==> ms[i] == ms[j])
       && MarkersAt(ms, at) != {}
    {
      var last := LastAt(ms, at, v.popup);
      forall m | m in MarkersAt(ms, at) ensures m == last {
        var i :| 0 <= i < |ms| && ms[i] == m;
        var j :| 0 <= j < |ms| && ms[j] == last;
      }
      assert MarkersAt(ms, at) == {last};
    }
    if exists i, j :: 0 <= i < |ms| && 0 <= j < |ms| && ms[i].position == at && ms[j].position == at && ms[i] != ms[j] {
      var i, j :| 0 <= i < |ms| && 0 <= j < |ms| && ms[i].position == at && ms[j].position == at && ms[i] != ms[j];
      assert ms[i] in MarkersAt(ms, at) && ms[j] in MarkersAt(ms, at);
      assert ms[i] in after || ms[j] in after;
    }
  }
}
