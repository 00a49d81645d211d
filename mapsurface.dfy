/**
 * The parts of Leaflet (and its marker-cluster plugin) that the nodes page of
 * web/assets/js/app.js drives, reduced to the state the page can observe: which marker
 * layers are on the map or in the cluster group, the camera, and which popups are open.
 * Tiles, icons, tooltips, pixel geometry and animation are not modelled.
 */
module MapSurface {

  import opened Wrappers
  import opened Directory

  datatype LatLng = LatLng(lat: real, lng: real)

  /** `L.latLngBounds`: the south-west and north-east corners. */
  datatype Bounds = Bounds(south: real, west: real, north: real, east: real)

  /** Where the map looks: `setView(center, zoom)` or `fitBounds(bounds, {padding, maxZoom})`. */
  datatype Camera = Centered(center: LatLng, zoom: int) | Fitted(bounds: Bounds, padding: int, maxZoom: int)

  predicate Contains(b: Bounds, p: LatLng)
  {
    b.south <= p.lat <= b.north && b.west <= p.lng <= b.east
  }

  function Min(x: real, y: real): real { if x <= y then x else y }
  function Max(x: real, y: real): real { if x <= y then y else x }

  /**
   * `L.latLngBounds(points)`: the smallest box holding every point, so each of its four
   * edges is attained by some point.
   */
  function BoundsOf(points: seq<LatLng>): (b: Bounds)
    requires points != []
    ensures forall i :: 0 <= i < |points| ==> Contains(b, points[i])
    ensures exists i :: 0 <= i < |points| && points[i].lat == b.south
    ensures exists i :: 0 <= i < |points| && points[i].lat == b.north
    ensures exists i :: 0 <= i < |points| && points[i].lng == b.west
    ensures exists i :: 0 <= i < |points| && points[i].lng == b.east
  {
    var p := points[0];
    if |points| == 1 then Bounds(p.lat, p.lng, p.lat, p.lng)
    else
      var r := BoundsOf(points[1..]);
      var b := Bounds(Min(p.lat, r.south), Min(p.lng, r.west), Max(p.lat, r.north), Max(p.lng, r.east));
      assert forall i :: 1 <= i < |points| ==> points[i] == points[1..][i - 1];
      b
  }

  /** `bounds.getCenter()`: the midpoint of the box, as far from each edge as from the opposite one. */
  function CenterOf(b: Bounds): (c: LatLng)
    ensures c.lat - b.south == b.north - c.lat && c.lng - b.west == b.east - c.lng
  {
    LatLng((b.south + b.north) / 2.0, (b.west + b.east) / 2.0)
  }

  /** The centre of a box lies inside it whenever the box is not inverted. */
  lemma CenterInside(b: Bounds)
    requires b.south <= b.north && b.west <= b.east
    ensures Contains(b, CenterOf(b))
  {
  }

  /** Position of a node that has a location (`[node.location.lat, node.location.lng]`). */
  function PositionOf(n: Node): LatLng
    requires n.location.Some?
  {
    LatLng(n.location.value.lat, n.location.value.lng)
  }

  /** The positions of nodes that all have a location, in order. */
  function PositionsOf(nodes: seq<Node>): (r: seq<LatLng>)
    requires forall i :: 0 <= i < |nodes| ==> nodes[i].location.Some?
    ensures |r| == |nodes| && forall i :: 0 <= i < |nodes| ==> r[i] == PositionOf(nodes[i])
  {
    seq(|nodes|, i requires 0 <= i < |nodes| => PositionOf(nodes[i]))
  }

  /** The two marker colours. */
  const OnlineColour: string := "#10b981"
  const OfflineColour: string := "#ef4444"

  /** `statusColor`: green exactly for the nodes that count as online, red otherwise. */
  function StatusColour(n: Node): (c: string)
    ensures c == OnlineColour <==> CountsAsOnline(n)
    ensures c == OfflineColour <==> !CountsAsOnline(n)
  {
    if CountsAsOnline(n) then OnlineColour else OfflineColour
  }

  /**
   * An `L.marker` as the page builds it: its position, the colour of its icon, its
   * permanent tooltip, and the node name and owner name of its popup.
   */
  class Marker {
    const position: LatLng
    const colour: string
    const tooltip: string
    const title: string
    const owner: string

    constructor (position: LatLng, colour: string, tooltip: string, title: string, owner: string)
      ensures this.position == position && this.colour == colour && this.tooltip == tooltip
      ensures this.title == title && this.owner == owner
    {
      this.position := position;
      this.colour := colour;
      this.tooltip := tooltip;
      this.title := title;
      this.owner := owner;
    }
  }

  /** The marker-cluster group with the options the page passes. */
  class ClusterGroup {
    var layers: set<Marker>
    const maxClusterRadius: int
    const disableClusteringAtZoom: int

    /** `L.markerClusterGroup({maxClusterRadius: 50, disableClusteringAtZoom: 16, ...})`. */
    constructor ()
      ensures layers == {} && maxClusterRadius == 50 && disableClusteringAtZoom == 16
    {
      layers := {};
      maxClusterRadius := 50;
      disableClusteringAtZoom := 16;
    }

    /**
     * `clearLayers()` on a group added to `surface`: the group holds no marker afterwards, and
     * the popups of the markers it held close with them.
     */
    method ClearLayers(surface: LeafletMap)
      modifies this, surface
      ensures layers == {} && surface.openPopups == old(surface.openPopups) - old(layers)
      ensures surface.markerLayers == old(surface.markerLayers) && surface.clusterGroups == old(surface.clusterGroups)
      ensures surface.camera == old(surface.camera) && surface.popup == old(surface.popup)
    {
      surface.openPopups := surface.openPopups - layers;
      layers := {};
    }

    /** `addLayer(marker)`. */
    method AddLayer(m: Marker)
      modifies this
      ensures layers == old(layers) + {m}
    {
      layers := layers + {m};
    }
  }

  /** Everything the page can observe of a map at one moment. */
  datatype MapView = MapView(markerLayers: set<Marker>, clusterGroups: set<ClusterGroup>, camera: Camera,
                             openPopups: set<Marker>, popup: Marker?)

  /**
   * `L.map`: the marker layers added to it directly, the cluster groups added to it, the
   * camera, the popups that are open and `popup`, the one Leaflet remembers as last opened
   * (the one `closePopup()` closes).
   */
  class LeafletMap {
    var markerLayers: set<Marker>
    var clusterGroups: set<ClusterGroup>
    var camera: Camera
    var openPopups: set<Marker>
    var popup: Marker?

    /** `L.map(...).setView(center, zoom)`: a fresh map with no layers and no open popup. */
    constructor (center: LatLng, zoom: int)
      ensures markerLayers == {} && clusterGroups == {} && camera == Centered(center, zoom)
      ensures openPopups == {} && popup == null
    {
      markerLayers := {};
      clusterGroups := {};
      camera := Centered(center, zoom);
      openPopups := {};
      popup := null;
    }

    /** The map's state as one value. */
    function View(): MapView
      reads this
    {
      MapView(markerLayers, clusterGroups, camera, openPopups, popup)
    }

    /** Whether a marker is one of the map's own layers (`hasLayer`). */
    function HasLayer(m: Marker): bool
      reads this
    {
      m in markerLayers
    }

    method SetView(center: LatLng, zoom: int)
      modifies this
      ensures camera == Centered(center, zoom)
      ensures markerLayers == old(markerLayers) && clusterGroups == old(clusterGroups)
      ensures openPopups == old(openPopups) && popup == old(popup)
    {
      camera := Centered(center, zoom);
    }

    method FitBounds(bounds: Bounds, padding: int, maxZoom: int)
      modifies this
      ensures camera == Fitted(bounds, padding, maxZoom)
      ensures markerLayers == old(markerLayers) && clusterGroups == old(clusterGroups)
      ensures openPopups == old(openPopups) && popup == old(popup)
    {
      camera := Fitted(bounds, padding, maxZoom);
    }

    /** `marker.addTo(map)`. */
    method AddMarker(m: Marker)
      modifies this
      ensures markerLayers == old(markerLayers) + {m}
      ensures clusterGroups == old(clusterGroups) && camera == old(camera)
      ensures openPopups == old(openPopups) && popup == old(popup)
    {
      markerLayers := markerLayers + {m};
    }

    /** `map.removeLayer(marker)`: the marker leaves the map, and its popup closes with it. */
    method RemoveMarker(m: Marker)
      modifies this
      ensures markerLayers == old(markerLayers) - {m} && openPopups == old(openPopups) - {m}
      ensures clusterGroups == old(clusterGroups) && camera == old(camera) && popup == old(popup)
    {
      markerLayers := markerLayers - {m};
      openPopups := openPopups - {m};
    }

    /** `map.addLayer(clusterGroup)`. */
    method AddClusterGroup(g: ClusterGroup)
      modifies this
      ensures clusterGroups == old(clusterGroups) + {g}
      ensures markerLayers == old(markerLayers) && camera == old(camera)
      ensures openPopups == old(openPopups) && popup == old(popup)
    {
      clusterGroups := clusterGroups + {g};
    }

    /**
     * `marker.openPopup()` for a popup bound with `autoClose: false`: the popups already
     * open stay open, and this one becomes the map's last opened popup.
     */
    method OpenPopup(m: Marker)
      modifies this
      ensures openPopups == old(openPopups) + {m} && popup == m
      ensures markerLayers == old(markerLayers) && clusterGroups == old(clusterGroups) && camera == old(camera)
    {
      openPopups := openPopups + {m};
      popup := m;
    }

    /**
     * `map.closePopup()` without an argument: closes the last opened popup only; the map
     * keeps remembering it.
     */
    method ClosePopup()
      modifies this
      ensures openPopups == AfterClosePopup(old(openPopups), old(popup)) && popup == old(popup)
      ensures markerLayers == old(markerLayers) && clusterGroups == old(clusterGroups) && camera == old(camera)
    {
      if popup != null {
        openPopups := openPopups - {popup};
      }
    }
  }

  /** The popups still open after `closePopup()`, from those open and the last opened one. */
  function AfterClosePopup(open: set<Marker>, last: Marker?): (r: set<Marker>)
    ensures r <= open
    ensures last != null ==> last !in r
    ensures forall m :: m in open && m != last ==> m in r
  {
    if last == null then open else open - {last}
  }

  /** `config.location` of config.json: an optional centre and zoom. */
  datatype MapConfig = MapConfig(center: Option<LatLng>, zoom: Option<int>)

  /** The centre `initMap` falls back to when no node is on the map and none is configured. */
  const DefaultCenter: LatLng := LatLng(52.05917, 1.15545)

  /**
   * The camera `initMap` opens the map with, from the nodes to be shown on it: the centre of
   * their bounds at zoom 13 for one node and 11 for several; with none, the configured centre
   * and zoom, with the default centre and zoom 11 standing in for a missing (or zero) value.
   */
  function InitialCamera(onMap: seq<Node>, location: Option<MapConfig>): (c: Camera)
    requires forall i :: 0 <= i < |onMap| ==> onMap[i].location.Some?
    ensures c.Centered?
    ensures |onMap| == 1 ==> c == Centered(PositionOf(onMap[0]), 13)
    ensures |onMap| > 1 ==> c.zoom == 11 && c.center == CenterOf(BoundsOf(PositionsOf(onMap)))
    ensures |onMap| > 1 ==> Contains(BoundsOf(PositionsOf(onMap)), c.center)
    ensures |onMap| == 0 && (location.None? || location.value.center.None?) ==> c.center == DefaultCenter
    ensures |onMap| == 0 && (location.None? || location.value.zoom.None? || location.value.zoom == Some(0)) ==> c.zoom == 11
    ensures |onMap| == 0 && location.Some? && location.value.center.Some? ==> c.center == location.value.center.value
    ensures |onMap| == 0 && location.Some? && location.value.zoom.Some? && location.value.zoom.value != 0
            ==> c.zoom == location.value.zoom.value
  {
    if |onMap| > 0 then
      var b := BoundsOf(PositionsOf(onMap));
      if |onMap| == 1 then
        assert b == Bounds(onMap[0].location.value.lat, onMap[0].location.value.lng, onMap[0].location.value.lat, onMap[0].location.value.lng);
        Centered(CenterOf(b), 13)
      else
        assert b.south <= b.north && b.west <= b.east by {
          assert Contains(b, PositionsOf(onMap)[0]);
        }
        CenterInside(b);
        Centered(CenterOf(b), 11)
    else
      var center := if location.Some? && location.value.center.Some? then location.value.center.value else DefaultCenter;
      var zoom := if location.Some? && location.value.zoom.Some? && location.value.zoom.value != 0 then location.value.zoom.value else 11;
      Centered(center, zoom)
  }
}
