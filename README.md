# ipnet node directory — a Dafny model

ipnet is the web site of a community mesh network. Its nodes page lists the mesh's nodes and shows them on a Leaflet map. The page filters the list by hardware, role, owner, online state and test status. It keeps one marker per shown node on the map, and it switches between the list and a single node's detail view as the URL changes. A members page counts each member's nodes and shows their avatars. A small Flask server renders the same pages from the same data files, and the static build prefixes every link with a deployment path.

This project models that logic and proves its properties:

- **`Directory`**: the node and member records, plus the two shared lookups: a member's name by id, and a node by the `<area>/<shortId>` of a detail route.
- **`Filters`**: the filter engine of the nodes page, the dropdown sources and the two counters.
- **`MapSurface`**: what the page sees of Leaflet and its marker-cluster plugin, modelled as classes:
  - the marker layers on the map and in the cluster group;
  - the camera;
  - the open popups.
- **`NodesPage`**: the nodes-page component as a class `NodesData`. Its methods update its fields and the map the way the component's methods do:
  - filtering;
  - reconciling markers;
  - fitting the camera;
  - the list/detail route state machine;
  - history navigation.
- **`Router`**: the URLs the page writes, the query parameters it reads back, and the browser history as a class `Browser`.
- **`MembersPage`**: the node count and avatar address of a member card.
- **`Visibility`**: the public/private filtering done by the server and by the browser.
- **`Server`**: the node lookup of the server's `nodes` route.
- **`Html`**: `escapeHtml`.
- **`Eleventy`**: the `url` filter of the static build.
- **`Seqs`, `Strings`, `Wrappers`**: the JavaScript and Python built-ins the code relies on:
  - `filter`, `find` and `new Set(...)`;
  - `toLowerCase`, `includes`, `split` and the default `sort`;
  - optional values.

Modelling choices:

- **Optional fields.** A JSON field that may be missing is an `Option`. A JavaScript truth test is modelled exactly:
  - `isOnline !== false` is `!= Some(false)`;
  - `showOnMap` is truthy only as `Some(true)`;
  - a coordinate is truthy when it is not `0`.
- **Leaflet.** Markers, the cluster group and the map are objects with identity, so "no stale marker" is a statement about object sets.
- **Per-node failures.** Each node's marker construction sits in its own `try`/`catch`. The model takes a predicate `markerFails` naming the nodes whose construction throws. Such a node is skipped before any effect.

Behaviour of the code worth knowing:

- The node list is never sorted; filtering keeps the order of nodes.json.
- A marker is green for a node that is not offline and red for one that is; there is no third colour.
- `Router.updateUrl` pushes a path `/<area>/<id>`, but `Router.getUrlParams` reads only the query string. A detail URL pushed by the page therefore reads back as the list view when the browser returns to it (`Router.PushedDetailUrlReadsAsList`). Only `?area=…&node=…` URLs resolve to a node on popstate (`Router.QueryUrlReadsBack`).
- `loadData` keeps a node or member only when `isPublic` is truthy, while the server keeps it unless `isPublic` is `false`. A record with no `isPublic` key is therefore public to the server and hidden from the browser. `Visibility.LoadedNodesMatchPublic` proves that the two lists agree exactly when every record states the key.
- Popups are bound with `autoClose: false`, so focusing a node can leave several popups open. `map.closePopup()` closes only the last one opened (`MapSurface.LeafletMap.ClosePopup`, `NodesPage.NodesData.ShowNodesList`).
- `updateMapMarkers` may run after the map exists but before the cluster group is created (the cluster group is created 100 ms after the map is ready). Markers added in that window go straight onto the map. The later clear empties only the cluster group, so those markers stay on the map. `NodesPage.NodesData.MapReady` states this as written: the map's own marker layers are unchanged.

## Model

| member | source | states |
|---|---|---|
| Seqs.Filter | web/assets/js/app.js:457-467 | `Array.prototype.filter`: the result holds exactly the elements satisfying the test, as an order-preserving subsequence |
| Seqs.FilterLength | web/assets/js/app.js:281-287 | `filter(...).length` is the whole length exactly when every element passes, and zero exactly when none does |
| Seqs.FilterIdempotent | web/assets/js/app.js:457-467 | filtering an already filtered list with the same test returns it unchanged |
| Seqs.FilterNarrower | web/assets/js/app.js:26-27 | filtering by a looser test and then by a stricter one is filtering by the stricter one alone |
| Seqs.Find | web/assets/js/app.js:474 | `Array.prototype.find`: the first satisfying element, or nothing exactly when no element satisfies the test |
| Seqs.Distinct | web/assets/js/app.js:274 | `[...new Set(xs)]`: each value once, exactly the values of the input, in order of first occurrence |
| Strings.Lower | web/assets/js/app.js:459 | `toLowerCase` on ASCII letters: same length, each character lowered |
| Strings.LowerIdempotent | web/assets/js/app.js:459 | lower-casing leaves no capital and does nothing a second time |
| Strings.IncludesAt | web/assets/js/app.js:459 | `includes` holds exactly when the needle occurs at some position |
| Strings.Split | web/assets/js/app.js:261 | `split(sep)` gives at least one piece and no piece contains the separator |
| Strings.JoinSplit | web/assets/js/app.js:261 | joining the pieces of `split` with the separator gives the string back |
| Strings.SplitFirst | web/assets/js/app.js:261-262 | the pieces of `a + sep + b` are `a` followed by the pieces of `b` when `a` has no separator |
| Strings.Sort | web/assets/js/app.js:278 | the default `sort`: sorted by code units, a permutation of the input, duplicate-free if the input is |
| Html.Escape | web/assets/js/app.js:533-542 | the escaped text contains none of `<`, `>`, `"`, `'` and is at least as long as the input |
| Html.EscapeAppend | web/assets/js/app.js:533-542 | escaping works character by character: escaping a concatenation concatenates the escapes |
| Html.EscapeIdentity | web/assets/js/app.js:533-542 | escaping leaves the text unchanged exactly when it has none of `&`, `<`, `>`, `"`, `'` |
| Html.UnescapeEscape | web/assets/js/app.js:533-542 | decoding the five entities restores the original text |
| Eleventy.Url | web/.eleventy.js:12-18 | the result starts with the prefix, the rest starts with `/` and ends with the url, and exactly one `/` is added when the url lacks one |
| Eleventy.UrlRooted | web/.eleventy.js:14-17 | a url starting with `/` gets the prefix and nothing else |
| Eleventy.UrlNormalisedOnce | web/.eleventy.js:14-17 | feeding the filter's own output back in adds no second slash |
| Directory.FindNode | web/assets/js/app.js:181 | the node a route resolves to is the first one whose id is the given id or `<id>.<area>.ipnt.uk`; there is none exactly when no node answers |
| Directory.MemberName | web/assets/js/app.js:473-476 | the name of the first member with the id, and `Unknown` when there is none |
| Directory.ShortId | web/assets/js/app.js:260-261 | the short id holds no `.`, is a prefix of the id, and is followed in the id by a `.` unless it is the whole id |
| Directory.RouteResolvesToNode | web/assets/js/app.js:181 | with unique dotted ids, the short id of `<short>.<area>.ipnt.uk` is `<short>`, and the route `<area>/<short>` finds that node |
| Filters.FilterNodes | web/assets/js/app.js:456-467 | `filteredNodes` is the order-preserving subsequence of the nodes matching all five criteria |
| Filters.FilterNodesIdempotent | web/assets/js/app.js:456-467 | re-filtering `filteredNodes` with the same criteria gives it back |
| Filters.FilterNodesAppend | web/assets/js/app.js:456-467 | the filter decides node by node: filtering a concatenation concatenates the results |
| Filters.NoSelectionFilters | web/assets/js/app.js:458-465 | with nothing selected and offline nodes allowed, only test nodes are removed, and none when test nodes are shown |
| Filters.HardwareMatchIgnoresCase | web/assets/js/app.js:458-459 | the hardware match ignores the case of both the selection and the node's hardware |
| Filters.AvailableHardware | web/assets/js/app.js:273-275 | each hardware value of the unfiltered nodes once, in order of first appearance |
| Filters.UniqueRoles | web/assets/js/app.js:482-484 | each role of the unfiltered nodes once, in order of first appearance |
| Filters.AvailableOwners | web/assets/js/app.js:277-279 | each owner id of the unfiltered nodes once, sorted |
| Filters.OnlineNodesCount | web/assets/js/app.js:281-283 | the online count never exceeds the number of filtered nodes; it equals it exactly when every filtered node is not offline, and is zero exactly when all are offline |
| Filters.RepeaterNodesCount | web/assets/js/app.js:285-287 | the repeater count never exceeds the number of filtered nodes; it equals it exactly when every filtered node is a repeater, and is zero exactly when none is |
| Filters.OnlineNodesCountSnoc | web/assets/js/app.js:281-283 | one more filtered node raises the online count by one exactly when it is not offline |
| Filters.RepeaterNodesCountSnoc | web/assets/js/app.js:285-287 | one more filtered node raises the repeater count by one exactly when it is a repeater |
| Filters.OnlineOnlyCountsAll | web/assets/js/app.js:464 | with "online only" on, every filtered node counts as online |
| Filters.RoleDecidesRepeaterCount | web/assets/js/app.js:460-461 | with a role selected, the repeater count is all the filtered nodes for `repeater` and zero for any other role |
| Router.RouteOf | web/assets/js/app.js:171-176 | the detail branch is taken exactly when both the area and the node parameter are non-empty |
| Router.RouteTarget | web/assets/js/app.js:169-195 | with both parameters non-empty, the target is the node `showNode` finds for them; routing ends on a node exactly when both are non-empty and a node answers them, and that node is in the list and answers the route |
| Router.DetailUrl | web/assets/js/app.js:90-91 | the pushed path holds only `/` and the characters of the area and the id, and splits on `/` back into `""`, the area and the id when neither holds a `/` |
| Router.DetailTarget | web/assets/js/app.js:259-263 | the area written is the node's area lower-cased (same length, no capital, every other character kept); the id written is the text of the node id before its first `.` |
| Router.NavigateRoundTrip | web/assets/js/app.js:260-266 | navigating to a node with id `<short>.<lower-case area>.ipnt.uk` writes `(area, short)`, which routes to the detail view and resolves to that node |
| Router.NavigableResolves | web/assets/js/app.js:260-266 | for such a node, the route that `navigateToNode` dispatches resolves back to it |
| Router.NoQuestionMarkNoSearch | web/assets/js/app.js:82 | a location without `?` has an empty query string |
| Router.EmptySearchHasNoParams | web/assets/js/app.js:82-85 | an empty query string has no parameter |
| Router.PushedDetailUrlReadsAsList | web/assets/js/app.js:81-92 | the path `/<area>/<id>` that `updateUrl` pushes carries no query, so reading it back gives no parameters and the list route |
| Router.SearchAfterPath | web/assets/js/app.js:82 | the query string of `path?search` is `search` |
| Router.FieldNameValue | web/assets/js/app.js:84-85 | a `name=value` field first in the query gives `value` for `name` |
| Router.GetUrlParams | web/assets/js/app.js:81-87 | each parameter is the value (the text after the first `=`) of the first `&`-separated query field with that name, and `null` exactly when no field has that name |
| Router.QueryUrlReadsBack | web/assets/js/app.js:81-87 | `/nodes/?area=a&node=n` reads back as area `a` and node `n` |
| Router.Browser.constructor | web/assets/js/app.js:82 | history starts with the location the page was opened at as its only entry |
| Router.Browser.PushState | web/assets/js/app.js:92 | `pushState` drops the forward entries, appends the URL and makes it the current location |
| Router.Browser.Back | web/assets/js/app.js:144-146 | going back moves one entry back exactly when there is one, keeping all entries |
| Router.Browser.Forward | web/assets/js/app.js:144-146 | going forward moves one entry on exactly when there is one, keeping all entries |
| MapSurface.BoundsOf | web/assets/js/app.js:371 | `L.latLngBounds`: the box holds every point and each of its four edges is attained by a point |
| MapSurface.CenterInside | web/assets/js/app.js:308 | the centre of a non-inverted box lies inside it |
| MapSurface.CenterOf | web/assets/js/app.js:308 | the centre is equally far from the south and north edges and from the west and east edges |
| MapSurface.StatusColour | web/assets/js/app.js:408 | green exactly when `isOnline !== false`, red exactly otherwise |
| MapSurface.Marker.constructor | web/assets/js/app.js:416-440 | a marker carries the node's position, colour, tooltip, name and owner |
| MapSurface.ClusterGroup.constructor | web/assets/js/app.js:331-339 | an empty cluster group with cluster radius 50 that stops clustering at zoom 16 |
| MapSurface.ClusterGroup.ClearLayers | web/assets/js/app.js:388 | `clearLayers` empties the group and closes the popups of the markers it held, leaving the rest of the map as it was |
| MapSurface.ClusterGroup.AddLayer | web/assets/js/app.js:444 | the group gains the marker |
| MapSurface.LeafletMap.constructor | web/assets/js/app.js:317 | a new map looks at the given centre and zoom, with no layers and no popup |
| MapSurface.LeafletMap.SetView | web/assets/js/app.js:378 | the camera is centred at the given point and zoom; nothing else changes |
| MapSurface.LeafletMap.FitBounds | web/assets/js/app.js:372 | the camera fits the bounds with the given padding and maximum zoom; nothing else changes |
| MapSurface.LeafletMap.AddMarker | web/assets/js/app.js:446 | the map gains the marker as its own layer; nothing else changes |
| MapSurface.LeafletMap.RemoveMarker | web/assets/js/app.js:391-392 | the marker leaves the map and its popup closes |
| MapSurface.LeafletMap.AddClusterGroup | web/assets/js/app.js:340 | the map gains the cluster group |
| MapSurface.LeafletMap.OpenPopup | web/assets/js/app.js:227 | the popup opens without closing others and becomes the last opened one |
| MapSurface.LeafletMap.ClosePopup | web/assets/js/app.js:246 | only the last opened popup closes |
| MapSurface.AfterClosePopup | web/assets/js/app.js:246 | after `closePopup` the last opened popup is closed and every other open popup stays open |
| MapSurface.InitialCamera | web/assets/js/app.js:300-317 | the opening camera: bounds centre at zoom 13 for one node and 11 for several (inside the bounds); otherwise the configured centre and zoom, defaulting to 52.05917, 1.15545 and zoom 11 |
| NodesPage.OnMapNodes | web/assets/js/app.js:365-367 | exactly the filtered nodes with `showOnMap` and both coordinates, each having a location |
| NodesPage.MarkedNodesSnoc | web/assets/js/app.js:403-453 | processing one more node adds it to the marked nodes exactly when it is on the map and its marker does not fail |
| NodesPage.NoFailureMarksAll | web/assets/js/app.js:403-453 | with no marker failing, one marker is made for every on-map node |
| NodesPage.FittedCamera | web/assets/js/app.js:362-380 | zero on-map nodes keep the camera; one gives `setView` at zoom 13 on it; more give `fitBounds` with padding 20 and max zoom 13 on exactly the bounds of their positions |
| NodesPage.FittedCameraIdempotent | web/assets/js/app.js:362-380 | fitting twice to the same nodes is fitting once |
| NodesPage.NodesData.constructor | web/assets/js/app.js:132-158 | `init`: routing is decided from the current URL, then the initial filter is applied before any map exists |
| NodesPage.NodesData.ApplyFilters | web/assets/js/app.js:456-471 | `filteredNodes` becomes the filtered list; route state is kept; with a map, the markers are exactly one fresh marker per marked node, the camera is fitted to the filtered nodes, the popups of the removed markers close, the last-popup pointer and cluster groups are kept, and with a cluster group the map's own layers are kept |
| NodesPage.NodesData.UpdateMapMarkers | web/assets/js/app.js:382-454 | without a map nothing changes; with one, the markers are one fresh marker per marked node in filtered order, the map or cluster holds exactly those (no stale marker), and the popups of the removed markers close |
| NodesPage.NodesData.ClearMarkers | web/assets/js/app.js:385-400 | the cluster group is emptied, or every old marker is removed from the map, closing their popups |
| NodesPage.NodesData.FitMapToNodes | web/assets/js/app.js:362-380 | with a map, the camera becomes the fitted camera and nothing else changes |
| NodesPage.NodesData.InitMap | web/assets/js/app.js:297-323 | the first call with Leaflet loaded creates an empty map with the opening camera; otherwise nothing changes |
| NodesPage.NodesData.CreateMap | web/assets/js/app.js:317-323 | the map created past the guard is new, holds no marker, cluster group or open popup, looks through the given camera, and the rest of the page state is unchanged |
| NodesPage.NodesData.MapReady | web/assets/js/app.js:326-358 | with the plugin loaded a fresh cluster group (radius 50, no clustering from zoom 16) is added and the map's own layers and open popups are kept; without it the map holds exactly the new markers and the old markers' popups close; either way markers are rebuilt, the camera fitted and the last-popup pointer kept |
| NodesPage.NodesData.HandleRouting | web/assets/js/app.js:169-177 | the current node becomes the route target of the URL's parameters; the whole map state is unchanged when a node is shown, and for the list view only the last popup closes and the camera is refitted |
| NodesPage.NodesData.OnRouteChange | web/assets/js/app.js:149-156 | the current node becomes the route target of the dispatched area and node; the map changes exactly as for `handleRouting` |
| NodesPage.NodesData.ShowNode | web/assets/js/app.js:180-195 | the current node becomes the first node answering the route, leaving the map state unchanged, or the list view when there is none |
| NodesPage.NodesData.ShowNodesList | web/assets/js/app.js:241-257 | the list view: no current node, flag off, last popup closed, camera fitted to the filtered nodes, the rest of the map unchanged |
| NodesPage.NodesData.FocusMapOnCurrentNode | web/assets/js/app.js:198-238 | with a map and a located current node, the camera centres below it at zoom 16, the popups of all markers at its position open and the last of them becomes the last opened; otherwise the map state is unchanged |
| NodesPage.LastAtFound | web/assets/js/app.js:223-228 | the last marker at a position whose popup opens is one of the markers there, and the previous last popup stays when there is none |
| NodesPage.FocusThenList | web/assets/js/app.js:223-246 | focusing a node and then returning to the list leaves open the old popups plus those at the node except the last one opened; none when at most one marker sits there and none was open; at least one when two markers share the position |
| NodesPage.NodesData.NavigateToNode | web/assets/js/app.js:260-266 | pushes `/<lower-case area>/<short id>` after the current entry and routes to it; a node with a well-formed unique id becomes the current node; the map changes exactly as for `handleRouting` |
| NodesPage.NodesData.NavigateToNodesList | web/assets/js/app.js:269-271 | pushes `/nodes/` after the current entry and switches to the list view: last popup closed, camera refitted, the rest of the map unchanged |
| NodesPage.NodesData.FocusNodeOnMap | web/assets/js/app.js:289-295 | with a map and no location nothing changes (the call throws); otherwise the node's detail URL is pushed and routed to, and with a map the camera first centres on the node at zoom 15 |
| NodesPage.NodesData.HistoryBack | web/assets/js/app.js:144-146 | going back moves one entry back and re-routes from the previous URL when there is one, changing the map as `handleRouting` does; otherwise nothing changes |
| NodesPage.NodesData.HistoryForward | web/assets/js/app.js:144-146 | going forward moves one entry on and re-routes from the next URL when there is one, changing the map as `handleRouting` does; otherwise nothing changes |
| NodesPage.PlaceMarkers | web/assets/js/app.js:403-453 | the `forEach`: one fresh, distinct marker per marked node in order, each depicting its node, all added where the page puts markers, the rest of the map untouched |
| NodesPage.PlaceStep | web/assets/js/app.js:403-452 | one turn of the `forEach`: a node with a position whose marker builds gets one fresh marker, appended last and placed; any other node is skipped; the shown markers still depict exactly the marked prefix, without repeats |
| NodesPage.PlaceNode | web/assets/js/app.js:406-447 | the marker for a node is fresh, depicts it, and is the only thing added to where markers go |
| NodesPage.ExtendShown | web/assets/js/app.js:449 | pushing the new marker for the next marked node keeps the markers depicting the marked prefix, one to one and without repeats |
| NodesPage.UnionIsMarkerSet | web/assets/js/app.js:443-449 | adding the pushed markers one by one to the layers gives the old layers plus the set of markers pushed |
| NodesPage.AddToSurface | web/assets/js/app.js:443-447 | a marker goes into the cluster group if there is one, else onto the map |
| NodesPage.NewMarker | web/assets/js/app.js:408-440 | the marker built for a node depicts it: position, colour, tooltip id, name and owner name |
| NodesPage.DepictsAllSnoc | web/assets/js/app.js:449 | appending a marker depicting the next node keeps the markers in step with the nodes |
| MembersPage.NodeCount | web/assets/js/app.js:500-502 | the count is positive exactly when some public node belongs to the member, and never exceeds the number of nodes |
| MembersPage.NodeCountAppend | web/assets/js/app.js:500-502 | the count adds up over a split of the node list |
| MembersPage.NodeCountOfLoaded | web/assets/js/app.js:500-502 | counting the nodes `loadData` keeps gives the same as counting all the file's nodes |
| MembersPage.AvatarUrl | web/assets/js/app.js:512-516 | empty for a missing or empty path, otherwise the prefix followed by the stored path |
| MembersPage.AvatarUrlAgainstUrlFilter | web/assets/js/app.js:512-516 | equals the static build's `url` filter for paths starting with `/`, and differs from it for any other non-empty path |
| Visibility.PublicNodes | web/app.py:21-25 | the nodes not marked `isPublic: false`, in file order; nothing when the key or the file is missing |
| Visibility.PublicMembers | web/app.py:22-26 | the members not marked `isPublic: false`, in file order; nothing when the key or the file is missing |
| Visibility.LoadedNodes | web/assets/js/app.js:26 | the nodes with `isPublic` true, in file order |
| Visibility.LoadedMembers | web/assets/js/app.js:27 | the members with `isPublic` true, in file order |
| Visibility.LoadedNodesFromPublic | web/app.py:25 | the browser's nodes are the server's nodes filtered again, so a subsequence of them |
| Visibility.LoadedNodesMatchPublic | web/app.py:25 | the browser and the server list the same nodes exactly when every node states `isPublic` |
| Visibility.LoadedMembersMatchPublic | web/app.py:26 | the same two facts for members |
| Server.NextMatching | web/app.py:60 | the generator's first node carrying the full id or the bare id, and `None` exactly when no node does |
| Server.NodesRoute | web/app.py:56-67 | no lookup unless both area and id are given; `current_node` is `None` exactly when no node answers; the individual view is on exactly when a node was found |
| Server.NextMatchingIsFindNode | web/app.py:59-60 | the server's lookup is the page's `find` |
| Server.ServerAgreesWithPage | web/app.py:56-67 | on the same node list, the server renders the node the page routes to, and the list exactly when the page falls back to it |
| Server.PrivateNodeNeverCurrent | web/app.py:25-60 | a node marked private is never the rendered current node |

## Left out

- Fetching and JSON parsing are left out: `loadData`, `getPathPrefix` and the server's `load_json_data` file I/O. The loaded sequences, the path prefix and the config's `location` are parameters. A file or key that is missing is `None`. The browser's `catch`, which returns empty lists when a key is missing, is not modelled.
- A `null` path prefix (a meta tag with no `content`) is not modelled; the prefix is always a string.
- Timers, `$nextTick`, `whenReady`, `invalidateSize`, `scrollTo` and the listener registrations are collapsed. Each deferred step is a method applied at once (`ShowNodesList` fits the camera immediately; `InitMap` and `MapReady` are two calls).
- Popstate is modelled by `HistoryBack`/`HistoryForward` over the `Browser` history. The `routechange` event is modelled by `OnRouteChange`.
- NodesPage.NodesData.FocusMapOnCurrentNode: the latitude offset is a parameter. Its value comes from the map container's pixel height and the current bounds, which are floating-point DOM geometry.
- The coverage-area estimates of the home page and the server are left out (floating-point geometry). So are `formatDate` (locale-dependent dates), the dark-mode store, Flask rendering and redirects, and the styling configuration.
- Leaflet rendering is left out:
  - tiles, the div icon's HTML, tooltip options and the popup's HTML;
  - the cluster-click handler, animation and chunked loading.

  A marker keeps only the data the page puts into it.
- NodesPage.NodesData.FitMapToNodes: the `try`/`catch` around `fitBounds` is not modelled, because `fitBounds` of a non-empty bounds does not throw here.
- NodesPage.NodesData.ClearMarkers: the `catch` path of the clearing step is not modelled. Only the `markers = []` reset would survive an exception there.
- NodesPage.PlaceMarkers: a marker whose construction throws is modelled as failing before any effect. An exception raised after the marker was added to the map is not modelled.
- Strings.Lower: lower-cases ASCII letters only. Non-ASCII case mapping of `toLowerCase` is not modelled.
- Strings are sequences of characters. JavaScript's UTF-16 code units and surrogate pairs are not distinguished from code points.
- Router.GetUrlParams: `URLSearchParams` is modelled as splitting the query on `&` and taking the name before the first `=`. Percent-decoding and `+` as space are not modelled, and `QueryUrlReadsBack` excludes `%` and `+`.
- A missing `hardware` field makes `toLowerCase` throw. This is not modelled: every node has a hardware string.
- Coordinates are `real` numbers. `NaN`, infinities and non-numeric JSON values are not modelled. The same holds for truthy values of `isPublic`, `showOnMap` and the other flags that are not `true`/`false`.
- MapSurface.LeafletMap.OpenPopup: Leaflet opens a popup only for a marker that is shown. The model opens it regardless. The page's markers are on the map or in its cluster group, and at zoom 16, where the focus lands, the cluster group stops clustering (`disableClusteringAtZoom: 16`), so every marker there is shown.
- Directory.Node: `memberId` is always a string. A node with no `memberId` or a `null` one is not modelled. JavaScript would sort `undefined` last among the owners and stringify `null` for the owner lookup.
- NodesPage.NodesData.FocusNodeOnMap: with a map, a node without a location makes `node.location.lat` throw before `navigateToNode` runs. The model returns with nothing changed; the thrown error itself is not modelled.
