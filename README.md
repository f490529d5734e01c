# Frontend interactive map: a verified model of its selection core

The front end of FireSensorDeployment lets a user draw one polygon, the area
of interest (AOI), on a Mapbox map. It keeps a registry of the map's
selectable layers and, for each selected layer, picks out the rendered
features that the AOI contains or intersects. It bundles these into a
`SelectionBundle` for the back end and previews them in a panel. It also
draws the provincial PSTA fire-threat raster, restricted to the fire-threat
polygons that intersect the AOI, through a WMS request whose `CQL_FILTER`
carries the AOI as WKT. Whole polygons are drawn; nothing is clipped at the
AOI boundary.

This project models that core in Dafny and proves what it promises:

- **The stores.** The AOI store is one cell (`AoiStore.Store`). The layer
  registry (`MapInfoStore.MapInfo`) is a table that `registerLayers`,
  `toggleLayer` and `setLayerMode` replace. Both are classes. The
  registry's methods are proved against pure functions of the table; the
  AOI store's `setAOI` is one step of a fold over calls, which the draw
  handlers are proved to drive.
- **The draw handlers** (`DrawControl`). These are transitions of the AOI
  cell, with a replay lemma over any sequence of events.
- **`collectAndPostSelection`** (`Selection.CollectSelection`). This is the
  nested loop, proved equal to a specification of the per-layer table and
  the payload. Lemmas cover keys, repeated layers, tagging, throwing
  predicates and the flattened list.
- **The PSTA layer** (`PstaFireRisk`, with `Wkt`, `Uri` and `Text`).
  - The WKT writer has a reader, and a round trip is proved.
  - `encodeURIComponent` has a decoder, and a round trip is proved.
  - The WMS base URL and the tiles URL are modelled, with a query-string
    reader. It is proved that the server reads back the tile size and the
    filter.
  - The effect that decides whether a filtered URL exists is a method on
    the component's state.
- **The AOI panel** (`AoiPanel`). The metrics are a function of the AOI,
  and the area they show is the one the PSTA layer's effect reads.
  The preview effect is a method proved against a specification. Lemmas
  tie it to the registry's selected layers and to the upload's hits.

A JavaScript object used as a dictionary is `JsObject.Record`. It holds an
insertion-ordered key list and a map. Property assignment keeps an existing
key's place and appends a new key. `Object.values` follows the key order.

Inputs from outside the program are parameters. These are turf's
predicates, area and bbox, `map.queryRenderedFeatures` (a function from layer id
to candidates), `JSON.stringify`, whether the map is ready, whether the browser has a
clipboard API, and the clock.

## Model

| member | source | states |
|---|---|---|
| AoiStore.Store.constructor | web/src/store/useAOIStore.ts:11 | the store starts with no AOI |
| AoiStore.Store.SetAOI | web/src/store/useAOIStore.ts:12 | `setAOI(f)` makes the cell exactly `f`, including null; this is one step of the call fold `AfterCalls` |
| AoiStore.LastCallWins | web/src/store/useAOIStore.ts:12 | after any sequence of `setAOI` calls the cell holds the last argument, or its initial value when there were none |
| AoiStore.RepeatedCall | web/src/store/useAOIStore.ts:12 | repeating a `setAOI` call changes nothing |
| AoiStore.OnlyLastCallMatters | web/src/store/useAOIStore.ts:12 | whatever the earlier calls and the initial value, only the last call decides the cell |
| MapInfoStore.NewMeta | web/src/store/useMapInfoStore.ts:36-41 | a new entry takes the def's id; its label defaults to the id; it is selected unless `defaultSelected` is false; its mode is `contains` only when asked, else `intersects` |
| MapInfoStore.RegisterOneExisting | web/src/store/useMapInfoStore.ts:36 | registering an id already present leaves the table unchanged (`??` keeps the old entry) |
| MapInfoStore.RegisterDomain | web/src/store/useMapInfoStore.ts:33-44 | after registration the ids are the old ids plus the defs' ids, and old entries are untouched |
| MapInfoStore.RegisterFirstDefs | web/src/store/useMapInfoStore.ts:33-44 | a new id holds the entry built from the first def with that id |
| MapInfoStore.RegisterKeys | web/src/store/useMapInfoStore.ts:34-42 | the key order is the old keys and then each new def id at its first occurrence |
| MapInfoStore.RegisterKeyed | web/src/store/useMapInfoStore.ts:33-44 | registration keeps every entry stored under its own id |
| MapInfoStore.Toggle | web/src/store/useMapInfoStore.ts:45-49 | an unknown id returns the state unchanged; otherwise only that entry's `selected` changes, to the argument or its negation; key order is kept |
| MapInfoStore.SetMode | web/src/store/useMapInfoStore.ts:50-54 | an unknown id returns the state unchanged; otherwise only that entry's mode changes; key order is kept |
| MapInfoStore.ToggleKeyed | web/src/store/useMapInfoStore.ts:45-49 | toggling keeps every entry under its own id |
| MapInfoStore.SetModeKeyed | web/src/store/useMapInfoStore.ts:50-54 | setting a mode keeps every entry under its own id |
| MapInfoStore.ToggleTwice | web/src/store/useMapInfoStore.ts:48 | toggling twice with no argument restores the table |
| MapInfoStore.ToggleSet | web/src/store/useMapInfoStore.ts:48 | an explicit `selected` is idempotent and sets the flag to that value |
| MapInfoStore.SetModeIdempotent | web/src/store/useMapInfoStore.ts:53 | setting the same mode twice equals setting it once |
| MapInfoStore.SelectedOnlyOrder | web/src/store/useMapInfoStore.ts:55 | `filter(l => l.selected)` keeps the order of the layers it keeps |
| MapInfoStore.SelectedOnlyMembers | web/src/store/useMapInfoStore.ts:55 | `filter(l => l.selected)` keeps exactly the selected layers |
| MapInfoStore.SelectedIdsFacts | web/src/store/useMapInfoStore.ts:55 | `selectedLayerIds()` lists exactly the ids of selected entries, each once, in key-insertion order |
| MapInfoStore.MapInfo.constructor | web/src/store/useMapInfoStore.ts:32 | the store starts with an empty table |
| MapInfoStore.MapInfo.RegisterLayers | web/src/store/useMapInfoStore.ts:33-44 | the loop over `defs` leaves the table equal to the registration fold, with entries still keyed by id |
| MapInfoStore.MapInfo.ToggleLayer | web/src/store/useMapInfoStore.ts:45-49 | the table becomes `Toggle` of the old table |
| MapInfoStore.MapInfo.SetLayerMode | web/src/store/useMapInfoStore.ts:50-54 | the table becomes `SetMode` of the old table |
| MapInfoStore.MapInfo.SelectedLayerIds | web/src/store/useMapInfoStore.ts:55 | ids of exactly the selected entries, each once, in key order |
| DrawControl.OnCreateOrUpdate | web/src/components/map/controls/DrawControl.tsx:15-26 | the cell becomes the transition `Next` for a create event and for an update event alike |
| DrawControl.OnDelete | web/src/components/map/controls/DrawControl.tsx:28 | the AOI becomes null whatever it was |
| DrawControl.Dispatch | web/src/components/map/controls/DrawControl.tsx:38-40 | each event reaches its handler, and the cell follows `Next` |
| DrawControl.NextCases | web/src/components/map/controls/DrawControl.tsx:16-28 | an event without a polygon first feature leaves the cell unchanged; a setting event ignores the old AOI; delete gives null; a polygon gives its AOI |
| DrawControl.LastSetterWins | web/src/components/map/controls/DrawControl.tsx:15-28 | after any event sequence the cell is what the last setting event produced, or the initial value if none set it |
| DrawControl.UpdatesAsCreates | web/src/components/map/controls/DrawControl.tsx:38-39 | turning every update event into a create event changes no outcome |
| DrawControl.HandlersAreSetCalls | web/src/components/map/controls/DrawControl.tsx:15-28 | handling any events leaves the cell the store's fold gives for the `setAOI` calls the handlers make (null per delete, the polygon per drawn polygon), so the last such call decides it |
| DrawControl.DrawnShape | web/src/components/map/controls/DrawControl.tsx:19-23 | any AOI the events put in the cell has properties and no id |
| Selection.Tag | web/src/lib/collectAndPostSelection.ts:31-34 | a hit keeps geometry and id; it gains `_layerId` and `_mode`; every other property is the feature's own (none when its properties were null) |
| Selection.HitsAppend | web/src/lib/collectAndPostSelection.ts:25-36 | candidates are judged independently, so the hits of a split candidate list are the concatenated hits |
| Selection.ThrowingCandidateDropped | web/src/lib/collectAndPostSelection.ts:25-37 | a candidate whose predicate throws is skipped and the loop goes on with the rest |
| Selection.HitsFacts | web/src/lib/collectAndPostSelection.ts:25-36 | the hits are the tagged candidates in candidate order with some left out; a feature is a hit exactly when it is a kept candidate, tagged |
| Selection.DefaultPickIntersects | web/src/lib/collectAndPostSelection.ts:22-34 | a pick without a mode keeps exactly the candidates `booleanIntersects(f, aoi)` returns true for, each tagged `_mode: "intersects"` |
| Selection.ContainsPickContains | web/src/lib/collectAndPostSelection.ts:22-34 | a `contains` pick keeps exactly the candidates `booleanContains(aoi, f)` returns true for, each tagged `_mode: "contains"` |
| Selection.HitsTagged | web/src/lib/collectAndPostSelection.ts:31-34 | every hit carries its layer id and mode name |
| Selection.PerLayerKeys | web/src/lib/collectAndPostSelection.ts:22-38 | every requested layer has a key, even with zero hits, placed at its first request |
| Selection.PerLayerKeySet | web/src/lib/collectAndPostSelection.ts:38 | the table's keys are exactly the requested layer ids |
| Selection.PerLayerValues | web/src/lib/collectAndPostSelection.ts:38 | a layer requested more than once holds the hits of its last request |
| Selection.PerLayerTagged | web/src/lib/collectAndPostSelection.ts:31-38 | each layer's collection holds only features tagged with that layer's id |
| Selection.FlattenLength | web/src/lib/collectAndPostSelection.ts:41 | the flat list is as long as all collections together |
| Selection.FlattenMembers | web/src/lib/collectAndPostSelection.ts:41 | the flat list holds exactly the features of the collections |
| Selection.BundleFeaturesTagged | web/src/lib/collectAndPostSelection.ts:41-46 | every feature of the bundle lies in, and is tagged with, one of the bundle's layers |
| Selection.BundleSize | web/src/lib/collectAndPostSelection.ts:41-46 | the bundle's flat list is as long as the sum of the per-layer collections |
| Selection.CollectSelection | web/src/lib/collectAndPostSelection.ts:20-48 | the nested loops build the per-layer table of the specification; the payload is a `SelectionBundle` with `selection == aoi`, `layers == perLayer`, the flattened features and CRS `EPSG:4326` |
| Text.SplitJoin | web/src/components/map/layers/PstaFireRisk.tsx:20-28 | splitting a `&`-joined list of separator-free parameters gives the list back |
| Text.ParseIntToString | web/src/components/map/layers/PstaFireRisk.tsx:32 | an integer printed by a template literal reads back as itself |
| Uri.EncodeURIComponent | web/src/components/map/layers/PstaFireRisk.tsx:49 | the encoded text holds only A–Z a–z 0–9 `- _ . ! ~ * ' ( )` and `%`, so no `&`, `=`, `?`, `#`, space or comma |
| Uri.DecodeEncode | web/src/components/map/layers/PstaFireRisk.tsx:49 | decoding undoes `encodeURIComponent`: UTF-8 bytes, upper-case hex, one escape per byte |
| Wkt.ToWkt4326 | web/src/components/map/layers/PstaFireRisk.tsx:31-42 | the WKT always starts with `SRID=4326;` |
| Wkt.FmtAsNest | web/src/components/map/layers/PstaFireRisk.tsx:32 | a ring is `x y` pairs joined by `,` in order; only the first two coordinates are written |
| Wkt.RingsAsNest | web/src/components/map/layers/PstaFireRisk.tsx:34 | a polygon's rings are each wrapped in parentheses and comma-joined |
| Wkt.PolygonsAsNest | web/src/components/map/layers/PstaFireRisk.tsx:37-39 | a multipolygon wraps each polygon's ring list in one more pair of parentheses |
| Wkt.ItemRoundTrip | web/src/components/map/layers/PstaFireRisk.tsx:32-39 | the nested parenthesised text is balanced; the reader reads back exactly what was written |
| Wkt.WktRoundTrip | web/src/components/map/layers/PstaFireRisk.tsx:31-42 | reading the WKT back gives the same Polygon or MultiPolygon, with the same rings in order, minus coordinates beyond the second |
| Wkt.WktDeterminesGeometry | web/src/components/map/layers/PstaFireRisk.tsx:31-42 | two geometries with the same WKT agree on every ring and every first two coordinates |
| PstaFireRisk.BuildTilesUrl | web/src/components/map/layers/PstaFireRisk.tsx:45-50 | the tiles URL begins with `PSTA_WMS_BASE(tileSize)` |
| PstaFireRisk.QueryOfParams | web/src/components/map/layers/PstaFireRisk.tsx:20-28 | parameters without `&` (and without `=` in the name) written after `?` read back as themselves, in order |
| PstaFireRisk.BaseParamsClean | web/src/components/map/layers/PstaFireRisk.tsx:21-28 | no base parameter contains `&` and no name contains `=`, so each is one query parameter |
| PstaFireRisk.BaseSize | web/src/components/map/layers/PstaFireRisk.tsx:28 | the base URL's `width` and `height` are both the tile size |
| PstaFireRisk.TilesQuery | web/src/components/map/layers/PstaFireRisk.tsx:49 | the tiles URL's query is the base parameters followed by one `CQL_FILTER` holding the encoded CQL |
| PstaFireRisk.TilesUrlParams | web/src/components/map/layers/PstaFireRisk.tsx:46-49 | the tiles URL keeps the tile size; `CQL_FILTER` decodes to `INTERSECTS(SHAPE, wkt)`, so it was encoded once; the WKT reads back as the AOI |
| PstaFireRisk.Layer.constructor | web/src/components/map/layers/PstaFireRisk.tsx:60 | `tilesUrl` starts null |
| PstaFireRisk.Layer.Refresh | web/src/components/map/layers/PstaFireRisk.tsx:62-67 | there is a URL exactly when visible, with an AOI, and the area in km² is at most the maximum (equal still passes); it is then the AOI's tiles URL at the prop tile size; the state left is `EffectUrl` of the props, AOI and area |
| PstaFireRisk.TilesStartWithBase | web/src/components/map/layers/PstaFireRisk.tsx:49-74 | whichever URL is used, it begins with the base request for the tile size |
| PstaFireRisk.ShownAfterRefresh | web/src/components/map/layers/PstaFireRisk.tsx:62-82 | after the effect the layer is visible exactly when visible, with an AOI within the area limit |
| AoiPanel.PanelAreaDecidesFireRisk | web/src/components/map/panels/AOIPanel.tsx:13-24 | the km² the panel shows is the quantity the fire-risk layer's effect compares with its maximum: `EffectUrl` (what `Layer.Refresh` leaves in `tilesUrl`) is a URL exactly when the layer is visible and the panel shows an area of at most that maximum, and it is then the tiles URL of the panel's AOI |
| AoiPanel.Copied | web/src/components/map/panels/AOIPanel.tsx:26-28 | Copy writes nothing without an AOI or without a clipboard API, otherwise exactly the text the panel shows |
| AoiPanel.MatchesAppend | web/src/components/map/panels/AOIPanel.tsx:45-52 | candidates are judged independently, so split candidates give concatenated matches |
| AoiPanel.MatchesFacts | web/src/components/map/panels/AOIPanel.tsx:45-52 | preview hits are untouched candidates in candidate order, exactly those whose predicate returned true; throws are dropped |
| AoiPanel.HitsAreTaggedMatches | web/src/components/map/panels/AOIPanel.tsx:47-50 | the preview uses the upload's rule and argument order: the upload's hits are the preview's hits, tagged |
| AoiPanel.PreviewOfKeys | web/src/components/map/panels/AOIPanel.tsx:41-53 | the preview's keys are the selected layers' ids at first occurrence, in visiting order |
| AoiPanel.PreviewOfEntries | web/src/components/map/panels/AOIPanel.tsx:41-53 | with distinct ids, each selected layer's entry is its own preview, and no other key exists |
| AoiPanel.PreviewKeys | web/src/components/map/panels/AOIPanel.tsx:40-54 | with a map and an AOI, the preview's keys are `selectedLayerIds()`, zero-hit layers included |
| AoiPanel.PreviewMembers | web/src/components/map/panels/AOIPanel.tsx:41-53 | with a map and an AOI, exactly the selected layers have an entry; unselected layers never appear |
| AoiPanel.PreviewEntries | web/src/components/map/panels/AOIPanel.tsx:43-53 | each entry holds its layer's matches under the layer's own mode |
| AoiPanel.PreviewAgreesWithUpload | web/src/components/map/panels/AOIPanel.tsx:41-53 | given the same rendered candidates for the layer, a selected layer's upload sends exactly the preview's features, tagged |
| AoiPanel.Panel.constructor | web/src/components/map/panels/AOIPanel.tsx:31 | the preview starts as `{}` |
| AoiPanel.Panel.RefreshPreview | web/src/components/map/panels/AOIPanel.tsx:33-56 | the loops leave `preview` equal to the specification; with no map or no AOI it is `{}` |

## Left out

- turf (`booleanContains`, `booleanIntersects`, `area`, `bbox`, `buffer`) is a geodesic floating-point library. Its predicates, area and bbox are parameters, and a predicate may return true or false or throw.
- `map.project` and `map.queryRenderedFeatures` belong to the map engine. The candidates of a layer are a parameter function of the layer id. This makes the screen box unnecessary, so it is not modelled. The same function serves every call, so the model fixes the candidates across calls, as if the camera and the loaded tiles did not change between the preview and an upload.
- The `fetch` POST of the bundle, its error path, and the server proxy in `web/app/api/route.ts` are network I/O and are not modelled. `CollectSelection` returns the payload it would post.
- `Date.now()` is the `now` parameter of `CollectSelection`.
- `JSON.stringify`, the clipboard write itself and `toFixed` formatting in the panel are UI. `stringify` is a parameter. Only what Copy would write, and the placeholder rule, are modelled.
- Coordinates are integers. JavaScript numbers are doubles, and how they print is not modelled. An integer of magnitude below 10^21 prints as its decimal digits with a leading `-` when negative, and that is what `Text.IntToString` models. Larger magnitudes print in exponent form (`1e+21`) in JavaScript; the model does not cover them.
- The tile size is an integer, the area and the maximum are reals, and NaN areas are not modelled.
- Layer ids are assumed not to be names of `Object.prototype` properties (such as `"toString"`) or `"__proto__"`. In JavaScript, `next[id] ?? …` and `s.layers[id]` find the inherited property, and assigning `"__proto__"` changes the prototype instead of adding a key. `JsObject.Record` treats every string as an ordinary own key.
- Object keys are assumed not to be array-index strings such as `"1"`. JavaScript lists those keys first, in numeric order. `JsObject.Record` always uses insertion order.
- Selection.Tag: the tagged feature's properties are a map, so the model does not state where `_layerId` and `_mode` come in the key order of the serialised JSON.
- Uri.EncodeURIComponent: Dafny characters are Unicode scalar values. The URIError that JavaScript raises for a lone surrogate cannot arise, so it is not modelled.
- The layer metadata field `label` is called `title` (`label` is a reserved word in Dafny). The source types `label` as optional, but registration always sets it, so `title` is a plain string.
- `PSTA_WMS_BASE` is written as a list of `name=value` parameters joined by `&` after the endpoint and `?`. This is the same text as the source's concatenated literal.
- The component props `opacity`, `beforeId` and `attribution`, and the ids of the source and layer, only reach rendering and are not modelled. Neither is the rest of React rendering.
- `DrawAOI.tsx`, `AOIPreview.tsx` and `geo.ts` are turf or Mapbox glue, and `FireRisk.tsx` and `CwfisFireRisk.tsx` hold constant URL templates. `MapShell.tsx`, `MapRoot.tsx`, `page.tsx` and `layout.tsx` are rendering. None of these files is part of this model.
- The draw tool (`MapboxDraw`) and its controls are not modelled. Its events are the values of `DrawControl.DrawEvent`.
- Registering an id that is already present leaves its entry wholly unchanged; it does not refresh the label. There is no operation that removes a layer. Polygon selection has no point-in-polygon case: every layer uses its `contains` or `intersects` predicate.
