# Mission planner editing model

This project models the core of a React/OpenLayers mission planner. An operator draws a route of waypoints on a map, inserts polygons before or after any row of the route, stores the result as a mission, and shows a stored mission on the map again.

The model covers four pieces of logic:

- **The editing state and its handlers** (`src/map/index.js`). The class `MapWrapper.Editor` holds `drawingMode`, `coordinates`, `polygonCoordinates`, `insertPosition`, the two modal flags, `missions` and `activeMission`. Each handler is a method that assigns these fields.
- **Polygon insertion.** `MissionSequence.Splice` is the `slice`/spread update of `handleImportPoints`. JavaScript's `slice` clamping and negative indices are modelled exactly.
- **The waypoint table** (`src/map/components/MissionModal.js`). `MissionModal.RowAt` and `MissionModal.Rows` derive each row. The `ActionMenu` class models the per-row menu toggle.
- **The map features** (`src/map/components/Map.js`). This covers how drawing updates are dispatched, how the vertices of a finished route are labelled, and how the feature buffer is rebuilt when a stored mission is shown. The buffer is the class `Features.FeatureSource`, a sequence the methods clear and append to.

The mission is a sequence of `Slot = Pt(at) | Poly(ring)`. The source tells them apart with `Array.isArray(item[0])`, so an entry counts as a polygon only if its ring has a first vertex (`Geometry.IsPolygonSlot`). The editor's invariant `Editor.Valid()` says two things. First, every stored polygon has a vertex, so this test agrees with the tag. Second, the mission on display is one of the stored missions.

Coordinates are opaque `Point(lon, lat)` values. The great-circle distance is a parameter `dist: (Point, Point) -> real`. An empty ring read as a point would give NaN; the model represents that as `None`. Labels are decimal strings: `Labels.Decimal` is `toString`, `Labels.Value` reads digits back, and `Labels.PadStart` is `padStart`. Labels are the entry's sequence index + 1, not a count of waypoints. That is how the code numbers them.

Some behaviours of the code that a reader might not expect, and that the model keeps:

- **Index outside the sequence.** The code does not reject an out-of-range index. It passes the index to `slice`, which clamps it, and a negative index counts from the end. `SpliceAtEnd` and `SpliceRoundTrip` state what then happens.
- **Generate with an empty mission.** `handleGenerateData` does not reject an empty mission. Only the Generate button is disabled when the mission is empty (`GenerateDisabled`).
- **Starting a route.** `handleDrawClick` does not clear `coordinates`. The first route update replaces it wholesale.
- **Waypoint labels.** Labels count sequence positions, not waypoints, so a polygon takes up a number.
- **Zero distance.** A distance of exactly 0 is shown as `--`, because the code checks whether the distance is truthy.
- **Polygon names.** A polygon's name number is `floor(index / 2) + 1`, as written. `AdjacentPolygonsShareName` shows that two polygons in adjacent rows can get the same name.

## Model

| member | source | states |
|---|---|---|
| `Geometry.RouteSlots` | src/map/index.js:40-43 | a drawn route becomes one waypoint entry per vertex, in order, none of them read as a polygon |
| `Geometry.Present` | src/map/components/Map.js:26 | the filter keeps exactly the present entries of the outline (a point is kept iff it occurs in the ring) and never lengthens it |
| `Geometry.PresentAppend` | src/map/components/Map.js:26 | the filter works piece by piece and keeps order: filtering `a + b` gives the filtered `a` followed by the filtered `b` |
| `Geometry.PresentKeepsOrder` | src/map/components/Map.js:26 | two present entries i < j of the outline appear in the filtered ring in that order |
| `Geometry.PresentOfComplete` | src/map/components/Map.js:26 | filtering an outline without holes returns it unchanged |
| `Geometry.PresentLength` | src/map/components/Map.js:26 | the filtered outline is shorter by exactly the number of falsy entries |
| `Geometry.WellFormedClassification` | src/map/components/MissionModal.js:106 | in a sequence whose polygons all have a vertex, an entry is read as a polygon iff it is one |
| `Labels.Decimal` | src/map/components/Map.js:199 | `toString` of a non-negative integer gives at least one digit and no leading zero |
| `Labels.ValueOfDecimal` | src/map/components/Map.js:199 | reading the decimal text of n back gives n |
| `Labels.DecimalInjective` | src/map/components/Map.js:199 | different numbers have different texts |
| `Labels.PadStart` | src/map/components/MissionModal.js:109 | `padStart` fills on the left up to the width, keeps the original text as suffix, never shortens |
| `Labels.ValueLeadingZero` | src/map/components/MissionModal.js:109 | one leading '0' does not change the number a digit string denotes |
| `Labels.ValueLeadingZeros` | src/map/components/MissionModal.js:109 | any number of leading '0's do not change the number |
| `Labels.MarkerLabel` | src/map/components/Map.js:145 | the marker label `${index + 1}` is a digit string denoting index + 1, non-empty and never starting with '0' |
| `Labels.MarkerAndRowNumber` | src/map/components/MissionModal.js:125 | for the first nine entries the WP cell is the marker label with a '0' in front, so the two differ; from the tenth entry on they are the same text |
| `Labels.RowNumber` | src/map/components/MissionModal.js:125 | the WP cell has at least two digits and denotes index + 1; below 10 it is '0' followed by the digit |
| `Labels.LabelsDistinct` | src/map/components/MissionModal.js:109 | different rows never show the same number, and different markers never show the same label |
| `MissionSequence.SliceIndex` | src/map/index.js:68-76 | where `slice` cuts: in range the index itself, clamped to the length above, counted from the end when negative |
| `MissionSequence.InsertedAt` | src/map/index.js:66-77 | the slot the polygon lands on lies within the sequence or just past its end |
| `MissionSequence.InsertAt` | src/map/index.js:67-71 | placing an entry at j grows the sequence by one, keeps the entries before j, shifts the rest by one, and adds exactly that entry to the multiset |
| `MissionSequence.Splice` | src/map/index.js:65-80 | 'before' at an in-range index i puts the polygon at i, keeps `prev[..i]` and shifts the rest; 'after' puts it at i+1 and keeps `prev[..i+1]`; any other position leaves the sequence unchanged |
| `MissionSequence.SpliceRoundTrip` | src/map/index.js:65-80 | for any index, clamped or negative, removing the inserted slot gives back the old sequence |
| `MissionSequence.SpliceAtEnd` | src/map/index.js:68-76 | an index at or past the end appends the polygon |
| `MissionSequence.SpliceWellFormed` | src/map/index.js:60-80 | importing a ring with a vertex keeps every polygon entry readable as a polygon |
| `Features.FeatureSource.constructor` | src/map/components/Map.js:20 | the buffer starts empty |
| `Features.FeatureSource.Clear` | src/map/components/Map.js:176 | clearing leaves no features |
| `Features.FeatureSource.AddFeature` | src/map/components/Map.js:146 | adding appends exactly one feature at the end |
| `MapWrapper.Editor.constructor` | src/map/index.js:11-20 | initial state: no drawing mode, empty mission and ring, both modals hidden, position `{-1, ''}`, no missions, nothing shown, no clear function |
| `MapWrapper.Editor.ConnectMap` | src/map/index.js:117 | the map's clear function is registered; nothing else changes |
| `MapWrapper.Editor.DrawClick` | src/map/index.js:22-28 | mode becomes 'LineString' and the mission modal is shown; `coordinates` is NOT cleared; the map's features are cleared once registered |
| `MapWrapper.Editor.CloseModal` | src/map/index.js:30-33 | hides the mission modal and leaves drawing mode; the mission is unchanged |
| `MapWrapper.Editor.ClosePolygonModal` | src/map/index.js:35-38 | Discard hides the polygon modal and shows the mission modal; neither `coordinates` nor `drawingMode` changes |
| `MapWrapper.Editor.DrawComplete` | src/map/index.js:40-43 | a route update replaces `coordinates` wholesale; nothing else changes |
| `MapWrapper.Editor.FinishDrawing` | src/map/index.js:45-47 | only the drawing mode is reset |
| `MapWrapper.Editor.PolygonComplete` | src/map/index.js:48-51 | a ring update replaces `polygonCoordinates` wholesale; the mission is unchanged |
| `MapWrapper.Editor.InsertPolygon` | src/map/index.js:53-58 | mode becomes 'Polygon', the mission modal is hidden, the polygon modal is shown, and `{index, position}` is recorded; the mission is unchanged |
| `MapWrapper.Editor.ImportPoints` | src/map/index.js:60-81 | ends with no drawing mode, the polygon modal hidden and the mission modal shown; `coordinates` becomes the splice of the old one at the recorded position |
| `MapWrapper.Editor.GenerateData` | src/map/index.js:83-90 | appends the current mission as the newest mission and keeps the earlier ones; empties `coordinates`; hides the mission modal; clears the map once registered |
| `MapWrapper.Editor.ShowMission` | src/map/index.js:92-94 | `activeMission` becomes `missions[index]` (undefined outside the list); `missions` is unchanged |
| `MapWrapper.StoreSpliced` | src/map/index.js:83-86 | worked example, not the general handler: a three-entry route with a polygon spliced after its first entry, stored into an empty list, is stored as exactly [first, polygon, second, third] |
| `MissionModal.RowAt` | src/map/components/MissionModal.js:105-136 | a row is a polygon row iff the entry's first element is an array; a polygon row shows `--` and the name `floor(index/2)+1`; the number is exactly the padded `RowNumber(index)`, denoting index+1 with at least two digits; a distance is shown iff a previous entry exists, both entries are points and the distance is non-zero, so the first row and a row after a polygon always show `--` |
| `MissionModal.Rows` | src/map/components/MissionModal.js:105 | one row per entry, in order, and no two rows with the same number |
| `MissionModal.RowBeforeInsertion` | src/map/index.js:67-71 | rows above an insertion point render exactly as before |
| `MissionModal.RowAfterInsertion` | src/map/components/MissionModal.js:118-121 | rows below the inserted entry's successor show the distance they showed before, one place down |
| `MissionModal.RowsAfterImport` | src/map/components/MissionModal.js:118-121 | after an import: rows above are unchanged; the polygon row shows `--`; the row just below loses its distance; later rows keep their distances, and later point rows keep their coordinates, one place down |
| `MissionModal.AdjacentPolygonsShareName` | src/map/components/MissionModal.js:110 | polygons in rows 2q and 2q+1 are both named "Polygon q+1" |
| `MissionModal.PolygonRowsOfWellFormed` | src/map/components/MissionModal.js:106-111 | in a mission whose polygons all have a vertex (the editor's invariant), a row is a polygon row iff its entry is a polygon, and such a row shows '--' |
| `MissionModal.GenerateDisabled` | src/map/components/MissionModal.js:146 | Generate Data is disabled iff the table has no rows, i.e. the mission is empty |
| `MissionModal.ActionMenu.constructor` | src/map/components/MissionModal.js:7-8 | no menu is open initially |
| `MissionModal.ActionMenu.ButtonClick` | src/map/components/MissionModal.js:33-41 | clicking the open row's button closes the menu; clicking any other row's button opens that row's menu; no other row's menu is open afterwards |
| `MissionModal.ActionMenu.Close` | src/map/components/MissionModal.js:42-45 | no menu is left open |
| `MissionModal.ActionMenu.ChooseItem` | src/map/components/MissionModal.js:60-72 | a menu item asks the editor for a polygon with the row's own index and 'before' or 'after', then closes the menu; the editor's mission, ring, stored missions, shown mission and clear target are unchanged |
| `MapView.CoordinateUpdate` | src/map/components/Map.js:22-28 | in 'LineString' mode the coordinates are forwarded unchanged; in 'Polygon' mode only the outline is forwarded, filtered by `Present` (falsy entries removed, order kept); in any other mode nothing is forwarded |
| `MapView.HandleCoordinateUpdate` | src/map/components/Map.js:22-28 | a forwarded route replaces the mission, a forwarded outline replaces the ring; mode, modal flags, insert position, stored and shown missions and the clear target are unchanged |
| `MapView.RouteMarkers` | src/map/components/Map.js:143-147 | one marker per route vertex |
| `MapView.RouteMarkersLabelled` | src/map/components/Map.js:143-147 | the marker of vertex i sits on that vertex and reads i+1 without leading zero, and no other marker has that label |
| `MapView.DrawEnd` | src/map/components/Map.js:134-148 | the final coordinates are forwarded (a route leaves the ring alone, a ring leaves the mission alone), drawing mode is left, and for a line exactly the labelled vertex markers are appended in order; for a polygon nothing is appended; modal flags, insert position, stored and shown missions and the clear target are unchanged |
| `MapView.DisplayMission` | src/map/components/Map.js:174-211 | showing a mission first clears the buffer, so afterwards it holds exactly that mission's features |
| `MapView.SlotFeaturesForm` | src/map/components/Map.js:177-211 | one entry yields one or two features: its marker (point) or area (polygon) first, then at most one line, which never starts at a polygon |
| `MapView.SlotFeatureCounts` | src/map/components/Map.js:177-211 | one entry yields one marker if it is a point, one area if it is a polygon, and one line per adjacent (point, point) or (point, polygon) pair it starts or ends |
| `MapView.FeatureCountsUpTo` | src/map/components/Map.js:177-211 | after the first n entries the buffer holds one marker per point, one area per polygon, and one line per adjacent pair of those kinds |
| `MapView.MissionFeatureCounts` | src/map/components/Map.js:177-211 | the number of lines equals the adjacent (point, point) pairs plus the adjacent (point, polygon) pairs; every entry yields exactly one marker or area |
| `MapView.MarkerOrigin` | src/map/components/Map.js:196-200 | every marker belongs to a point entry and carries that entry's position + 1 |
| `MapView.MarkerInSlot` | src/map/components/Map.js:196-200 | only entry i itself yields the marker of point entry i |
| `MapView.MarkerOncePerPoint` | src/map/components/Map.js:196-200 | the marker of point entry i occurs once among the features of the first n entries if i < n, else not at all |
| `MapView.MissionMarkers` | src/map/components/Map.js:177-200 | each point entry at index i yields exactly one marker labelled i+1, and there are no other markers |
| `MapView.AreaOrigin` | src/map/components/Map.js:178-183 | every area among the first n entries' features is the ring of a polygon entry before n |
| `MapView.MissionAreas` | src/map/components/Map.js:177-183 | every area drawn for a shown mission is the ring of one of its polygon entries, and every polygon entry's ring is drawn |
| `MapView.ShownMissionAreas` | src/map/index.js:92-94 | the mission the editor shows is one of its stored missions, so its polygons all have a vertex: each `Poly` entry is drawn as its area, and every area drawn is such an entry's ring |
| `MapView.LineOrigin` | src/map/components/Map.js:186-209 | every line joins some entry j, which is a point, to entry j+1 (to the point itself, or to a polygon's first vertex) |
| `MapView.MissionLines` | src/map/components/Map.js:186-209 | a line joins j and j+1 iff j is a point: to the next point, or to the polygon's first vertex; no line ever starts at a polygon |

## Left out

- Distance and coordinate formatting: the haversine `calculateDistance`, `formatCoordinate` and `toFixed` are floating-point arithmetic and text formatting. Distance is the parameter `dist`, a point row shows the raw entry, and the distance cell keeps the raw number.
- OpenLayers: the map, view, tile layer, `Draw` interaction, projection (`fromLonLat`/`toLonLat`), extent and `fit`. This is a foreign library. One consequence: the markers added on draw end sit at projected coordinates in the source, while the model uses a single coordinate space.
- The drawn geometry itself, which the `Draw` interaction adds to the buffer on its own, and the removal of the interaction after a polygon. Both are done by the library.
- The style function (colours, midpoint markers, rotation). It is rendering with floating-point arithmetic.
- Event plumbing: the Enter key listener, `useEffect` registration and cleanup, `console.log`, and when React re-runs the effect that shows a mission. React's batched state updates are modelled as immediate assignments in handler order.
- The `showMissions` side-panel toggle, JSX layout and MUI components. They are presentation only.
- `PolygonModal.js`, `MissionList.js` and `DrawButton.js`. They are views. PolygonModal's only rule that matters here is that Import is offered only for a non-empty ring, which `Editor.ImportPoints` assumes.
- MapView.CoordinateUpdate: for a polygon the source calls `toLonLat` on each whole ring (src/map/components/Map.js:129, 138), not on each vertex. The model treats the outline as an opaque sequence of vertices, any of which may be falsy, and does not capture what that call returns.
- MapView.CoordinateUpdate: assumes the geometry matches the drawing mode, because the `Draw` interaction is created with `type: drawingMode`. The model does not say what happens with a mismatched geometry.
- MapWrapper.Editor.ImportPoints: requires a non-empty ring. The polygon modal disables Import for an empty one.
- MissionSequence.Position: the source stores `position` as a string. Only 'before', 'after' and the initial '' ever occur, so the model has three values.
- MissionModal.ActionMenu: `anchorEl` is a DOM element. The model records it as the index of the row whose button was clicked.
