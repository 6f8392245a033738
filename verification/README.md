# OSM layer tile cache, modelled in Dafny

This project models the tile cache and tile lifecycle of `geo.osmLayer`, the
OpenStreetMap base layer of GeoJS (`src/core/osmLayer.js`), and proves
properties of that model.

The layer keeps a store of map tiles keyed by (zoom, x, y). A slot of the
store is absent, null (the tile was evicted), or holds a tile object. Each
tile has seven independent lifecycle flags (LOADING, LOADED, UNLOAD, REMOVED,
REMOVING, HIDING, HIDDEN), may have a feature, and has a draw bin (hidden
bin 0, visible bin 1000). The layer also keeps a queue of new tiles, a queue
of inactive tiles, a cached-tile counter with a cap of 100, and the zoom seen
by the previous sweep.

Each map update runs `_updateTiles`, which does three things in order:

- the create-or-reshow loop over the viewport's tile range: a missing tile
  is created, and a loaded tile is put in the visible bin;
- the attach pass, which binds each new tile's image `onload` handler and
  gives it a feature;
- on a zoom change, a sweep that marks tiles and queues them as inactive,
  then schedules a callback.

The callback evicts queued tiles while the counter is over the cap and
hides the rest. It then runs the layer's `_update` again. Image loads and
callbacks are asynchronous. The model treats them as atomic events that can
arrive in any order.

Structure:

- `tile_geometry.dfy` (`TileGeometry`): tiles per axis, the largest index, and
  a tile's bounding box in exact `real` arithmetic.
- `viewport.dfy` (`Viewport`): the world-coordinate clamp, the index clamp,
  the two swaps (as written and corrected), and the flipped storage row.
- `tile_keys.dfy` (`TileKeys`): store keys, and the order in which a
  `for ... in` walk visits them.
- `layer_state.dfy` (`LayerState`): the layer record and its invariants.
  JavaScript object identity is modelled by a heap of tiles addressed by
  `TileId`. The store holds ids, and so do the queues and the bound
  handlers.
- `lifecycle.dfy` (`Lifecycle`, `LifecycleInvariants`): `_hasTile`,
  `_addTile`, the create loop, the attach pass and the `onload` handler.
- `eviction.dfy` (`Eviction`, `EvictionInvariants`): the zoom sweep and the
  callback body.
- `osm_layer.dfy` (`OsmLayer`): the update cycle, the events, runs of events,
  and the properties of every reachable state.

Where the code and the written description of the layer disagree, the model
follows the code, with one exception, the row swap at line 336:

- The y correction at line 336 writes `tile2y` into `tile1x`. Afterwards the
  rows are still ordered (`tile2y <= tile1y` holds, `AsWrittenCollapsesRows`).
  What breaks is the range itself: it shrinks to the single row `tile1y`, and
  its first column becomes the old `tile2y`. `ResolveRangeAsWritten` models
  the line as written, but `UpdateCycle` uses the corrected swap (see
  Findings). The invariants do not depend on the correction: both cycles are
  `UpdateWith` over a range inside the grid, and `UpdateWithKeepsInv` covers
  every such range (`UpdateAsWrittenKeepsInv`).
- Line 219 compares the numeric previous zoom with a `for ... in` property
  name, so the skip never fires. The sweep walks every zoom level,
  including the one just entered (`UpdateQueuesCurrentZoom`).
- Line 372 reads HIDDEN from the loop variable `tile`. When the handler runs,
  that variable holds the last tile of the attach pass's queue. The model
  records, for each bound handler, the tile it will read.
- The callback reads the shared inactive queue when it fires. The batch of
  the first of several pending callbacks drains it. A second batch with no
  sweep in between finds it empty (`BatchDrainsShared`). But each callback
  ends with `m_this._update()` (line 275), and when that update sweeps at a
  new zoom it refills the queue (`TimerRequeues`).
- The zoom test at line 362 reads the same zoom as the create loop, within
  the same synchronous call. So within an update cycle it never skips a tile,
  and every loading tile in a reachable state has its handler bound
  (`NoStalledTiles`). `Attach` still models the test for an arbitrary zoom:
  a queued tile of another zoom is left loading with no handler.

## Model

| member | source | states |
|---|---|---|
| TileGeometry.TilesPerAxis | src/core/osmLayer.js:153-154 | the tiles per axis are at least one: exactly one for a zoom at or below zero, otherwise 2^zoom |
| TileGeometry.MaxIndex | src/core/osmLayer.js:316-324 | the largest tile index is non-negative and one less than 2^zoom |
| TileGeometry.DegreesPerTile | src/core/osmLayer.js:153-158 | a tile's width in degrees is positive, and the tiles of one axis together span exactly 360 degrees |
| TileGeometry.TileBoundsSquare | src/core/osmLayer.js:153-162 | every tile is a square of side 360 / max(1, 2^zoom), with west < east and south < north; a tile shares its east edge with the next tile's west edge and its north edge with the next row's south edge |
| TileGeometry.ScaledIndexInWorld | src/core/osmLayer.js:159-162 | any factor between 0 and the tiles per axis (2^zoom) times the tile width lies in [0, 360] |
| TileGeometry.TileBoundsInWorld | src/core/osmLayer.js:153-162 | for indices in the grid all four corners lie in [-180, 180], the first column starts at -180, and the last column ends at 180 |
| Viewport.ClampDegrees | src/core/osmLayer.js:298-306 | a coordinate is clamped to [-180, 180]: kept when inside, -180 below, 180 above |
| Viewport.ClampWorld | src/core/osmLayer.js:298-306 | both components of a corner are clamped independently; a corner already inside the world is unchanged |
| Viewport.ClampIndex | src/core/osmLayer.js:316-324 | a tile index is clamped into [0, 2^zoom - 1]: kept when inside, 0 below, the largest index above |
| Viewport.ClampRange | src/core/osmLayer.js:316-324 | after clamping all four indices lie in the grid, and a range already in the grid is unchanged |
| Viewport.OrderColumns | src/core/osmLayer.js:329-333 | after the x swap the columns run from the smaller to the larger index; the rows are untouched |
| Viewport.OrderRowsAsWritten | src/core/osmLayer.js:334-338 | the y branch as written always leaves the rows ordered and keeps tile1y and tile2x; when it fires, the row range collapses to the single row tile1y and the first column becomes the old tile2y; otherwise the range is unchanged |
| Viewport.OrderRows | src/core/osmLayer.js:334-338 | the corrected y swap: the rows run from the smaller to the larger index, and the columns are untouched |
| Viewport.ResolveRangeAsWritten | src/core/osmLayer.js:316-338 | the indices as the source resolves them all lie in the grid, and tile2y <= tile1y |
| Viewport.ResolveRange | src/core/osmLayer.js:316-338 | the corrected range lies in the grid, is ascending in both axes, and spans from the smaller to the larger clamped index in each axis |
| Viewport.StorageRow | src/core/osmLayer.js:342 | the storage row of a grid row j is 2^zoom - 1 - j, and it lies in the grid when j does |
| Viewport.ResolveRangeCoversCorners | src/core/osmLayer.js:329-341 | the corrected range covers a column and row exactly when they lie between the two clamped corners, whatever order the corners come in |
| Viewport.AsWrittenCollapsesRows | src/core/osmLayer.js:334-341 | when the y branch fires, the range as written covers only the row tile1y, and its first column is the old tile2y |
| Viewport.AsWrittenMissesTiles | src/core/osmLayer.js:334-341 | at zoom 2, with corners (0, 0) and (3, 3), the range as written is column 3 of row 0 only; the corrected range is the whole grid |
| TileKeys.MinimumExists | src/core/osmLayer.js:216-230 | every non-empty set of keys has a least key in (zoom, x, y) order |
| TileKeys.MinKey | src/core/osmLayer.js:216-230 | the first key of the walk is in the set and no other key precedes it |
| TileKeys.SortedKeys | src/core/osmLayer.js:216-230 | the for-in walk over the nested store visits each key exactly once, in strictly ascending (zoom, x, y) order |
| LayerState.Init | src/core/osmLayer.js:39-46 | a new layer has an empty store, counter 0, cap 100 and no previous zoom |
| LayerState.InitValid | src/core/osmLayer.js:39-46 | a new layer satisfies every invariant |
| LayerState.LiveKeysFill | src/core/osmLayer.js:188-191 | filling an absent or null slot adds exactly one non-null slot |
| LayerState.LiveKeysClear | src/core/osmLayer.js:259-266 | nulling a slot that held a tile removes exactly one non-null slot |
| Lifecycle.AddTile | src/core/osmLayer.js:141-193 | on a slot holding a tile nothing changes; otherwise exactly one new tile is stored under the key, appended to the new-tile queue and counted. It has the key's bounding box, LOADING true, the other flags false, no feature and no bin |
| Lifecycle.Reshow | src/core/osmLayer.js:345-352 | an existing tile gets the visible bin if it has loaded and is left alone if not; nothing else changes |
| Lifecycle.Visit | src/core/osmLayer.js:342-353 | one iteration of the create loop leaves the key's slot holding a tile, changes no other slot, and does not touch the store when the slot already held a tile |
| Lifecycle.VisitRow | src/core/osmLayer.js:341-354 | after the inner loop exactly the previous tiles and the keys of the row range hold tiles; tiles already present keep their slot; other slots are unchanged |
| Lifecycle.VisitColumns | src/core/osmLayer.js:340-355 | after the outer loop exactly the previous tiles and the keys of the rectangle hold tiles; tiles already present keep their slot; other slots are unchanged |
| Lifecycle.CreateOrReshow | src/core/osmLayer.js:340-355 | after the create loop a key holds a tile exactly when it did before or the range requires it; existing tiles are never replaced, and keys outside the range are untouched |
| Lifecycle.AttachOne | src/core/osmLayer.js:358-387 | a queued tile of another zoom is skipped; a tile of the current zoom gets a feature and a handler that reads the hoisted tile |
| Lifecycle.AttachAll | src/core/osmLayer.js:358-388 | the attach loop changes only tiles and handlers and creates no tile |
| Lifecycle.AttachAllTiles | src/core/osmLayer.js:358-388 | exactly the queued tiles of the current zoom get a feature; every other tile is unchanged |
| Lifecycle.AttachAllHandlers | src/core/osmLayer.js:358-388 | exactly the queued tiles of the current zoom get a handler, each reading the hoisted tile; other handlers are kept |
| Lifecycle.Attach | src/core/osmLayer.js:358-389 | the attach pass always empties the new-tile queue, touches only tile objects and handlers, and keeps every reference valid |
| Lifecycle.AttachEffect | src/core/osmLayer.js:358-389 | the attach pass gives exactly the queued tiles of the current zoom a feature and a handler bound to the last queued tile, and keeps every other tile and handler |
| Lifecycle.Onload | src/core/osmLayer.js:366-380 | the handler sets LOADED, clears LOADING, UNLOAD, REMOVING and REMOVED, and then assigns a bin: hidden exactly when (the hoisted tile is HIDDEN or this tile is HIDING) and the tile has a feature, in which case HIDING is cleared; otherwise visible. The handler is consumed |
| LifecycleInvariants.ReshowKeepsCore | src/core/osmLayer.js:345-352 | reshowing keeps the invariants; the visible bin goes only to a loaded tile |
| LifecycleInvariants.AddTileKeepsCore | src/core/osmLayer.js:141-193 | creating a tile keeps the invariants, including the counter matching the number of non-null slots |
| LifecycleInvariants.VisitKeepsCore | src/core/osmLayer.js:342-353 | one create-loop iteration keeps the invariants |
| LifecycleInvariants.VisitRowKeepsCore | src/core/osmLayer.js:341-354 | the inner loop keeps the invariants |
| LifecycleInvariants.VisitColumnsKeepsCore | src/core/osmLayer.js:340-355 | the outer loop keeps the invariants |
| LifecycleInvariants.CreateOrReshowKeepsCore | src/core/osmLayer.js:340-355 | the create loop keeps the invariants, and every key it makes live lies in the grid of its zoom |
| LifecycleInvariants.AttachRestoresValid | src/core/osmLayer.js:358-389 | after the attach pass the new-tile queue is empty and every invariant holds |
| LifecycleInvariants.OnloadKeepsValid | src/core/osmLayer.js:366-380 | the tile whose handler fires is not in the inactive queue, and the handler keeps the invariants |
| LifecycleInvariants.VisitCreatesAt | src/core/osmLayer.js:342-344 | one iteration leaves the new-tile queue as it was or appends exactly the one tile it creates, at the loop's zoom, and keeps the key and LOADING flag of existing tiles |
| LifecycleInvariants.VisitRowCreatesAt | src/core/osmLayer.js:341-354 | the inner loop queues every tile it creates, all at its zoom, and keeps existing tiles' keys and LOADING flags |
| LifecycleInvariants.VisitColumnsCreatesAt | src/core/osmLayer.js:340-355 | the outer loop queues every tile it creates, all at its zoom, and keeps existing tiles' keys and LOADING flags |
| LifecycleInvariants.CreateOrReshowCreatesAt | src/core/osmLayer.js:340-355 | the create loop queues every tile it creates, all at its zoom, and keeps existing tiles' keys and LOADING flags |
| LifecycleInvariants.VisitReshows | src/core/osmLayer.js:343-352 | one iteration puts the live tile of its key in the visible bin if that tile has loaded, and leaves every other live tile alone |
| LifecycleInvariants.VisitRowReshows | src/core/osmLayer.js:341-354 | over a row range, a live tile is put in the visible bin exactly when its key is in the range and it has loaded; otherwise it is unchanged |
| LifecycleInvariants.VisitColumnsReshows | src/core/osmLayer.js:340-355 | over the rectangle, a live tile is put in the visible bin exactly when its key is in it and it has loaded; otherwise it is unchanged |
| LifecycleInvariants.CreateOrReshowReshows | src/core/osmLayer.js:340-355 | anti-flicker in the create loop: a live tile of the range gets the visible bin exactly when it has loaded, and stays live |
| Eviction.SweepQueue | src/core/osmLayer.js:225-246 | every tile the walk queues is live, loaded, and neither REMOVED nor REMOVING |
| Eviction.SweepQueueMembers | src/core/osmLayer.js:225-246 | a tile is queued exactly when it is live, qualifies, and its key is among the walked keys |
| Eviction.SweepQueueAscending | src/core/osmLayer.js:216-246 | the walk queues tiles in strictly ascending key order |
| Eviction.AscendingQueueDistinct | src/core/osmLayer.js:216-246 | a queue in ascending key order queues no tile twice |
| Eviction.SweepAll | src/core/osmLayer.js:216-248 | the sweep queues exactly the live, loaded tiles that are neither REMOVED nor REMOVING, each once, in key order |
| Eviction.Sweep | src/core/osmLayer.js:200-251 | on the first call, or with the zoom unchanged, only the zoom is recorded; otherwise the new zoom is recorded, tiles are swept, the new entries go to the end of the queue, and one more callback is scheduled |
| Eviction.EvictOrHide | src/core/osmLayer.js:256-272 | one callback iteration changes only that tile, the store and the counter, and never fills a slot |
| Eviction.Drain | src/core/osmLayer.js:255-273 | the callback loop changes only tiles, the store and the counter, and creates no tile |
| Eviction.DrainFrame | src/core/osmLayer.js:255-273 | the loop keeps every tile's key, leaves tiles outside the queue alone, and never fills a slot |
| Eviction.Evictions | src/core/osmLayer.js:257-267 | over the cap the callback evicts min(queue length, counter - cap) tiles, and none otherwise |
| Eviction.DrainCounter | src/core/osmLayer.js:257-267 | the counter drops by exactly the number of evictions and keeps counting the non-null slots |
| Eviction.DrainTiles | src/core/osmLayer.js:255-273 | the first Evictions tiles of the queue are evicted in queue order, and the rest are hidden or kept |
| Eviction.DrainStore | src/core/osmLayer.js:255-273 | the store afterwards is the old store with exactly the evicted tiles' slots nulled |
| Eviction.DrainSlots | src/core/osmLayer.js:255-273 | evicted tiles' slots become null; the other queued tiles keep their slots; every other slot is unchanged |
| Eviction.EvictionBatch | src/core/osmLayer.js:254-277 | the callback body keeps references intact and always leaves the inactive queue empty |
| Eviction.DrainWellFormed | src/core/osmLayer.js:255-274 | the callback loop keeps every reference valid |
| EvictionInvariants.SweepTileSane | src/core/osmLayer.js:233-246 | the sweep changes only UNLOAD, REMOVING and HIDING, so it keeps a tile's flag discipline |
| EvictionInvariants.SweepTileSettles | src/core/osmLayer.js:233-246 | sweeping a tile twice is sweeping it once, and a swept tile no longer qualifies for the queue |
| EvictionInvariants.SweepEffect | src/core/osmLayer.js:200-251 | on a zoom change: a tile not yet loaded gets UNLOAD and is not queued; a REMOVED or REMOVING tile is left alone; any other loaded tile gets REMOVING and HIDING and is queued once, in key order, at the end of the queue; null slots are skipped; store and counter are unchanged |
| EvictionInvariants.SweepKeepsLive | src/core/osmLayer.js:216-248 | the sweep neither fills nor empties a slot |
| EvictionInvariants.SweepKeepsTiles | src/core/osmLayer.js:216-248 | the sweep keeps every tile's flag discipline, LOADING flag and feature |
| EvictionInvariants.SweepKeepsOldQueue | src/core/osmLayer.js:216-248 | a zoom-changing sweep leaves the tiles already queued live and unchanged |
| EvictionInvariants.SweepMarksNewQueue | src/core/osmLayer.js:235-248 | every tile a zoom-changing sweep queues stays live, was loaded and not REMOVING, and is now REMOVING and HIDING |
| EvictionInvariants.SweepQueuesDistinct | src/core/osmLayer.js:216-248 | appending the walk's tiles to the queue creates no duplicate, because the tiles already queued are REMOVING and the new ones were not |
| EvictionInvariants.SweepKeepsQueue | src/core/osmLayer.js:216-248 | after the sweep the inactive queue still holds distinct live tiles, each loaded, REMOVING and HIDING |
| EvictionInvariants.SweepKeepsCore | src/core/osmLayer.js:200-251 | the sweep keeps every invariant |
| EvictionInvariants.SweepSettles | src/core/osmLayer.js:203-248 | after a zoom-changing sweep, a sweep at the same zoom does nothing; a sweep at another zoom queues and marks nothing, and only records the zoom and schedules a callback |
| EvictionInvariants.BatchTile | src/core/osmLayer.js:256-272 | eviction and hiding keep a tile's flag discipline, its LOADING flag and its feature |
| EvictionInvariants.BatchKeepsTiles | src/core/osmLayer.js:254-277 | after the callback every tile keeps its flag discipline, LOADING flag and feature |
| EvictionInvariants.BatchKeepsCore | src/core/osmLayer.js:254-277 | the callback keeps every invariant, including the counter matching the number of non-null slots |
| EvictionInvariants.BatchCount | src/core/osmLayer.js:256-267 | the callback evicts min(queue length, counter - cap) tiles over the cap and none otherwise; the counter drops by that much and ends within the cap unless the whole queue was evicted |
| EvictionInvariants.BatchEvicts | src/core/osmLayer.js:257-265 | each evicted tile loses its slot, gets REMOVED, and has REMOVING and HIDING cleared |
| EvictionInvariants.BatchHides | src/core/osmLayer.js:266-272 | each remaining queued tile keeps its slot and gets HIDDEN, loses REMOVING and gets the hidden bin, with HIDING still set |
| EvictionInvariants.BatchFrame | src/core/osmLayer.js:254-277 | the callback creates or removes no key, and changes no tile or slot outside the queue |
| EvictionInvariants.BatchOutcome | src/core/osmLayer.js:254-277 | the callback's full effect: the eviction count, the evicted prefix, the hidden rest, the empty queue and the unchanged remainder |
| EvictionInvariants.BatchDrainsShared | src/core/osmLayer.js:254-275 | a second callback before the next sweep finds the shared queue empty and changes nothing |
| OsmLayer.UpdateWith | src/core/osmLayer.js:397-408 | an update over any range inside the grid leaves references valid, the new-tile queue empty, and the zoom recorded |
| OsmLayer.UpdateCycle | src/core/osmLayer.js:397-408 | an update with the corrected row swap leaves references valid, the new-tile queue empty, and the zoom recorded |
| OsmLayer.UpdateCycleAsWritten | src/core/osmLayer.js:316-338 | an update with the row swap as written leaves references valid, the new-tile queue empty, and the zoom recorded |
| OsmLayer.TimerFires | src/core/osmLayer.js:254-277 | a firing callback runs the batch and then an update, and leaves references valid |
| OsmLayer.Step | src/core/osmLayer.js:253-277 | an event that cannot happen yet (an unbound handler, no pending callback) changes nothing |
| OsmLayer.CreateAttachBinds | src/core/osmLayer.js:340-389 | after the create loop and the attach pass, every loading tile has its handler bound, and every new tile has one |
| OsmLayer.UpdateWithKeepsInv | src/core/osmLayer.js:397-408 | an update over any range inside the grid keeps every invariant between events |
| OsmLayer.UpdateKeepsInv | src/core/osmLayer.js:397-408 | an update keeps every invariant between events |
| OsmLayer.UpdateAsWrittenKeepsInv | src/core/osmLayer.js:316-338 | an update whose range is resolved as line 336 is written keeps every invariant too |
| OsmLayer.TimerKeepsInv | src/core/osmLayer.js:254-277 | a firing callback keeps every invariant between events |
| OsmLayer.OnloadKeepsInv | src/core/osmLayer.js:366-380 | an image load keeps every invariant between events |
| OsmLayer.StepKeepsInv | src/core/osmLayer.js:253-277 | any event keeps every invariant between events |
| OsmLayer.RunKeepsInv | src/core/osmLayer.js:253-277 | any sequence of events keeps every invariant between events |
| OsmLayer.ReachableInv | src/core/osmLayer.js:39-46 | every state reachable from a new layer satisfies the invariants |
| OsmLayer.AntiFlicker | src/core/osmLayer.js:346-352 | in every reachable state a tile in the visible bin has loaded |
| OsmLayer.CounterMatchesStore | src/core/osmLayer.js:188-191 | in every reachable state the counter equals the number of non-null slots |
| OsmLayer.NoStalledTiles | src/core/osmLayer.js:358-364 | in every reachable state a loading tile has its handler bound |
| OsmLayer.UpdateCovers | src/core/osmLayer.js:340-355 | after an update every column and grid row of the resolved range has a live tile under its flipped storage row; no other key becomes live, and no existing tile is evicted or replaced |
| OsmLayer.WholeGridRequired | src/core/osmLayer.js:316-343 | at zoom 2 the corrected range of the corners (0, 0) and (3, 3) requires every key of the 4 x 4 grid, each row stored under its flipped index |
| OsmLayer.WholeWorldAtZoom2 | src/core/osmLayer.js:316-355 | at zoom 2, with corners (0, 0) and (3, 3), an update makes all 16 tiles of the grid live |
| OsmLayer.UpdateQueuesLoaded | src/core/osmLayer.js:216-248 | on a zoom change, every live, loaded tile that is neither REMOVED nor REMOVING ends the update REMOVING, HIDING and queued as inactive, in view or not |
| OsmLayer.TimerRequeues | src/core/osmLayer.js:254-277 | a firing callback's batch empties the queue, but when its trailing update changes the zoom, every live, loaded, unqueued tile that is neither REMOVED nor REMOVING is queued again |
| OsmLayer.UpdateQueuesCurrentZoom | src/core/osmLayer.js:216-248 | on a zoom change, a loaded in-view tile of the new zoom that was neither REMOVED nor REMOVING ends the update in the visible bin, REMOVING and HIDING, and queued as inactive |

## Left out

- `toLocal` and `fromLocal` are not modelled. They depend on mercator and renderer transforms outside this file and on floating point.
- `displayToWorld`, `long2tilex` and `lat2tiley` are external floating-point transforms. The corners' tile indices enter the model as integers, in `TileRange`.
- `ClampWorld` clamps the corners, but the clamped corners are not turned into indices, because that conversion is not modelled.
- Image fetching is not modelled: `crossOrigin`, the URL built from the key, and the browser's image decoding. An image load is the `ImageLoaded` event.
- `planeFeature` creation and styling are reduced to the `hasFeature` flag. `feature._update`, `_draw` and `updateTime().modified()` are rendering bookkeeping with no effect on the tile cache.
- `_delete` of an evicted tile's feature is not modelled, so `hasFeature` stays set on an evicted tile. The renderer side of deletion is outside this file.
- The base-class `_update`, `_init` and `gcs` are not modelled: they are framework plumbing.
- The callback's 1000 ms delay and the event loop are not modelled. Pending callbacks are a counter, and any interleaving of events is allowed.
- The map-type constants are not modelled: they are unused.
- The clustering test is not modelled: it exercises `geo.util.ClusterGroup`, which is not part of this model.
- Floating point is not modelled: the corner arithmetic of lines 153-162 and the clamps of lines 298-306 are JavaScript doubles, and the model uses exact `real`s. 360 / 2^zoom and its integer multiples are exact binary fractions at realistic zooms, so rounding never arises there.
- Keys are non-negative integers. The clamp keeps negative indices out of the store, and zoom levels are natural numbers.
- Onload: in the source, a handler firing on a tile without a feature would fail calling `bin` on a missing feature. The model assigns the bin anyway. In reachable states every bound tile has a feature.
- `_hasTile` returns the tile object, which callers only test for truth. `HasTile` returns that truth value.
- `m_tiles` is always an object and its per-zoom entries are never null, so the `!m_tiles` and `!m_tiles[zoom]` guards of the sweep never fire. They are not modelled.
- UpdateCycle: uses the corrected y swap, not the swap as written at line 336 (see Findings).

## Findings

| source | as written | input that shows it | evidently intended | confidence | as-written member | corrected member |
|---|---|---|---|---|---|---|
| src/core/osmLayer.js:336 | when the rows arrive inverted, `tile1x = tile2y` stores the old tile2y in tile1x instead of tile1y | zoom 2, clamped corners tile1 = (0, 0) and tile2 = (3, 3): the loop covers column 3 of row 0 only, 1 tile instead of 16 | `tile1y = tile2y`, swapping the row pair so the range spans both corners | not executed | Viewport.ResolveRangeAsWritten, Viewport.AsWrittenMissesTiles | Viewport.ResolveRange, Viewport.ResolveRangeCoversCorners |
