/**
  The OSM layer as an event-driven state machine. A map update runs
  `_updateTiles`: `_addTiles` (the create loop over the resolved viewport
  range, then the attach pass) followed by `_removeTiles`. The two
  asynchronous completions, an image's `onload` handler and a scheduled
  eviction callback, are separate atomic events that may arrive in any
  order. The viewport's tile indices and the zoom are event inputs.
 */
module OsmLayer {
  import opened TileGeometry
  import opened TileKeys
  import opened Viewport
  import opened LayerState
  import opened Lifecycle
  import opened LifecycleInvariants
  import opened Eviction
  import opened EvictionInvariants

  /** `_updateTiles` over a resolved range: create or reshow its tiles,
      attach the new ones, then sweep on a zoom change. */
  function UpdateWith(s: Layer, zoom: nat, rg: TileRange): (r: Layer)
    requires WellFormed(s) && InGrid(rg, zoom)
    ensures WellFormed(r)
    ensures r.pendingNew == [] && r.previousZoom == Some(zoom)
  {
    Sweep(Attach(CreateOrReshow(s, zoom, rg), zoom), zoom)
  }

  /** `_updateTiles` with the viewport range resolved with the corrected
      row swap. */
  function UpdateCycle(s: Layer, zoom: nat, raw: TileRange): (r: Layer)
    requires WellFormed(s)
    ensures WellFormed(r)
    ensures r.pendingNew == [] && r.previousZoom == Some(zoom)
  {
    UpdateWith(s, zoom, ResolveRange(raw, zoom))
  }

  /** `_updateTiles` with the viewport range resolved as line 336 is written. */
  function UpdateCycleAsWritten(s: Layer, zoom: nat, raw: TileRange): (r: Layer)
    requires WellFormed(s)
    ensures WellFormed(r)
    ensures r.pendingNew == [] && r.previousZoom == Some(zoom)
  {
    UpdateWith(s, zoom, ResolveRangeAsWritten(raw, zoom))
  }

  /** A scheduled callback fires: the batch over the shared inactive queue,
      then the layer's own `_update`, which runs `_updateTiles` again. */
  function TimerFires(s: Layer, zoom: nat, raw: TileRange): (r: Layer)
    requires WellFormed(s) && s.timers > 0
    ensures WellFormed(r)
  {
    UpdateCycle(EvictionBatch(s.(timers := s.timers - 1)), zoom, raw)
  }

  datatype Event =
    | ViewChanged(zoom: nat, raw: TileRange)
    | ImageLoaded(id: TileId)
    | TimerFired(zoom: nat, raw: TileRange)

  /** An image can only finish loading once its handler is bound, and a
      callback can only fire once scheduled. */
  predicate Enabled(s: Layer, ev: Event)
  {
    match ev
    case ViewChanged(_, _) => true
    case ImageLoaded(id) => id in s.onload
    case TimerFired(_, _) => s.timers > 0
  }

  function Step(s: Layer, ev: Event): (r: Layer)
    requires WellFormed(s)
    ensures WellFormed(r)
    ensures !Enabled(s, ev) ==> r == s
  {
    if !Enabled(s, ev) then s
    else match ev
      case ViewChanged(zoom, raw) => UpdateCycle(s, zoom, raw)
      case ImageLoaded(id) => Onload(s, id)
      case TimerFired(zoom, raw) => TimerFires(s, zoom, raw)
  }

  function Run(s: Layer, es: seq<Event>): (r: Layer)
    requires WellFormed(s)
    ensures WellFormed(r)
    decreases |es|
  {
    if es == [] then s else Run(Step(s, es[0]), es[1..])
  }

  /** Every tile that is still loading has its `onload` handler bound. */
  ghost predicate HandlersBound(s: Layer)
  {
    forall id :: id in s.tiles && s.tiles[id].loading ==> id in s.onload
  }

  /** The invariant of every state between two events. */
  ghost predicate Inv(s: Layer)
  {
    Valid(s) && HandlersBound(s)
  }

  /** The attach pass binds every tile the create loop made. */
  lemma CreateAttachBinds(s: Layer, zoom: nat, rg: TileRange)
    requires Valid(s) && HandlersBound(s) && InGrid(rg, zoom)
    ensures var m := Attach(CreateOrReshow(s, zoom, rg), zoom);
      && HandlersBound(m)
      && (forall id :: id in m.tiles ==> id in s.tiles || id in m.onload)
  {
    var m1 := CreateOrReshow(s, zoom, rg);
    var m2 := Attach(m1, zoom);
    CreateOrReshowCreatesAt(s, zoom, rg);
    AttachEffect(m1, zoom);
    forall id | id in m2.tiles && (id !in s.tiles || m2.tiles[id].loading)
      ensures id in m2.onload
    {
      assert m2.tiles[id].loading == m1.tiles[id].loading;
      if id !in s.tiles {
        assert AttachedBy(m1, m1.pendingNew, zoom, id);
      } else {
        assert id in s.onload;
      }
    }
  }

  /** An update over any range inside the grid keeps the invariant. */
  lemma UpdateWithKeepsInv(s: Layer, zoom: nat, rg: TileRange)
    requires Inv(s) && InGrid(rg, zoom)
    ensures Inv(UpdateWith(s, zoom, rg))
  {
    var m1 := CreateOrReshow(s, zoom, rg);
    var m2 := Attach(m1, zoom);
    CreateOrReshowKeepsCore(s, zoom, rg);
    AttachRestoresValid(m1, zoom);
    SweepKeepsCore(m2, zoom);
    SweepKeepsTiles(m2, zoom);
    CreateAttachBinds(s, zoom, rg);
  }

  lemma UpdateKeepsInv(s: Layer, zoom: nat, raw: TileRange)
    requires Inv(s)
    ensures Inv(UpdateCycle(s, zoom, raw))
  {
    UpdateWithKeepsInv(s, zoom, ResolveRange(raw, zoom));
  }

  /** The invariant does not rest on the corrected row swap: an update with
      the range as line 336 computes it keeps it too. */
  lemma UpdateAsWrittenKeepsInv(s: Layer, zoom: nat, raw: TileRange)
    requires Inv(s)
    ensures Inv(UpdateCycleAsWritten(s, zoom, raw))
  {
    UpdateWithKeepsInv(s, zoom, ResolveRangeAsWritten(raw, zoom));
  }

  lemma TimerKeepsInv(s: Layer, zoom: nat, raw: TileRange)
    requires Inv(s) && s.timers > 0
    ensures Inv(TimerFires(s, zoom, raw))
  {
    var s0 := s.(timers := s.timers - 1);
    assert Core(s0);
    BatchKeepsCore(s0);
    BatchKeepsTiles(s0);
    UpdateKeepsInv(EvictionBatch(s0), zoom, raw);
  }

  lemma OnloadKeepsInv(s: Layer, id: TileId)
    requires Inv(s) && id in s.onload
    ensures Inv(Onload(s, id))
  {
    OnloadKeepsValid(s, id);
  }

  lemma StepKeepsInv(s: Layer, ev: Event)
    requires Inv(s)
    ensures Inv(Step(s, ev))
  {
    if Enabled(s, ev) {
      match ev
      case ViewChanged(zoom, raw) => UpdateKeepsInv(s, zoom, raw);
      case ImageLoaded(id) => OnloadKeepsInv(s, id);
      case TimerFired(zoom, raw) => TimerKeepsInv(s, zoom, raw);
    }
  }

  lemma {:induction false} RunKeepsInv(s: Layer, es: seq<Event>)
    requires Inv(s)
    ensures Inv(Run(s, es))
    decreases |es|
  {
    if es != [] {
      StepKeepsInv(s, es[0]);
      RunKeepsInv(Step(s, es[0]), es[1..]);
    }
  }

  /** Every state reachable from a fresh layer satisfies the invariant. */
  lemma ReachableInv(es: seq<Event>)
    ensures Inv(Run(Init(), es))
  {
    InitValid();
    RunKeepsInv(Init(), es);
  }

  /** Anti-flicker: in every reachable state a tile in the visible bin has
      its image loaded. */
  lemma AntiFlicker(es: seq<Event>, id: TileId)
    ensures var r := Run(Init(), es);
      id in r.tiles && r.tiles[id].bin == Assigned(VisibleBin) ==> r.tiles[id].loaded
  {
    ReachableInv(es);
  }

  /** In every reachable state the cached-tile counter is the number of
      non-null store slots. */
  lemma CounterMatchesStore(es: seq<Event>)
    ensures var r := Run(Init(), es); r.cachedTiles == |LiveKeys(r.store)|
  {
    ReachableInv(es);
  }

  /** The zoom test of the attach pass never strands a tile: in every
      reachable state a loading tile's handler is bound, so its image can
      still complete. */
  lemma NoStalledTiles(es: seq<Event>, id: TileId)
    ensures var r := Run(Init(), es);
      id in r.tiles && r.tiles[id].loading ==> id in r.onload
  {
    ReachableInv(es);
  }

  /** After an update every tile of the resolved range is live, with the
      row stored under its flipped index, the update creates nothing else,
      and it never evicts or replaces a tile. */
  lemma UpdateCovers(s: Layer, zoom: nat, raw: TileRange)
    requires WellFormed(s)
    ensures var rg := ResolveRange(raw, zoom);
      var r := UpdateCycle(s, zoom, raw);
      && (forall i: nat, j: nat :: Covers(rg, i, j) ==>
            0 <= StorageRow(zoom, j) <= MaxIndex(zoom) &&
            HasTile(r, Key(zoom, i, StorageRow(zoom, j))))
      && (forall k :: HasTile(r, k) <==> HasTile(s, k) || Required(rg, zoom, k))
      && (forall k :: HasTile(s, k) ==> r.store[k] == s.store[k])
  {
    var rg := ResolveRange(raw, zoom);
    var r := UpdateCycle(s, zoom, raw);
    var m1 := CreateOrReshow(s, zoom, rg);
    assert r.store == m1.store;
    forall i: nat, j: nat | Covers(rg, i, j)
      ensures HasTile(r, Key(zoom, i, StorageRow(zoom, j)))
    {
      var k := Key(zoom, i, StorageRow(zoom, j));
      assert StorageRow(zoom, k.y) == j;
      assert Required(rg, zoom, k);
    }
  }

  /** At zoom 2 the corrected range of the corners (0, 0) and (3, 3)
      requires every key of the 4 x 4 grid. */
  lemma WholeGridRequired()
    ensures forall x: nat, y: nat :: x <= 3 && y <= 3 ==>
      Required(ResolveRange(TileRange(0, 0, 3, 3), 2), 2, Key(2, x, y))
  {
    var rg := ResolveRange(TileRange(0, 0, 3, 3), 2);
    AsWrittenMissesTiles();
    assert MaxIndex(2) == 3;
    forall x: nat, y: nat | x <= 3 && y <= 3
      ensures Required(rg, 2, Key(2, x, y))
    {
      assert StorageRow(2, y) == 3 - y;
    }
  }

  /** At zoom 2, corners given as tile indices (0, 0) and (3, 3) make the
      whole 4 x 4 grid live. */
  lemma WholeWorldAtZoom2(s: Layer)
    requires WellFormed(s)
    ensures var r := UpdateCycle(s, 2, TileRange(0, 0, 3, 3));
      forall x: nat, y: nat :: x <= 3 && y <= 3 ==> HasTile(r, Key(2, x, y))
  {
    WholeGridRequired();
    UpdateCovers(s, 2, TileRange(0, 0, 3, 3));
  }

  /** Because the sweep also walks the zoom level just entered, an update
      that changes the zoom queues the tiles it has just reshown there: a
      loaded tile of the new zoom that is in view and was neither REMOVED nor
      REMOVING ends the cycle REMOVING and HIDING, and queued for the next
      callback. */
  lemma UpdateQueuesCurrentZoom(s: Layer, zoom: nat, raw: TileRange, k: Key)
    requires Valid(s) && s.previousZoom.Some? && s.previousZoom != Some(zoom)
    requires Required(ResolveRange(raw, zoom), zoom, k) && HasTile(s, k)
    requires var t := s.tiles[s.store[k].id]; t.loaded && !t.removed && !t.removing
    ensures var r := UpdateCycle(s, zoom, raw);
      var id := s.store[k].id;
      && Live(r, id)
      && r.tiles[id].removing && r.tiles[id].hiding
      && r.tiles[id].bin == Assigned(VisibleBin)
      && id in r.pendingInactive
  {
    var rg := ResolveRange(raw, zoom);
    var id := s.store[k].id;
    var m1 := CreateOrReshow(s, zoom, rg);
    var m2 := Attach(m1, zoom);
    CreateOrReshowCreatesAt(s, zoom, rg);
    CreateOrReshowReshows(s, zoom, rg, id);
    AttachEffect(m1, zoom);
    assert !AttachedBy(m1, m1.pendingNew, zoom, id);
    assert m2.tiles[id] == m1.tiles[id];
    assert Live(m2, id);
    SweepEffect(m2, zoom);
  }

  /** A zoom-changing update queues every live, loaded tile that is neither
      REMOVED nor REMOVING, whether or not it is in view. */
  lemma UpdateQueuesLoaded(s: Layer, zoom: nat, raw: TileRange, id: TileId)
    requires Valid(s) && s.previousZoom.Some? && s.previousZoom != Some(zoom)
    requires Live(s, id) && QueuedBySweep(s.tiles[id])
    ensures var r := UpdateCycle(s, zoom, raw);
      && Live(r, id) && id in r.pendingInactive
      && r.tiles[id].removing && r.tiles[id].hiding
  {
    var rg := ResolveRange(raw, zoom);
    var m1 := CreateOrReshow(s, zoom, rg);
    var m2 := Attach(m1, zoom);
    CreateOrReshowCreatesAt(s, zoom, rg);
    CreateOrReshowReshows(s, zoom, rg, id);
    AttachEffect(m1, zoom);
    assert !AttachedBy(m1, m1.pendingNew, zoom, id);
    assert m2.tiles[id] == m1.tiles[id];
    assert Live(m2, id);
    SweepEffect(m2, zoom);
  }

  /** A firing callback empties the shared queue, but the update it then
      runs refills it when that update changes the zoom: a live, loaded tile
      that was not queued and is neither REMOVED nor REMOVING is queued
      afterwards. */
  lemma TimerRequeues(s: Layer, zoom: nat, raw: TileRange, id: TileId)
    requires Inv(s) && s.timers > 0 && s.previousZoom.Some? && s.previousZoom != Some(zoom)
    requires Live(s, id) && id !in s.pendingInactive && QueuedBySweep(s.tiles[id])
    ensures id in TimerFires(s, zoom, raw).pendingInactive
  {
    var s0 := s.(timers := s.timers - 1);
    assert Core(s0);
    var b := EvictionBatch(s0);
    BatchKeepsCore(s0);
    BatchFrame(s0);
    var k := s.tiles[id].key;
    assert b.tiles[id] == s.tiles[id];
    assert b.store[k] == s.store[k];
    assert Live(b, id);
    UpdateQueuesLoaded(b, zoom, raw, id);
  }
}
