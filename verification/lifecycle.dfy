/**
  Tile creation and loading: `_addTile`, the create-or-reshow loop of
  `_addTiles`, the attach pass that binds the image `onload` handler and
  creates the tile's feature, and the handler itself as an event.
 */
module Lifecycle {
  import opened TileGeometry
  import opened TileKeys
  import opened Viewport
  import opened LayerState

  /** The tile object `_addTile` constructs for key k. */
  function NewTile(k: Key): Tile
  {
    Tile(k, TileBounds(k.zoom, k.x, k.y),
         loading := true, loaded := false, unload := false, removed := false,
         removing := false, hiding := false, hidden := false,
         hasFeature := false, bin := Unassigned)
  }

  /** `_addTile(request, zoom, x, y)`. A slot holding a tile is left alone;
      an absent or null slot receives one new loading tile, which is also
      appended to the new-tile queue and counted. */
  function AddTile(s: Layer, k: Key): (r: Layer)
    requires WellFormed(s)
    ensures WellFormed(r)
    ensures HasTile(r, k)
    ensures HasTile(s, k) ==> r == s
    ensures !HasTile(s, k) ==>
      && s.nextId !in s.tiles
      && s.nextId in r.tiles
      && r.store == s.store[k := Holds(s.nextId)]
      && r.tiles == s.tiles[s.nextId := r.tiles[s.nextId]]
      && r.pendingNew == s.pendingNew + [s.nextId]
      && r.cachedTiles == s.cachedTiles + 1
      && r.nextId == s.nextId + 1
      && r == s.(tiles := r.tiles, store := r.store, pendingNew := r.pendingNew,
                 cachedTiles := r.cachedTiles, nextId := r.nextId)
    ensures !HasTile(s, k) ==> (
      && s.nextId in r.tiles
      && r.tiles[s.nextId].key == k
      && r.tiles[s.nextId].bounds == TileBounds(k.zoom, k.x, k.y)
      && r.tiles[s.nextId].loading && !r.tiles[s.nextId].loaded
      && !r.tiles[s.nextId].unload && !r.tiles[s.nextId].removed
      && !r.tiles[s.nextId].removing && !r.tiles[s.nextId].hiding
      && !r.tiles[s.nextId].hidden && !r.tiles[s.nextId].hasFeature
      && r.tiles[s.nextId].bin == Unassigned)
  {
    if HasTile(s, k) then s
    else
      var id := s.nextId;
      s.(tiles := s.tiles[id := NewTile(k)],
         store := s.store[k := Holds(id)],
         pendingNew := s.pendingNew + [id],
         cachedTiles := s.cachedTiles + 1,
         nextId := id + 1)
  }

  /** The else branch of the create loop: an existing tile is put in the
      visible bin, but only once it has loaded. */
  function Reshow(s: Layer, k: Key): (r: Layer)
    requires WellFormed(s) && HasTile(s, k)
    ensures WellFormed(r)
    ensures r == s.(tiles := r.tiles)
    ensures var id := s.store[k].id;
      && r.tiles == s.tiles[id := r.tiles[id]]
      && r.tiles[id] == s.tiles[id].(bin := r.tiles[id].bin)
      && (s.tiles[id].loaded ==> r.tiles[id].bin == Assigned(VisibleBin))
      && (!s.tiles[id].loaded ==> r.tiles[id] == s.tiles[id])
  {
    var id := s.store[k].id;
    if s.tiles[id].loaded then
      s.(tiles := s.tiles[id := s.tiles[id].(bin := Assigned(VisibleBin))])
    else s
  }

  /** One iteration of the create loop: `_hasTile`, then create or reshow. */
  function Visit(s: Layer, k: Key): (r: Layer)
    requires WellFormed(s)
    ensures WellFormed(r)
    ensures HasTile(r, k)
    ensures r.store == s.store[k := r.store[k]]
    ensures HasTile(s, k) ==> r.store == s.store
    ensures r == s.(tiles := r.tiles, store := r.store, pendingNew := r.pendingNew,
                    cachedTiles := r.cachedTiles, nextId := r.nextId)
  {
    if HasTile(s, k) then Reshow(s, k) else AddTile(s, k)
  }

  /** Key k lies in column i at a storage row `2^zoom - 1 - j` with j in [lo, hi]. */
  predicate InRow(k: Key, zoom: nat, i: int, lo: int, hi: int)
  {
    k.zoom == zoom && k.x == i && lo <= StorageRow(zoom, k.y) <= hi
  }

  /** The inner loop: `for (j = lo; j <= hi; ++j)` over column i. */
  function VisitRow(s: Layer, zoom: nat, i: nat, lo: nat, hi: int): (r: Layer)
    requires WellFormed(s)
    requires hi <= MaxIndex(zoom)
    ensures WellFormed(r)
    ensures forall k :: HasTile(r, k) <==> HasTile(s, k) || InRow(k, zoom, i, lo, hi)
    ensures forall k :: HasTile(s, k) ==> k in r.store && r.store[k] == s.store[k]
    ensures forall k :: !InRow(k, zoom, i, lo, hi) ==>
      (k in r.store <==> k in s.store) && (k in s.store ==> r.store[k] == s.store[k])
    ensures r == s.(tiles := r.tiles, store := r.store, pendingNew := r.pendingNew,
                    cachedTiles := r.cachedTiles, nextId := r.nextId)
    decreases hi - lo + 1
  {
    if lo > hi then s
    else VisitRow(Visit(s, Key(zoom, i, StorageRow(zoom, lo))), zoom, i, lo + 1, hi)
  }

  /** Key k is visited by the nested loop over columns [lo, hi] and grid rows
      [rg.y2, rg.y1]. */
  predicate InColumns(k: Key, zoom: nat, lo: int, hi: int, rowLo: int, rowHi: int)
  {
    k.zoom == zoom && lo <= k.x <= hi && rowLo <= StorageRow(zoom, k.y) <= rowHi
  }

  /** The outer loop: `for (i = lo; i <= hi; ++i)`. */
  function VisitColumns(s: Layer, zoom: nat, lo: nat, hi: int, rowLo: nat, rowHi: int): (r: Layer)
    requires WellFormed(s)
    requires rowHi <= MaxIndex(zoom)
    ensures WellFormed(r)
    ensures forall k :: HasTile(r, k) <==> HasTile(s, k) || InColumns(k, zoom, lo, hi, rowLo, rowHi)
    ensures forall k :: HasTile(s, k) ==> k in r.store && r.store[k] == s.store[k]
    ensures forall k :: !InColumns(k, zoom, lo, hi, rowLo, rowHi) ==>
      (k in r.store <==> k in s.store) && (k in s.store ==> r.store[k] == s.store[k])
    ensures r == s.(tiles := r.tiles, store := r.store, pendingNew := r.pendingNew,
                    cachedTiles := r.cachedTiles, nextId := r.nextId)
    decreases hi - lo + 1
  {
    if lo > hi then s
    else VisitColumns(VisitRow(s, zoom, lo, rowLo, rowHi), zoom, lo + 1, hi, rowLo, rowHi)
  }

  /** Key k is one the viewport range requires. */
  predicate Required(rg: TileRange, zoom: nat, k: Key)
  {
    k.zoom == zoom && Covers(rg, k.x, StorageRow(zoom, k.y))
  }

  /** Lines 340-355: every tile of the range is created or reshown. */
  function CreateOrReshow(s: Layer, zoom: nat, rg: TileRange): (r: Layer)
    requires WellFormed(s) && InGrid(rg, zoom)
    ensures WellFormed(r)
    ensures forall k :: HasTile(r, k) <==> HasTile(s, k) || Required(rg, zoom, k)
    ensures forall k :: HasTile(s, k) ==> k in r.store && r.store[k] == s.store[k]
    ensures forall k :: !Required(rg, zoom, k) ==>
      (k in r.store <==> k in s.store) && (k in s.store ==> r.store[k] == s.store[k])
    ensures r == s.(tiles := r.tiles, store := r.store, pendingNew := r.pendingNew,
                    cachedTiles := r.cachedTiles, nextId := r.nextId)
  {
    VisitColumns(s, zoom, rg.x1, rg.x2, rg.y2, rg.y1)
  }

  /** Whether the attach pass binds tile `id` out of queue q. */
  ghost predicate AttachedBy(s: Layer, q: seq<TileId>, zoom: nat, id: TileId)
  {
    id in q && id in s.tiles && s.tiles[id].key.zoom == zoom
  }

  /** One iteration of the attach loop: tiles of another zoom are skipped;
      the others get the `onload` handler (which will read the hoisted
      loop variable) and a feature. */
  function AttachOne(s: Layer, id: TileId, zoom: nat, hoisted: TileId): (r: Layer)
    requires WellFormed(s) && id in s.tiles && hoisted in s.tiles
    ensures WellFormed(r)
    ensures r == s.(tiles := r.tiles, onload := r.onload)
    ensures s.tiles[id].key.zoom != zoom ==> r == s
    ensures s.tiles[id].key.zoom == zoom ==>
      && r.tiles == s.tiles[id := s.tiles[id].(hasFeature := true)]
      && r.onload == s.onload[id := hoisted]
  {
    if s.tiles[id].key.zoom != zoom then s
    else s.(tiles := s.tiles[id := s.tiles[id].(hasFeature := true)],
            onload := s.onload[id := hoisted])
  }

  /** The attach loop over queue q. */
  function AttachAll(s: Layer, q: seq<TileId>, zoom: nat, hoisted: TileId): (r: Layer)
    requires WellFormed(s)
    requires forall id :: id in q ==> id in s.tiles
    requires hoisted in s.tiles
    ensures WellFormed(r)
    ensures r == s.(tiles := r.tiles, onload := r.onload)
    ensures r.tiles.Keys == s.tiles.Keys
    decreases |q|
  {
    if q == [] then s
    else AttachAll(AttachOne(s, q[0], zoom, hoisted), q[1..], zoom, hoisted)
  }

  /** The net effect of the attach loop over q on the tile objects: exactly
      the queued tiles of the current zoom gain a feature. */
  lemma {:induction false} AttachAllTiles(s: Layer, q: seq<TileId>, zoom: nat, hoisted: TileId)
    requires WellFormed(s)
    requires forall id :: id in q ==> id in s.tiles
    requires hoisted in s.tiles
    ensures var r := AttachAll(s, q, zoom, hoisted);
      forall id :: id in s.tiles ==>
        r.tiles[id] == if AttachedBy(s, q, zoom, id) then s.tiles[id].(hasFeature := true) else s.tiles[id]
    decreases |q|
  {
    if q != [] {
      var s1 := AttachOne(s, q[0], zoom, hoisted);
      var r := AttachAll(s, q, zoom, hoisted);
      assert r == AttachAll(s1, q[1..], zoom, hoisted);
      AttachAllTiles(s1, q[1..], zoom, hoisted);
      forall id | id in s.tiles
        ensures r.tiles[id] == if AttachedBy(s, q, zoom, id) then s.tiles[id].(hasFeature := true) else s.tiles[id]
      {
        assert id in q <==> id == q[0] || id in q[1..];
        assert s1.tiles[id].key == s.tiles[id].key;
        if id == q[0] && s.tiles[id].key.zoom == zoom {
          assert s1.tiles[id] == s.tiles[id].(hasFeature := true);
        } else {
          assert s1.tiles[id] == s.tiles[id];
        }
      }
    }
  }

  /** The net effect of the attach loop over q on the handlers: exactly the
      queued tiles of the current zoom get one, reading `hoisted`. */
  lemma {:induction false} AttachAllHandlers(s: Layer, q: seq<TileId>, zoom: nat, hoisted: TileId)
    requires WellFormed(s)
    requires forall id :: id in q ==> id in s.tiles
    requires hoisted in s.tiles
    ensures var r := AttachAll(s, q, zoom, hoisted);
      && (forall id :: id in r.onload <==> id in s.onload || AttachedBy(s, q, zoom, id))
      && (forall id :: id in r.onload ==>
            r.onload[id] == if AttachedBy(s, q, zoom, id) then hoisted else s.onload[id])
    decreases |q|
  {
    if q != [] {
      var s1 := AttachOne(s, q[0], zoom, hoisted);
      var r := AttachAll(s, q, zoom, hoisted);
      assert r == AttachAll(s1, q[1..], zoom, hoisted);
      AttachAllHandlers(s1, q[1..], zoom, hoisted);
      forall id
        ensures AttachedBy(s, q, zoom, id) <==>
          (id == q[0] && s.tiles[id].key.zoom == zoom) || AttachedBy(s1, q[1..], zoom, id)
      {
        assert id in q <==> id == q[0] || id in q[1..];
        if id in s.tiles {
          assert s1.tiles[id].key == s.tiles[id].key;
        }
      }
    }
  }

  /** Lines 358-389: only tiles of the current zoom get a feature and a load
      handler, every handler reads the HIDDEN flag of the last queued tile
      (the hoisted `tile` variable after the loop), and the queue is always
      emptied. */
  function Attach(s: Layer, zoom: nat): (r: Layer)
    requires WellFormed(s)
    ensures WellFormed(r)
    ensures r.pendingNew == []
    ensures r == s.(tiles := r.tiles, onload := r.onload, pendingNew := [])
    ensures r.tiles.Keys == s.tiles.Keys
  {
    var q := s.pendingNew;
    if |q| == 0 then s.(pendingNew := [])
    else AttachAll(s, q, zoom, q[|q| - 1]).(pendingNew := [])
  }

  /** The attach pass gives exactly the queued tiles of the current zoom a
      feature and a handler reading the last queued tile, and leaves every
      other tile and handler as it was. */
  lemma AttachEffect(s: Layer, zoom: nat)
    requires WellFormed(s)
    ensures var r := Attach(s, zoom);
      && (forall id :: id in s.tiles ==>
            r.tiles[id] == if AttachedBy(s, s.pendingNew, zoom, id) then s.tiles[id].(hasFeature := true) else s.tiles[id])
      && (forall id :: id in r.onload <==> id in s.onload || AttachedBy(s, s.pendingNew, zoom, id))
      && (forall id :: AttachedBy(s, s.pendingNew, zoom, id) ==>
            id in r.onload && r.onload[id] == s.pendingNew[|s.pendingNew| - 1])
      && (forall id :: id in s.onload && id !in s.pendingNew ==> id in r.onload && r.onload[id] == s.onload[id])
  {
    var q := s.pendingNew;
    if |q| != 0 {
      AttachAllTiles(s, q, zoom, q[|q| - 1]);
      AttachAllHandlers(s, q, zoom, q[|q| - 1]);
    }
  }


  /** The image `onload` handler of tile `id` (lines 366-380), fired as one
      atomic event. The flags of a loaded tile are set before any bin is
      chosen; the hidden bin is chosen when the hoisted tile is HIDDEN or
      this tile is HIDING, and the handler is consumed. */
  function Onload(s: Layer, id: TileId): (r: Layer)
    requires WellFormed(s) && id in s.onload
    ensures WellFormed(r)
    ensures r == s.(tiles := r.tiles, onload := r.onload)
    ensures r.onload == s.onload - {id}
    ensures id in r.tiles && r.tiles == s.tiles[id := r.tiles[id]]
    ensures var t := r.tiles[id]; var t0 := s.tiles[id];
      && !t.loading && t.loaded && !t.unload && !t.removing && !t.removed
      && t.key == t0.key && t.bounds == t0.bounds
      && t.hidden == t0.hidden && t.hasFeature == t0.hasFeature
      && t.hiding == (t0.hiding && !t0.hasFeature)
      && (t.bin == Assigned(HiddenBin) || t.bin == Assigned(VisibleBin))
      && (t.bin == Assigned(HiddenBin) <==> (s.tiles[s.onload[id]].hidden || t0.hiding) && t0.hasFeature)
  {
    var hoisted := s.tiles[s.onload[id]];
    var t := s.tiles[id].(loading := false, loaded := true, unload := false,
                          removing := false, removed := false);
    var t' := if (hoisted.hidden || t.hiding) && t.hasFeature
              then t.(bin := Assigned(HiddenBin), hiding := false)
              else t.(bin := Assigned(VisibleBin));
    s.(tiles := s.tiles[id := t'], onload := s.onload - {id})
  }
}

/** The invariants of the layer across the create loop, the attach pass
    and the load handler. */
module LifecycleInvariants {
  import opened TileGeometry
  import opened TileKeys
  import opened Viewport
  import opened LayerState
  import opened Lifecycle

  lemma ReshowKeepsCore(s: Layer, k: Key)
    requires Core(s) && HasTile(s, k)
    ensures Core(Reshow(s, k))
  {
    var r := Reshow(s, k);
    var id := s.store[k].id;
    forall i | 0 <= i < |r.pendingInactive|
      ensures Live(r, r.pendingInactive[i])
    {
      assert Live(s, s.pendingInactive[i]);
    }
    assert TileSane(r.tiles[id]);
  }

  lemma AddTileKeepsCore(s: Layer, k: Key)
    requires Core(s) && !HasTile(s, k)
    ensures Core(AddTile(s, k))
  {
    var r := AddTile(s, k);
    forall i | 0 <= i < |r.pendingInactive|
      ensures Live(r, r.pendingInactive[i])
    {
      var q := s.pendingInactive[i];
      assert Live(s, q);
      assert s.tiles[q].key != k;
    }
    LiveKeysFill(s.store, k, s.nextId);
  }

  lemma VisitKeepsCore(s: Layer, k: Key)
    requires Core(s)
    ensures Core(Visit(s, k))
  {
    if HasTile(s, k) { ReshowKeepsCore(s, k); } else { AddTileKeepsCore(s, k); }
  }

  lemma {:induction false} VisitRowKeepsCore(s: Layer, zoom: nat, i: nat, lo: nat, hi: int)
    requires Core(s) && hi <= MaxIndex(zoom)
    ensures Core(VisitRow(s, zoom, i, lo, hi))
    decreases hi - lo + 1
  {
    if lo <= hi {
      var k := Key(zoom, i, StorageRow(zoom, lo));
      VisitKeepsCore(s, k);
      VisitRowKeepsCore(Visit(s, k), zoom, i, lo + 1, hi);
    }
  }

  lemma {:induction false} VisitColumnsKeepsCore(s: Layer, zoom: nat, lo: nat, hi: int, rowLo: nat, rowHi: int)
    requires Core(s) && rowHi <= MaxIndex(zoom)
    ensures Core(VisitColumns(s, zoom, lo, hi, rowLo, rowHi))
    decreases hi - lo + 1
  {
    if lo <= hi {
      VisitRowKeepsCore(s, zoom, lo, rowLo, rowHi);
      VisitColumnsKeepsCore(VisitRow(s, zoom, lo, rowLo, rowHi), zoom, lo + 1, hi, rowLo, rowHi);
    }
  }

  /** The create loop keeps the invariant of the cycle, and every key it
      makes live lies in the grid of the zoom level. */
  lemma CreateOrReshowKeepsCore(s: Layer, zoom: nat, rg: TileRange)
    requires Core(s) && InGrid(rg, zoom)
    ensures Core(CreateOrReshow(s, zoom, rg))
    ensures forall k :: HasTile(CreateOrReshow(s, zoom, rg), k) && !HasTile(s, k) ==>
      k.zoom == zoom && k.x <= MaxIndex(zoom) && k.y <= MaxIndex(zoom)
  {
    VisitColumnsKeepsCore(s, zoom, rg.x1, rg.x2, rg.y2, rg.y1);
  }

  /** Attaching drains the new-tile queue and restores the between-events
      invariant: each new handler belongs to a loading tile that now has
      its feature. */
  lemma AttachRestoresValid(s: Layer, zoom: nat)
    requires Core(s)
    ensures Valid(Attach(s, zoom))
  {
    var r := Attach(s, zoom);
    AttachEffect(s, zoom);
    forall id | id in r.tiles
      ensures TileSane(r.tiles[id])
    {
      assert TileSane(s.tiles[id]);
    }
    forall i | 0 <= i < |r.pendingInactive|
      ensures Live(r, r.pendingInactive[i])
    {
      assert Live(s, s.pendingInactive[i]);
    }
  }

  /** The load handler keeps the invariant: the tile it completes was not
      queued as inactive, since only loaded tiles are. */
  lemma OnloadKeepsValid(s: Layer, id: TileId)
    requires Valid(s) && id in s.onload
    ensures id !in s.pendingInactive
    ensures Valid(Onload(s, id))
  {
    var r := Onload(s, id);
    forall i | 0 <= i < |r.pendingInactive|
      ensures Live(r, r.pendingInactive[i]) && r.pendingInactive[i] != id
    {
      assert Live(s, s.pendingInactive[i]);
      assert s.tiles[s.pendingInactive[i]].loaded;
    }
    assert TileSane(r.tiles[id]);
  }

  /** What the create loop does to the tiles already present and to the
      new-tile queue: old tiles keep their key and their LOADING flag, the
      queue only grows, every id it queues is a new tile of the loop's zoom
      level, and every new tile is queued. */
  ghost predicate CreatesAt(s: Layer, r: Layer, zoom: nat)
  {
    && (forall id :: id in s.tiles ==>
          id in r.tiles && r.tiles[id].key == s.tiles[id].key && r.tiles[id].loading == s.tiles[id].loading)
    && (forall id :: id in s.pendingNew ==> id in r.pendingNew)
    && (forall id :: id in r.pendingNew ==>
          id in s.pendingNew || (id !in s.tiles && id in r.tiles && r.tiles[id].key.zoom == zoom))
    && (forall id :: id in r.tiles && id !in s.tiles ==> id in r.pendingNew)
  }

  lemma CreatesAtTrans(s: Layer, m: Layer, r: Layer, zoom: nat)
    requires CreatesAt(s, m, zoom) && CreatesAt(m, r, zoom)
    ensures CreatesAt(s, r, zoom)
  {
  }

  /** One iteration queues at most the one tile it creates. */
  lemma VisitCreatesAt(s: Layer, k: Key)
    requires WellFormed(s)
    ensures CreatesAt(s, Visit(s, k), k.zoom)
    ensures Visit(s, k).pendingNew == s.pendingNew || Visit(s, k).pendingNew == s.pendingNew + [s.nextId]
    ensures |Visit(s, k).pendingNew| <= |s.pendingNew| + 1
  {
  }

  lemma {:induction false} VisitRowCreatesAt(s: Layer, zoom: nat, i: nat, lo: nat, hi: int)
    requires WellFormed(s) && hi <= MaxIndex(zoom)
    ensures CreatesAt(s, VisitRow(s, zoom, i, lo, hi), zoom)
    decreases hi - lo + 1
  {
    if lo <= hi {
      var m := Visit(s, Key(zoom, i, StorageRow(zoom, lo)));
      VisitCreatesAt(s, Key(zoom, i, StorageRow(zoom, lo)));
      VisitRowCreatesAt(m, zoom, i, lo + 1, hi);
      CreatesAtTrans(s, m, VisitRow(m, zoom, i, lo + 1, hi), zoom);
    }
  }

  lemma {:induction false} VisitColumnsCreatesAt(s: Layer, zoom: nat, lo: nat, hi: int, rowLo: nat, rowHi: int)
    requires WellFormed(s) && rowHi <= MaxIndex(zoom)
    ensures CreatesAt(s, VisitColumns(s, zoom, lo, hi, rowLo, rowHi), zoom)
    decreases hi - lo + 1
  {
    if lo <= hi {
      var m := VisitRow(s, zoom, lo, rowLo, rowHi);
      VisitRowCreatesAt(s, zoom, lo, rowLo, rowHi);
      VisitColumnsCreatesAt(m, zoom, lo + 1, hi, rowLo, rowHi);
      CreatesAtTrans(s, m, VisitColumns(m, zoom, lo + 1, hi, rowLo, rowHi), zoom);
    }
  }

  /** The create loop queues every tile it creates, all of them of its own
      zoom level, and leaves the LOADING flag of existing tiles alone. */
  lemma CreateOrReshowCreatesAt(s: Layer, zoom: nat, rg: TileRange)
    requires WellFormed(s) && InGrid(rg, zoom)
    ensures CreatesAt(s, CreateOrReshow(s, zoom, rg), zoom)
  {
    VisitColumnsCreatesAt(s, zoom, rg.x1, rg.x2, rg.y2, rg.y1);
  }

  /** One visit reshows the live tile of its own key and leaves every other
      live tile alone. */
  lemma VisitReshows(s: Layer, k: Key, id: TileId)
    requires WellFormed(s) && Live(s, id)
    ensures var r := Visit(s, k);
      var t := s.tiles[id];
      && Live(r, id)
      && r.tiles[id] == if t.key == k && t.loaded then t.(bin := Assigned(VisibleBin)) else t
  {
    if HasTile(s, k) && s.store[k].id != id {
      assert s.tiles[s.store[k].id].key == k;
    }
  }

  /** The tile's fate over rows [lo, hi] is its fate at row lo followed by
      its fate over rows [lo + 1, hi]. */
  lemma RowStep(t: Tile, t1: Tile, k0: Key, zoom: nat, i: nat, lo: nat, hi: int)
    requires lo <= hi <= MaxIndex(zoom) && k0 == Key(zoom, i, StorageRow(zoom, lo))
    requires t1 == if t.key == k0 && t.loaded then t.(bin := Assigned(VisibleBin)) else t
    ensures (if InRow(t1.key, zoom, i, lo + 1, hi) && t1.loaded then t1.(bin := Assigned(VisibleBin)) else t1)
      == (if InRow(t.key, zoom, i, lo, hi) && t.loaded then t.(bin := Assigned(VisibleBin)) else t)
  {
    if t.key == k0 {
      assert StorageRow(zoom, t.key.y) == lo;
    }
    if InRow(t.key, zoom, i, lo, hi) && t.key != k0 {
      assert StorageRow(zoom, t.key.y) != lo;
    }
  }

  /** A live tile before the inner loop: if its key is in the loop's row
      range and it has loaded, the loop puts it in the visible bin; in every
      other case the loop leaves it alone. It stays live either way. */
  lemma {:induction false} VisitRowReshows(s: Layer, zoom: nat, i: nat, lo: nat, hi: int, id: TileId)
    requires WellFormed(s) && hi <= MaxIndex(zoom) && Live(s, id)
    ensures var r := VisitRow(s, zoom, i, lo, hi);
      var t := s.tiles[id];
      && Live(r, id)
      && r.tiles[id] == if InRow(t.key, zoom, i, lo, hi) && t.loaded then t.(bin := Assigned(VisibleBin)) else t
    decreases hi - lo + 1
  {
    if lo <= hi {
      var k0 := Key(zoom, i, StorageRow(zoom, lo));
      var m := Visit(s, k0);
      var t := s.tiles[id];
      VisitReshows(s, k0, id);
      VisitRowReshows(m, zoom, i, lo + 1, hi, id);
      assert VisitRow(s, zoom, i, lo, hi) == VisitRow(m, zoom, i, lo + 1, hi);
      RowStep(t, m.tiles[id], k0, zoom, i, lo, hi);
    }
  }

  lemma {:induction false} VisitColumnsReshows(s: Layer, zoom: nat, lo: nat, hi: int, rowLo: nat, rowHi: int, id: TileId)
    requires WellFormed(s) && rowHi <= MaxIndex(zoom) && Live(s, id)
    ensures var r := VisitColumns(s, zoom, lo, hi, rowLo, rowHi);
      var t := s.tiles[id];
      && Live(r, id)
      && r.tiles[id] ==
           if InColumns(t.key, zoom, lo, hi, rowLo, rowHi) && t.loaded then t.(bin := Assigned(VisibleBin)) else t
    decreases hi - lo + 1
  {
    if lo <= hi {
      var m := VisitRow(s, zoom, lo, rowLo, rowHi);
      VisitRowReshows(s, zoom, lo, rowLo, rowHi, id);
      VisitColumnsReshows(m, zoom, lo + 1, hi, rowLo, rowHi, id);
      assert VisitColumns(s, zoom, lo, hi, rowLo, rowHi) == VisitColumns(m, zoom, lo + 1, hi, rowLo, rowHi);
      ColumnStep(s.tiles[id], m.tiles[id], zoom, lo, hi, rowLo, rowHi);
    }
  }

  /** Reshowing column lo, then columns lo + 1 to hi, is reshowing columns
      lo to hi. */
  lemma ColumnStep(t: Tile, t1: Tile, zoom: nat, lo: nat, hi: int, rowLo: nat, rowHi: int)
    requires lo <= hi
    requires t1 == if InRow(t.key, zoom, lo, rowLo, rowHi) && t.loaded then t.(bin := Assigned(VisibleBin)) else t
    ensures (if InColumns(t1.key, zoom, lo + 1, hi, rowLo, rowHi) && t1.loaded then t1.(bin := Assigned(VisibleBin)) else t1)
      == (if InColumns(t.key, zoom, lo, hi, rowLo, rowHi) && t.loaded then t.(bin := Assigned(VisibleBin)) else t)
  {
  }

  /** Anti-flicker in the create loop: a live tile of the range is put in the
      visible bin exactly when it has loaded; no other tile present before
      the loop changes. */
  lemma CreateOrReshowReshows(s: Layer, zoom: nat, rg: TileRange, id: TileId)
    requires WellFormed(s) && InGrid(rg, zoom) && Live(s, id)
    ensures var r := CreateOrReshow(s, zoom, rg);
      var t := s.tiles[id];
      && Live(r, id)
      && r.tiles[id] == if Required(rg, zoom, t.key) && t.loaded then t.(bin := Assigned(VisibleBin)) else t
  {
    VisitColumnsReshows(s, zoom, rg.x1, rg.x2, rg.y2, rg.y1, id);
  }
}
