/**
  The state of one OSM layer: every tile object created so far, the tile
  store `m_tiles` keyed by (zoom, x, y), the two pending queues, the
  cached-tile counter and its cap, the zoom seen by the previous sweep,
  the image-load handlers bound and not yet fired, and the eviction
  callbacks scheduled and not yet fired.

  Tile objects are addressed by `TileId`, because the queues and the load
  handler refer to the object rather than to its store slot: a slot can be
  nulled and refilled while the old object is still referenced.
 */
module LayerState {
  import opened TileGeometry
  import opened TileKeys

  type TileId = nat

  datatype Option<T> = None | Some(value: T)

  /** The draw-order bucket of a tile's feature; `Unassigned` until the
      layer first sets one. */
  datatype Bin = Unassigned | Assigned(number: int)

  const HiddenBin: int := 0
  const VisibleBin: int := 1000
  const MaximumActiveTiles: int := 100

  /** A tile object: its identity and corners, the seven lifecycle flags
      (independent booleans, as in the source; HIDDEN starts out undefined,
      which reads as false), whether a feature has been created for it,
      and the feature's bin. */
  datatype Tile = Tile(
    key: Key,
    bounds: BBox,
    loading: bool,
    loaded: bool,
    unload: bool,
    removed: bool,
    removing: bool,
    hiding: bool,
    hidden: bool,
    hasFeature: bool,
    bin: Bin)

  /** A store slot that has been written: a tile, or null after eviction. */
  datatype Slot = Null | Holds(id: TileId)

  datatype Layer = Layer(
    tiles: map<TileId, Tile>,
    store: map<Key, Slot>,
    pendingNew: seq<TileId>,
    pendingInactive: seq<TileId>,
    cachedTiles: int,
    maxActiveTiles: int,
    previousZoom: Option<nat>,
    onload: map<TileId, TileId>,
    timers: nat,
    nextId: TileId)

  /** A freshly constructed layer. */
  function Init(): (s: Layer)
    ensures s.store == map[] && s.tiles == map[]
    ensures s.cachedTiles == 0 && s.maxActiveTiles == MaximumActiveTiles
    ensures s.previousZoom == None
  {
    Layer(map[], map[], [], [], 0, MaximumActiveTiles, None, map[], 0, 0)
  }

  /** `_hasTile`: the slot exists and is not null. */
  predicate HasTile(s: Layer, k: Key)
  {
    k in s.store && s.store[k].Holds?
  }

  /** The keys of the non-null slots. */
  function LiveKeys(store: map<Key, Slot>): set<Key>
  {
    set k | k in store && store[k].Holds?
  }

  /** The tile object currently held by the slot of its own key. */
  predicate Live(s: Layer, id: TileId)
  {
    id in s.tiles && s.tiles[id].key in s.store && s.store[s.tiles[id].key] == Holds(id)
  }

  ghost predicate Distinct(q: seq<TileId>)
  {
    forall i, j :: 0 <= i < j < |q| ==> q[i] != q[j]
  }

  /** Referential integrity: every reference names an existing tile object,
      a slot holds a tile with its own key, and ids are allocated upwards. */
  ghost predicate WellFormed(s: Layer)
  {
    && (forall k :: k in s.store && s.store[k].Holds? ==>
          s.store[k].id in s.tiles && s.tiles[s.store[k].id].key == k)
    && (forall id :: id in s.tiles ==> id < s.nextId)
    && (forall id :: id in s.pendingNew ==> id in s.tiles)
    && (forall id :: id in s.pendingInactive ==> id in s.tiles)
    && (forall id :: id in s.onload ==> id in s.tiles && s.onload[id] in s.tiles)
  }

  /** Per-tile flag discipline: a tile is loading exactly until it is loaded,
      a loaded tile has a feature, and the visible bin is only ever given to
      a loaded tile (the anti-flicker rule). */
  ghost predicate TileSane(t: Tile)
  {
    && t.loading == !t.loaded
    && (t.loaded ==> t.hasFeature)
    && (t.bin == Assigned(VisibleBin) ==> t.loaded)
  }

  ghost predicate TilesSane(s: Layer)
  {
    forall id :: id in s.tiles ==> TileSane(s.tiles[id])
  }

  /** A bound load handler belongs to a tile that is still loading and has
      its feature. */
  ghost predicate HandlersPending(s: Layer)
  {
    forall id :: id in s.onload ==> id in s.tiles && s.tiles[id].loading && s.tiles[id].hasFeature
  }

  /** The inactive queue holds distinct live tiles, each loaded and marked
      REMOVING and HIDING by the sweep that queued it. */
  ghost predicate InactiveQueued(s: Layer)
  {
    && Distinct(s.pendingInactive)
    && forall i :: 0 <= i < |s.pendingInactive| ==>
         && Live(s, s.pendingInactive[i])
         && s.tiles[s.pendingInactive[i]].loaded
         && s.tiles[s.pendingInactive[i]].removing
         && s.tiles[s.pendingInactive[i]].hiding
  }

  /** The new-tile queue holds tiles still loading. */
  ghost predicate NewQueued(s: Layer)
  {
    forall id :: id in s.pendingNew ==> id in s.tiles && s.tiles[id].loading
  }

  /** `m_numberOfCachedTiles` counts exactly the non-null slots. */
  ghost predicate CounterExact(s: Layer)
  {
    s.cachedTiles == |LiveKeys(s.store)|
  }

  /** The invariant that holds inside an update cycle. */
  ghost predicate Core(s: Layer)
  {
    && WellFormed(s)
    && TilesSane(s)
    && HandlersPending(s)
    && InactiveQueued(s)
    && NewQueued(s)
    && CounterExact(s)
  }

  /** The invariant of every state between two events: the new-tile queue
      is drained by the attach pass of the cycle that filled it. */
  ghost predicate Valid(s: Layer)
  {
    Core(s) && s.pendingNew == []
  }

  lemma InitValid()
    ensures Valid(Init())
  {
    assert LiveKeys(map[]) == {};
  }

  /** Filling a slot that was absent or null adds one live key. */
  lemma LiveKeysFill(store: map<Key, Slot>, k: Key, id: TileId)
    requires !(k in store && store[k].Holds?)
    ensures LiveKeys(store[k := Holds(id)]) == LiveKeys(store) + {k}
    ensures |LiveKeys(store[k := Holds(id)])| == |LiveKeys(store)| + 1
  {
    assert LiveKeys(store[k := Holds(id)]) == LiveKeys(store) + {k};
  }

  /** Nulling a live slot removes one live key. */
  lemma LiveKeysClear(store: map<Key, Slot>, k: Key)
    requires k in store && store[k].Holds?
    ensures LiveKeys(store[k := Null]) == LiveKeys(store) - {k}
    ensures |LiveKeys(store[k := Null])| == |LiveKeys(store)| - 1
  {
    assert LiveKeys(store[k := Null]) == LiveKeys(store) - {k};
  }
}
