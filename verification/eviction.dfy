/**
  Stale-tile handling in `_removeTiles`: the zoom-change sweep that marks
  and queues tiles, and the body of the deferred callback that evicts
  queued tiles while the layer is over its cap and hides the rest.
 */
module Eviction {
  import opened TileKeys
  import opened LayerState

  /** What the sweep does to the tile in a non-null slot. */
  function SweepTile(t: Tile): Tile
  {
    if !t.loaded then t.(unload := true)
    else if t.removed || t.removing then t
    else t.(removing := true, hiding := true)
  }

  /** A tile the sweep queues as inactive. */
  predicate QueuedBySweep(t: Tile)
  {
    t.loaded && !t.removed && !t.removing
  }

  /** The ids the walk over keys ks appends to the inactive queue, in walk order. */
  function SweepQueue(s: Layer, ks: seq<Key>): (q: seq<TileId>)
    requires WellFormed(s)
    ensures forall i :: 0 <= i < |q| ==> Live(s, q[i]) && QueuedBySweep(s.tiles[q[i]])
    decreases |ks|
  {
    if ks == [] then []
    else
      var k := ks[0];
      var head := if k in s.store && s.store[k].Holds? && QueuedBySweep(s.tiles[s.store[k].id])
                  then [s.store[k].id] else [];
      head + SweepQueue(s, ks[1..])
  }

  /** A tile lands in the walk's queue exactly when it is live, has its key
      among the walked keys, and qualifies. */
  lemma {:induction false} SweepQueueMembers(s: Layer, ks: seq<Key>, id: TileId)
    requires WellFormed(s)
    ensures id in SweepQueue(s, ks) <==> Live(s, id) && QueuedBySweep(s.tiles[id]) && s.tiles[id].key in ks
    decreases |ks|
  {
    if ks != [] {
      SweepQueueMembers(s, ks[1..], id);
      assert ks == [ks[0]] + ks[1..];
    }
  }

  /** The tiles of q appear in strictly ascending key order. */
  ghost predicate KeyOrdered(s: Layer, q: seq<TileId>)
  {
    && (forall i :: 0 <= i < |q| ==> q[i] in s.tiles)
    && (forall i, j :: 0 <= i < j < |q| ==> KeyLess(s.tiles[q[i]].key, s.tiles[q[j]].key))
  }

  /** The queue follows the walk: keys strictly ascending. */
  lemma {:induction false} SweepQueueAscending(s: Layer, ks: seq<Key>)
    requires WellFormed(s) && StrictlyAscending(ks)
    ensures KeyOrdered(s, SweepQueue(s, ks))
    decreases |ks|
  {
    if ks != [] {
      var rest := SweepQueue(s, ks[1..]);
      SweepQueueAscending(s, ks[1..]);
      forall j | 0 <= j < |rest|
        ensures rest[j] in s.tiles && KeyLess(ks[0], s.tiles[rest[j]].key)
      {
        assert rest[j] in rest;
        SweepQueueMembers(s, ks[1..], rest[j]);
        var p :| 0 <= p < |ks[1..]| && ks[1..][p] == s.tiles[rest[j]].key;
        assert ks[p + 1] == ks[1..][p];
      }
    }
  }

  lemma AscendingQueueDistinct(s: Layer, q: seq<TileId>)
    requires KeyOrdered(s, q)
    ensures Distinct(q)
  {
    forall i, j | 0 <= i < j < |q|
      ensures q[i] != q[j]
    {
      assert KeyLess(s.tiles[q[i]].key, s.tiles[q[j]].key);
    }
  }

  /** The walk over the whole store, in `for ... in` order. */
  function SweepAll(s: Layer): (q: seq<TileId>)
    requires WellFormed(s)
    ensures forall id :: id in q <==> Live(s, id) && QueuedBySweep(s.tiles[id])
    ensures Distinct(q)
    ensures KeyOrdered(s, q)
  {
    var ks := SortedKeys(s.store.Keys);
    var q := SweepQueue(s, ks);
    SweepQueueAscending(s, ks);
    AscendingQueueDistinct(s, q);
    assert forall id :: id in q <==> Live(s, id) && QueuedBySweep(s.tiles[id]) by {
      forall id ensures id in q <==> Live(s, id) && QueuedBySweep(s.tiles[id]) {
        SweepQueueMembers(s, ks, id);
      }
    }
    q
  }

  /** The tile objects after the walk: the tile in each non-null slot is
      swept, tiles no slot holds are untouched. */
  function SweptTiles(s: Layer): (m: map<TileId, Tile>)
    requires WellFormed(s)
    ensures m.Keys == s.tiles.Keys
    ensures forall id :: id in m ==> m[id].key == s.tiles[id].key
    ensures forall id :: id in m && !Live(s, id) ==> m[id] == s.tiles[id]
    ensures forall id :: id in m && Live(s, id) ==> m[id] == SweepTile(s.tiles[id])
  {
    map id | id in s.tiles :: if Live(s, id) then SweepTile(s.tiles[id]) else s.tiles[id]
  }

  /** `_removeTiles` up to the scheduling of the callback. On the first call
      it only records the zoom; with the zoom unchanged it does nothing;
      otherwise it records the new zoom, walks every zoom level of the store
      (the skip of line 219 compares a number with a property name and never
      fires), and schedules one more callback. */
  function Sweep(s: Layer, zoom: nat): (r: Layer)
    requires WellFormed(s)
    ensures WellFormed(r)
    ensures r.previousZoom == Some(zoom)
    ensures s.previousZoom.None? || s.previousZoom == Some(zoom) ==> r == s.(previousZoom := Some(zoom))
    ensures s.previousZoom.Some? && s.previousZoom != Some(zoom) ==>
      && r == s.(previousZoom := r.previousZoom, tiles := r.tiles,
                 pendingInactive := r.pendingInactive, timers := r.timers)
      && r.timers == s.timers + 1
      && r.tiles.Keys == s.tiles.Keys
  {
    if s.previousZoom.None? || s.previousZoom == Some(zoom) then s.(previousZoom := Some(zoom))
    else
      s.(previousZoom := Some(zoom),
         tiles := SweptTiles(s),
         pendingInactive := s.pendingInactive + SweepAll(s),
         timers := s.timers + 1)
  }

  /** The state of an evicted tile. */
  function Evicted(t: Tile): Tile
  {
    t.(removed := true, removing := false, hiding := false)
  }

  /** The state of a tile the callback hides, or of one it leaves alone. */
  function HiddenOrKept(t: Tile): Tile
  {
    if t.hiding && t.hasFeature then t.(removing := false, hidden := true, bin := Assigned(HiddenBin))
    else t
  }

  /** One iteration of the callback: over the cap the tile is evicted (slot
      nulled, REMOVED set, REMOVING and HIDING cleared, counter decremented);
      otherwise a HIDING tile with a feature is hidden. */
  function EvictOrHide(s: Layer, id: TileId): (r: Layer)
    requires id in s.tiles
    ensures r == s.(tiles := r.tiles, store := r.store, cachedTiles := r.cachedTiles)
    ensures forall k :: k in r.store && r.store[k].Holds? ==> k in s.store && s.store[k] == r.store[k]
    ensures id in r.tiles && r.tiles == s.tiles[id := r.tiles[id]]
    ensures r.tiles[id].key == s.tiles[id].key
  {
    var t := s.tiles[id];
    if s.cachedTiles > s.maxActiveTiles then
      s.(store := s.store[t.key := Null], tiles := s.tiles[id := Evicted(t)],
         cachedTiles := s.cachedTiles - 1)
    else s.(tiles := s.tiles[id := HiddenOrKept(t)])
  }

  /** The callback's loop over queue q. */
  function Drain(s: Layer, q: seq<TileId>): (r: Layer)
    requires forall id :: id in q ==> id in s.tiles
    ensures r == s.(tiles := r.tiles, store := r.store, cachedTiles := r.cachedTiles)
    ensures r.tiles.Keys == s.tiles.Keys
    decreases |q|
  {
    if q == [] then s
    else Drain(EvictOrHide(s, q[0]), q[1..])
  }

  /** The callback keeps every tile's key, leaves tiles outside q alone, and
      never fills a slot: a slot that holds a tile afterwards held it before. */
  lemma {:induction false} DrainFrame(s: Layer, q: seq<TileId>)
    requires forall id :: id in q ==> id in s.tiles
    ensures var r := Drain(s, q);
      && (forall id :: id in s.tiles ==> r.tiles[id].key == s.tiles[id].key)
      && (forall id :: id in s.tiles && id !in q ==> r.tiles[id] == s.tiles[id])
      && (forall k :: k in r.store && r.store[k].Holds? ==> k in s.store && s.store[k] == r.store[k])
  {
    DrainKeepsKeys(s, q);
    DrainUntouched(s, q);
    DrainFillsNothing(s, q);
  }

  lemma {:induction false} DrainKeepsKeys(s: Layer, q: seq<TileId>)
    requires forall id :: id in q ==> id in s.tiles
    ensures var r := Drain(s, q);
      forall id :: id in s.tiles ==> r.tiles[id].key == s.tiles[id].key
    decreases |q|
  {
    if q != [] {
      var s1 := EvictOrHide(s, q[0]);
      assert forall id :: id in q[1..] ==> id in q;
      DrainKeepsKeys(s1, q[1..]);
      assert Drain(s, q) == Drain(s1, q[1..]);
    }
  }

  lemma {:induction false} DrainUntouched(s: Layer, q: seq<TileId>)
    requires forall id :: id in q ==> id in s.tiles
    ensures var r := Drain(s, q);
      forall id :: id in s.tiles && id !in q ==> r.tiles[id] == s.tiles[id]
    decreases |q|
  {
    if q != [] {
      var s1 := EvictOrHide(s, q[0]);
      assert forall id :: id in q[1..] ==> id in q;
      DrainUntouched(s1, q[1..]);
      assert Drain(s, q) == Drain(s1, q[1..]);
      forall id | id in s.tiles && id !in q
        ensures id !in q[1..] && id != q[0]
      {
        assert q == [q[0]] + q[1..];
      }
    }
  }

  lemma {:induction false} DrainFillsNothing(s: Layer, q: seq<TileId>)
    requires forall id :: id in q ==> id in s.tiles
    ensures var r := Drain(s, q);
      forall k :: k in r.store && r.store[k].Holds? ==> k in s.store && s.store[k] == r.store[k]
    decreases |q|
  {
    if q != [] {
      var s1 := EvictOrHide(s, q[0]);
      assert forall id :: id in q[1..] ==> id in q;
      DrainFillsNothing(s1, q[1..]);
      assert Drain(s, q) == Drain(s1, q[1..]);
    }
  }


  /** The number of tiles a callback evicts from a queue of n tiles. */
  function Evictions(cached: int, cap: int, n: nat): (e: nat)
    ensures e <= n
    ensures cached > cap ==> e == if n <= cached - cap then n else cached - cap
    ensures cached <= cap ==> e == 0
  {
    if cached <= cap then 0
    else if n <= cached - cap then n
    else cached - cap
  }

  /** The tiles of q are distinct and each holds the slot of its own key. */
  ghost predicate DrainReady(s: Layer, q: seq<TileId>)
  {
    && (forall id :: id in q ==> id in s.tiles)
    && Distinct(q)
    && (forall i :: 0 <= i < |q| ==> Live(s, q[i]))
  }

  lemma DrainReadyTail(s: Layer, q: seq<TileId>)
    requires DrainReady(s, q) && q != []
    ensures DrainReady(EvictOrHide(s, q[0]), q[1..])
  {
    var s1 := EvictOrHide(s, q[0]);
    forall i | 0 <= i < |q[1..]|
      ensures Live(s1, q[1..][i])
    {
      assert q[1..][i] == q[i + 1];
      assert Live(s, q[i + 1]);
      assert q[i + 1] != q[0];
      assert s.tiles[q[i + 1]].key != s.tiles[q[0]].key;
    }
  }

  lemma HeadNotInTail(q: seq<TileId>)
    requires Distinct(q) && q != []
    ensures q[0] !in q[1..]
    ensures forall i :: 1 <= i < |q| ==> q[1..][i - 1] == q[i] && q[i] != q[0]
  {
    forall i | 0 <= i < |q[1..]| ensures q[1..][i] != q[0] {
      assert q[1..][i] == q[i + 1];
    }
  }

  lemma EvictionsStep(cached: int, cap: int, n: nat)
    requires n >= 1
    ensures cached > cap ==> Evictions(cached, cap, n) == Evictions(cached - 1, cap, n - 1) + 1
    ensures cached <= cap ==> Evictions(cached, cap, n) == 0 == Evictions(cached, cap, n - 1)
  {
  }

  /** The callback's counter drops by the number of tiles it evicts, and it
      keeps counting the non-null slots. */
  lemma {:induction false} DrainCounter(s: Layer, q: seq<TileId>)
    requires DrainReady(s, q) && CounterExact(s)
    ensures Drain(s, q).cachedTiles == s.cachedTiles - Evictions(s.cachedTiles, s.maxActiveTiles, |q|)
    ensures CounterExact(Drain(s, q))
    decreases |q|
  {
    if q != [] {
      var s1 := EvictOrHide(s, q[0]);
      assert Live(s, q[0]);
      DrainReadyTail(s, q);
      if s.cachedTiles > s.maxActiveTiles {
        LiveKeysClear(s.store, s.tiles[q[0]].key);
      }
      DrainCounter(s1, q[1..]);
      EvictionsStep(s.cachedTiles, s.maxActiveTiles, |q|);
    }
  }

  /** The callback evicts the first `Evictions(...)` tiles of q, in queue
      order, and hides or keeps the rest. */
  lemma {:induction false} DrainTiles(s: Layer, q: seq<TileId>)
    requires Distinct(q)
    requires forall id :: id in q ==> id in s.tiles
    ensures var r := Drain(s, q);
      var e := Evictions(s.cachedTiles, s.maxActiveTiles, |q|);
      && (forall i :: 0 <= i < e ==> r.tiles[q[i]] == Evicted(s.tiles[q[i]]))
      && (forall i :: e <= i < |q| ==> r.tiles[q[i]] == HiddenOrKept(s.tiles[q[i]]))
    decreases |q|
  {
    if q != [] {
      var s1 := EvictOrHide(s, q[0]);
      HeadNotInTail(q);
      assert Distinct(q[1..]);
      DrainTiles(s1, q[1..]);
      EvictionsStep(s.cachedTiles, s.maxActiveTiles, |q|);
      DrainEvictsCombine(s, q);
      DrainHidesCombine(s, q);
    }
  }

  /** The evicted prefix of q is the head, when it is evicted, followed by
      the evicted prefix of the tail. */
  lemma DrainEvictsCombine(s: Layer, q: seq<TileId>)
    requires q != [] && forall id :: id in q ==> id in s.tiles
    requires forall i :: 1 <= i < |q| ==> q[1..][i - 1] == q[i] && q[i] != q[0]
    requires var s1 := EvictOrHide(s, q[0]);
      var r := Drain(s1, q[1..]);
      forall i :: 0 <= i < Evictions(s1.cachedTiles, s1.maxActiveTiles, |q[1..]|) ==>
        r.tiles[q[1..][i]] == Evicted(s1.tiles[q[1..][i]])
    requires s.cachedTiles > s.maxActiveTiles ==>
      Evictions(s.cachedTiles, s.maxActiveTiles, |q|) == Evictions(s.cachedTiles - 1, s.maxActiveTiles, |q| - 1) + 1
    requires s.cachedTiles <= s.maxActiveTiles ==> Evictions(s.cachedTiles, s.maxActiveTiles, |q|) == 0
    ensures var r := Drain(s, q);
      forall i :: 0 <= i < Evictions(s.cachedTiles, s.maxActiveTiles, |q|) ==>
        r.tiles[q[i]] == Evicted(s.tiles[q[i]])
  {
    var s1 := EvictOrHide(s, q[0]);
    var r := Drain(s, q);
    assert r == Drain(s1, q[1..]);
    var e := Evictions(s.cachedTiles, s.maxActiveTiles, |q|);
    var e1 := Evictions(s1.cachedTiles, s1.maxActiveTiles, |q[1..]|);
    assert e == 0 || e == e1 + 1;
    forall i | 0 <= i < e
      ensures r.tiles[q[i]] == Evicted(s.tiles[q[i]])
    {
      if i == 0 {
        assert q[0] !in q[1..];
        DrainFrame(s1, q[1..]);
      } else {
        assert q[1..][i - 1] == q[i] && i - 1 < e1;
        assert s1.tiles[q[i]] == s.tiles[q[i]];
      }
    }
  }

  /** The part of q past the evicted prefix is the head, when it is not
      evicted, followed by the same part of the tail. */
  lemma DrainHidesCombine(s: Layer, q: seq<TileId>)
    requires q != [] && forall id :: id in q ==> id in s.tiles
    requires forall i :: 1 <= i < |q| ==> q[1..][i - 1] == q[i] && q[i] != q[0]
    requires var s1 := EvictOrHide(s, q[0]);
      var r := Drain(s1, q[1..]);
      forall i :: Evictions(s1.cachedTiles, s1.maxActiveTiles, |q[1..]|) <= i < |q[1..]| ==>
        r.tiles[q[1..][i]] == HiddenOrKept(s1.tiles[q[1..][i]])
    requires s.cachedTiles > s.maxActiveTiles ==>
      Evictions(s.cachedTiles, s.maxActiveTiles, |q|) == Evictions(s.cachedTiles - 1, s.maxActiveTiles, |q| - 1) + 1
    requires s.cachedTiles <= s.maxActiveTiles ==>
      Evictions(s.cachedTiles, s.maxActiveTiles, |q|) == 0 == Evictions(s.cachedTiles, s.maxActiveTiles, |q| - 1)
    ensures var r := Drain(s, q);
      forall i :: Evictions(s.cachedTiles, s.maxActiveTiles, |q|) <= i < |q| ==>
        r.tiles[q[i]] == HiddenOrKept(s.tiles[q[i]])
  {
    var s1 := EvictOrHide(s, q[0]);
    var r := Drain(s, q);
    assert r == Drain(s1, q[1..]);
    var e := Evictions(s.cachedTiles, s.maxActiveTiles, |q|);
    var e1 := Evictions(s1.cachedTiles, s1.maxActiveTiles, |q[1..]|);
    forall i | e <= i < |q|
      ensures r.tiles[q[i]] == HiddenOrKept(s.tiles[q[i]])
    {
      if i == 0 {
        assert q[0] !in q[1..];
        DrainFrame(s1, q[1..]);
      } else {
        assert q[1..][i - 1] == q[i] && e1 <= i - 1;
        assert s1.tiles[q[i]] == s.tiles[q[i]];
      }
    }
  }

  /** The keys of the first e tiles of q. */
  ghost function EvictedKeys(s: Layer, q: seq<TileId>, e: nat): set<Key>
    requires forall id :: id in q ==> id in s.tiles
  {
    set i | 0 <= i < e && i < |q| :: s.tiles[q[i]].key
  }

  /** The store with the slots of keys ks nulled. */
  ghost function NullSlots(store: map<Key, Slot>, ks: set<Key>): map<Key, Slot>
  {
    map k | k in store :: if k in ks then Null else store[k]
  }

  /** Nulling one slot first, then a set, is nulling both. */
  lemma NullSlotsCons(store: map<Key, Slot>, k: Key, ks: set<Key>)
    requires k in store
    ensures NullSlots(store[k := Null], ks) == NullSlots(store, {k} + ks)
  {
  }

  lemma EvictedKeysStep(s: Layer, q: seq<TileId>, e: nat)
    requires DrainReady(s, q) && q != [] && e >= 1
    ensures EvictedKeys(s, q, e) ==
      {s.tiles[q[0]].key} + EvictedKeys(EvictOrHide(s, q[0]), q[1..], e - 1)
  {
    var s1 := EvictOrHide(s, q[0]);
    var lhs := EvictedKeys(s, q, e);
    var rhs := {s.tiles[q[0]].key} + EvictedKeys(s1, q[1..], e - 1);
    forall k | k in lhs ensures k in rhs {
      var i :| 0 <= i < e && i < |q| && k == s.tiles[q[i]].key;
      if i > 0 {
        assert q[1..][i - 1] == q[i];
      }
    }
    forall k | k in rhs ensures k in lhs {
      if k != s.tiles[q[0]].key {
        var i :| 0 <= i < e - 1 && i < |q[1..]| && k == s1.tiles[q[1..][i]].key;
        assert q[1..][i] == q[i + 1];
      }
    }
  }

  /** The callback nulls exactly the slots of the tiles it evicts and leaves
      every other slot as it was. */
  lemma {:induction false} DrainStore(s: Layer, q: seq<TileId>)
    requires DrainReady(s, q)
    ensures Drain(s, q).store ==
      NullSlots(s.store, EvictedKeys(s, q, Evictions(s.cachedTiles, s.maxActiveTiles, |q|)))
    decreases |q|
  {
    if q == [] {
      assert EvictedKeys(s, q, 0) == {};
    } else {
      DrainReadyTail(s, q);
      DrainStore(EvictOrHide(s, q[0]), q[1..]);
      DrainStoreStep(s, q);
    }
  }

  /** One step of DrainStore: the head's slot joins the nulled keys exactly
      when the layer is over its cap. */
  lemma DrainStoreStep(s: Layer, q: seq<TileId>)
    requires DrainReady(s, q) && q != []
    requires DrainReady(EvictOrHide(s, q[0]), q[1..])
    requires var s1 := EvictOrHide(s, q[0]);
      Drain(s1, q[1..]).store ==
        NullSlots(s1.store, EvictedKeys(s1, q[1..], Evictions(s1.cachedTiles, s1.maxActiveTiles, |q| - 1)))
    ensures Drain(s, q).store ==
      NullSlots(s.store, EvictedKeys(s, q, Evictions(s.cachedTiles, s.maxActiveTiles, |q|)))
  {
    var s1 := EvictOrHide(s, q[0]);
    var k0 := s.tiles[q[0]].key;
    var e := Evictions(s.cachedTiles, s.maxActiveTiles, |q|);
    EvictionsStep(s.cachedTiles, s.maxActiveTiles, |q|);
    assert Live(s, q[0]);
    assert Drain(s, q) == Drain(s1, q[1..]);
    if s.cachedTiles > s.maxActiveTiles {
      var ks1 := EvictedKeys(s1, q[1..], e - 1);
      EvictedKeysStep(s, q, e);
      NullSlotsCons(s.store, k0, ks1);
      assert s1.store == s.store[k0 := Null];
    } else {
      assert EvictedKeys(s, q, e) == {};
      assert EvictedKeys(s1, q[1..], 0) == {};
      assert s1.store == s.store;
    }
  }

  /** The slot of each queued tile after the callback: null for the first
      `Evictions(...)` tiles, still holding the tile for the rest. */
  lemma DrainSlots(s: Layer, q: seq<TileId>)
    requires DrainReady(s, q)
    ensures var r := Drain(s, q);
      var e := Evictions(s.cachedTiles, s.maxActiveTiles, |q|);
      && r.store.Keys == s.store.Keys
      && (forall i :: 0 <= i < e ==> r.store[s.tiles[q[i]].key] == Null)
      && (forall i :: e <= i < |q| ==> r.store[s.tiles[q[i]].key] == Holds(q[i]))
      && (forall k :: k in s.store && (s.store[k].Null? || s.store[k].id !in q) ==>
            r.store[k] == s.store[k])
  {
    var r := Drain(s, q);
    var e := Evictions(s.cachedTiles, s.maxActiveTiles, |q|);
    var ks := EvictedKeys(s, q, e);
    DrainStore(s, q);
    forall i | 0 <= i < e ensures r.store[s.tiles[q[i]].key] == Null {
      assert Live(s, q[i]);
      assert s.tiles[q[i]].key in ks;
    }
    forall i | e <= i < |q| ensures r.store[s.tiles[q[i]].key] == Holds(q[i]) {
      assert Live(s, q[i]);
    }
    forall k | k in s.store && (s.store[k].Null? || s.store[k].id !in q)
      ensures r.store[k] == s.store[k]
    {
      assert forall j :: 0 <= j < |q| ==> Live(s, q[j]) && q[j] in q;
    }
  }

  /** The body of the deferred callback (lines 254-274): it reads the shared
      inactive queue as it is when the callback fires, processes it, and
      empties it. */
  function EvictionBatch(s: Layer): (r: Layer)
    requires WellFormed(s)
    ensures WellFormed(r)
    ensures r.pendingInactive == []
    ensures r == s.(tiles := r.tiles, store := r.store, cachedTiles := r.cachedTiles, pendingInactive := [])
  {
    DrainWellFormed(s, s.pendingInactive);
    Drain(s, s.pendingInactive).(pendingInactive := [])
  }

  /** The callback only nulls slots and changes flags, so references stay intact. */
  lemma DrainWellFormed(s: Layer, q: seq<TileId>)
    requires WellFormed(s)
    requires forall id :: id in q ==> id in s.tiles
    ensures WellFormed(Drain(s, q))
    ensures WellFormed(Drain(s, q).(pendingInactive := []))
  {
    DrainFrame(s, q);
  }
}

/** What the sweep and the eviction callback do to the layer, and the
    invariants they keep. */
module EvictionInvariants {
  import opened TileKeys
  import opened Viewport
  import opened LayerState
  import opened Eviction

  lemma SweepTileSane(t: Tile)
    requires TileSane(t)
    ensures TileSane(SweepTile(t))
    ensures SweepTile(t).loading == t.loading && SweepTile(t).loaded == t.loaded
    ensures SweepTile(t).hasFeature == t.hasFeature && SweepTile(t).key == t.key
  {
  }

  /** The sweep's per-tile effect settles after one application. */
  lemma SweepTileSettles(t: Tile)
    ensures SweepTile(SweepTile(t)) == SweepTile(t)
    ensures !QueuedBySweep(SweepTile(t))
  {
  }

  /** A sweep that sees a new zoom visits every non-null slot of every zoom
      level, the current one included: a tile that has not loaded is marked
      UNLOAD and not queued; a loaded tile already REMOVED or REMOVING is left
      alone; any other loaded tile is marked REMOVING and HIDING and queued
      once. The new queue entries follow the walk's key order, and null slots
      and the tiles no slot holds are left alone. */
  lemma SweepEffect(s: Layer, zoom: nat)
    requires WellFormed(s) && s.previousZoom.Some? && s.previousZoom != Some(zoom)
    ensures var r := Sweep(s, zoom);
      var n := |s.pendingInactive|;
      var added := r.pendingInactive[n..];
      && |r.pendingInactive| >= n && r.pendingInactive[..n] == s.pendingInactive
      && r.store == s.store && r.cachedTiles == s.cachedTiles
      && (forall id :: Live(s, id) && !s.tiles[id].loaded ==>
            r.tiles[id] == s.tiles[id].(unload := true) && id !in added)
      && (forall id :: Live(s, id) && s.tiles[id].loaded && (s.tiles[id].removed || s.tiles[id].removing) ==>
            r.tiles[id] == s.tiles[id] && id !in added)
      && (forall id :: Live(s, id) && QueuedBySweep(s.tiles[id]) ==>
            r.tiles[id] == s.tiles[id].(removing := true, hiding := true) && id in added)
      && (forall id :: id in s.tiles && !Live(s, id) ==> r.tiles[id] == s.tiles[id] && id !in added)
      && Distinct(added)
      && KeyOrdered(s, added)
  {
    var r := Sweep(s, zoom);
    var n := |s.pendingInactive|;
    assert r.pendingInactive == s.pendingInactive + SweepAll(s);
    assert r.pendingInactive[n..] == SweepAll(s);
    assert r.pendingInactive[..n] == s.pendingInactive;
  }

  /** Live tiles are the same before and after a sweep: it touches neither
      the store nor any tile's key. */
  lemma SweepKeepsLive(s: Layer, zoom: nat, id: TileId)
    requires WellFormed(s)
    ensures Live(Sweep(s, zoom), id) <==> Live(s, id)
  {
  }

  /** The sweep keeps the per-tile discipline and the handler and
      new-queue invariants: it changes only UNLOAD, REMOVING and HIDING. */
  lemma SweepKeepsTiles(s: Layer, zoom: nat)
    requires WellFormed(s) && TilesSane(s)
    ensures var r := Sweep(s, zoom);
      && TilesSane(r)
      && (forall id :: id in r.tiles ==>
            r.tiles[id].loading == s.tiles[id].loading && r.tiles[id].hasFeature == s.tiles[id].hasFeature)
  {
    var r := Sweep(s, zoom);
    forall id | id in r.tiles
      ensures TileSane(r.tiles[id])
      ensures r.tiles[id].loading == s.tiles[id].loading && r.tiles[id].hasFeature == s.tiles[id].hasFeature
    {
      SweepTileSane(s.tiles[id]);
    }
  }

  /** The old queue entries, already REMOVING, are left alone, and the new
      ones were not REMOVING before, so the queue stays duplicate-free. */
  /** A zoom-changing sweep leaves the tiles already queued live and as
      they were. */
  lemma SweepKeepsOldQueue(s: Layer, zoom: nat)
    requires WellFormed(s) && InactiveQueued(s)
    requires s.previousZoom.Some? && s.previousZoom != Some(zoom)
    ensures var r := Sweep(s, zoom);
      forall id :: id in s.pendingInactive ==>
        Live(r, id) && r.tiles[id] == s.tiles[id] && s.tiles[id].loaded && s.tiles[id].removing
  {
    var r := Sweep(s, zoom);
    var p := s.pendingInactive;
    assert r.tiles == SweptTiles(s);
    forall id | id in p
      ensures Live(r, id) && r.tiles[id] == s.tiles[id] && s.tiles[id].loaded && s.tiles[id].removing
    {
      var i :| 0 <= i < |p| && p[i] == id;
      assert Live(s, p[i]);
      SweepKeepsLive(s, zoom, id);
    }
  }

  /** The tiles a zoom-changing sweep queues stay live, are loaded, were not
      REMOVING before, and are now REMOVING and HIDING. */
  lemma SweepMarksNewQueue(s: Layer, zoom: nat)
    requires WellFormed(s)
    requires s.previousZoom.Some? && s.previousZoom != Some(zoom)
    ensures var r := Sweep(s, zoom);
      forall id :: id in SweepAll(s) ==>
        && Live(r, id) && s.tiles[id].loaded && !s.tiles[id].removing
        && r.tiles[id] == s.tiles[id].(removing := true, hiding := true)
  {
    var r := Sweep(s, zoom);
    assert r.tiles == SweptTiles(s);
    forall id | id in SweepAll(s)
      ensures Live(r, id) && s.tiles[id].loaded && !s.tiles[id].removing
      ensures r.tiles[id] == s.tiles[id].(removing := true, hiding := true)
    {
      SweepKeepsLive(s, zoom, id);
    }
  }

  /** The extended queue has no duplicates: the old entries are REMOVING and
      the new ones were not. */
  lemma SweepQueuesDistinct(s: Layer)
    requires WellFormed(s) && InactiveQueued(s)
    ensures Distinct(s.pendingInactive + SweepAll(s))
  {
    var p := s.pendingInactive;
    var q := SweepAll(s);
    forall i, j | 0 <= i < j < |p + q|
      ensures (p + q)[i] != (p + q)[j]
    {
      if j >= |p| && i < |p| {
        assert (p + q)[j] == q[j - |p|] && q[j - |p|] in q;
        assert s.tiles[p[i]].removing;
        assert !s.tiles[q[j - |p|]].removing;
      } else if i >= |p| {
        assert q[i - |p|] != q[j - |p|];
      }
    }
  }

  lemma SweepKeepsQueue(s: Layer, zoom: nat)
    requires WellFormed(s) && InactiveQueued(s)
    ensures InactiveQueued(Sweep(s, zoom))
  {
    if s.previousZoom.Some? && s.previousZoom != Some(zoom) {
      var r := Sweep(s, zoom);
      var p := s.pendingInactive;
      var q := SweepAll(s);
      assert r.pendingInactive == p + q;
      SweepQueuesDistinct(s);
      SweepKeepsOldQueue(s, zoom);
      SweepMarksNewQueue(s, zoom);
      forall i | 0 <= i < |r.pendingInactive|
        ensures var id := r.pendingInactive[i];
          Live(r, id) && r.tiles[id].loaded && r.tiles[id].removing && r.tiles[id].hiding
      {
        assert r.pendingInactive[i] in p || r.pendingInactive[i] in q;
      }
    }
  }




  /** The sweep keeps the layer's invariants. */
  lemma SweepKeepsCore(s: Layer, zoom: nat)
    requires Core(s)
    ensures Core(Sweep(s, zoom))
    ensures Sweep(s, zoom).pendingNew == s.pendingNew
  {
    SweepKeepsTiles(s, zoom);
    SweepKeepsQueue(s, zoom);
  }

  /** A second sweep finds nothing left to queue: with the zoom it just saw
      it does nothing at all, and with yet another zoom it only records the
      zoom and schedules one more callback. */
  lemma SweepSettles(s: Layer, z1: nat, z2: nat)
    requires WellFormed(s) && s.previousZoom.Some? && s.previousZoom != Some(z1)
    ensures Sweep(Sweep(s, z1), z1) == Sweep(s, z1)
    ensures z2 != z1 ==>
      var r := Sweep(s, z1);
      Sweep(r, z2) == r.(previousZoom := Some(z2), timers := r.timers + 1)
  {
    var r := Sweep(s, z1);
    if z2 != z1 {
      var q := SweepAll(r);
      if q != [] {
        assert q[0] in q;
        SweepKeepsLive(s, z1, q[0]);
        SweepTileSettles(s.tiles[q[0]]);
        assert false;
      }
      forall id | id in r.tiles
        ensures SweptTiles(r)[id] == r.tiles[id]
      {
        SweepKeepsLive(s, z1, id);
        if Live(s, id) {
          SweepTileSettles(s.tiles[id]);
        }
      }
      assert SweptTiles(r) == r.tiles;
      assert r.pendingInactive + q == r.pendingInactive;
    }
  }

  /** Under the invariants the queue the callback reads is ready to drain. */
  lemma QueueReady(s: Layer)
    requires WellFormed(s) && InactiveQueued(s)
    ensures DrainReady(s, s.pendingInactive)
  {
  }

  /** The callback changes only REMOVED, REMOVING, HIDING, HIDDEN and the bin,
      and never gives the visible bin. */
  lemma BatchTile(t: Tile)
    requires TileSane(t)
    ensures TileSane(Evicted(t)) && TileSane(HiddenOrKept(t))
    ensures Evicted(t).loading == t.loading && Evicted(t).hasFeature == t.hasFeature
    ensures HiddenOrKept(t).loading == t.loading && HiddenOrKept(t).hasFeature == t.hasFeature
  {
  }

  /** Each tile after the callback is either untouched, evicted or hidden. */
  lemma BatchKeepsTiles(s: Layer)
    requires WellFormed(s) && InactiveQueued(s) && TilesSane(s)
    ensures var r := EvictionBatch(s);
      && TilesSane(r)
      && (forall id :: id in r.tiles ==>
            r.tiles[id].loading == s.tiles[id].loading && r.tiles[id].hasFeature == s.tiles[id].hasFeature)
  {
    var q := s.pendingInactive;
    var r := EvictionBatch(s);
    var e := Evictions(s.cachedTiles, s.maxActiveTiles, |q|);
    QueueReady(s);
    DrainFrame(s, q);
    DrainTiles(s, q);
    forall id | id in r.tiles
      ensures TileSane(r.tiles[id])
      ensures r.tiles[id].loading == s.tiles[id].loading && r.tiles[id].hasFeature == s.tiles[id].hasFeature
    {
      BatchTile(s.tiles[id]);
      if id in q {
        var i :| 0 <= i < |q| && q[i] == id;
        if i < e {
          assert r.tiles[id] == Evicted(s.tiles[id]);
        } else {
          assert r.tiles[id] == HiddenOrKept(s.tiles[id]);
        }
      }
    }
  }

  /** The callback keeps the layer's invariants; the counter keeps counting
      the non-null slots. */
  lemma BatchKeepsCore(s: Layer)
    requires Core(s)
    ensures Core(EvictionBatch(s))
    ensures EvictionBatch(s).pendingNew == s.pendingNew
  {
    QueueReady(s);
    DrainCounter(s, s.pendingInactive);
    BatchKeepsTiles(s);
  }

  /** The number of evictions: min(|queue|, counter - cap) over the cap,
      none otherwise; afterwards the counter is within the cap unless the
      whole queue was evicted. */
  lemma BatchCount(s: Layer)
    requires Core(s)
    ensures var q := s.pendingInactive;
      var e := Evictions(s.cachedTiles, s.maxActiveTiles, |q|);
      var r := EvictionBatch(s);
      && (s.cachedTiles > s.maxActiveTiles ==> e == Min(|q|, s.cachedTiles - s.maxActiveTiles))
      && (s.cachedTiles <= s.maxActiveTiles ==> e == 0)
      && r.cachedTiles == s.cachedTiles - e
      && (r.cachedTiles <= r.maxActiveTiles || e == |q|)
  {
    QueueReady(s);
    DrainCounter(s, s.pendingInactive);
  }

  /** The evicted prefix of the queue. */
  lemma BatchEvicts(s: Layer)
    requires Core(s)
    ensures var q := s.pendingInactive;
      var e := Evictions(s.cachedTiles, s.maxActiveTiles, |q|);
      var r := EvictionBatch(s);
      forall i :: 0 <= i < e ==>
        && !HasTile(r, s.tiles[q[i]].key)
        && r.tiles[q[i]] == s.tiles[q[i]].(removed := true, removing := false, hiding := false)
  {
    QueueReady(s);
    DrainTiles(s, s.pendingInactive);
    DrainSlots(s, s.pendingInactive);
  }

  /** The hidden rest of the queue. */
  lemma BatchHides(s: Layer)
    requires Core(s)
    ensures var q := s.pendingInactive;
      var e := Evictions(s.cachedTiles, s.maxActiveTiles, |q|);
      var r := EvictionBatch(s);
      forall i :: e <= i < |q| ==>
        && s.tiles[q[i]].key in r.store && r.store[s.tiles[q[i]].key] == Holds(q[i])
        && r.tiles[q[i]] == s.tiles[q[i]].(removing := false, hidden := true, bin := Assigned(HiddenBin))
        && r.tiles[q[i]].hiding
  {
    var q := s.pendingInactive;
    var e := Evictions(s.cachedTiles, s.maxActiveTiles, |q|);
    var r := EvictionBatch(s);
    QueueReady(s);
    DrainTiles(s, q);
    DrainSlots(s, q);
    forall i | e <= i < |q|
      ensures r.tiles[q[i]] == s.tiles[q[i]].(removing := false, hidden := true, bin := Assigned(HiddenBin))
    {
      assert s.tiles[q[i]].hiding && s.tiles[q[i]].loaded;
    }
  }

  /** Nothing outside the queue changes. */
  lemma BatchFrame(s: Layer)
    requires Core(s)
    ensures var q := s.pendingInactive;
      var r := EvictionBatch(s);
      && r.store.Keys == s.store.Keys
      && (forall id :: id in s.tiles && id !in q ==> r.tiles[id] == s.tiles[id])
      && (forall k :: k in s.store && (s.store[k].Null? || s.store[k].id !in q) ==> r.store[k] == s.store[k])
  {
    QueueReady(s);
    DrainFrame(s, s.pendingInactive);
    DrainSlots(s, s.pendingInactive);
  }

  /** What one callback does. With e = min(|queue|, counter - cap) when the
      counter is over the cap and e = 0 otherwise, the first e queued tiles
      are evicted in queue order: slot nulled, REMOVED set, REMOVING and
      HIDING cleared, counter down by e. Every later queued tile keeps its
      slot and is hidden: HIDDEN set, REMOVING cleared, hidden bin, HIDING
      left set. Afterwards the counter is within the cap unless the whole
      queue was evicted, the queue is empty, and nothing outside the queue
      has changed. */
  lemma BatchOutcome(s: Layer)
    requires Core(s)
    ensures var q := s.pendingInactive;
      var e := Evictions(s.cachedTiles, s.maxActiveTiles, |q|);
      var r := EvictionBatch(s);
      && (s.cachedTiles > s.maxActiveTiles ==> e == Min(|q|, s.cachedTiles - s.maxActiveTiles))
      && (s.cachedTiles <= s.maxActiveTiles ==> e == 0)
      && r.cachedTiles == s.cachedTiles - e
      && (r.cachedTiles <= r.maxActiveTiles || e == |q|)
      && r.pendingInactive == []
      && r.store.Keys == s.store.Keys
      && (forall i :: 0 <= i < e ==>
            && !HasTile(r, s.tiles[q[i]].key)
            && r.tiles[q[i]] == s.tiles[q[i]].(removed := true, removing := false, hiding := false))
      && (forall i :: e <= i < |q| ==>
            && s.tiles[q[i]].key in r.store && r.store[s.tiles[q[i]].key] == Holds(q[i])
            && r.tiles[q[i]] == s.tiles[q[i]].(removing := false, hidden := true, bin := Assigned(HiddenBin))
            && r.tiles[q[i]].hiding)
      && (forall id :: id in s.tiles && id !in q ==> r.tiles[id] == s.tiles[id])
      && (forall k :: k in s.store && (s.store[k].Null? || s.store[k].id !in q) ==> r.store[k] == s.store[k])
  {
    BatchCount(s);
    BatchEvicts(s);
    BatchHides(s);
    BatchFrame(s);
  }

  /** The callbacks share one queue: once one has drained it, another that
      fires before the next sweep finds it empty and changes nothing. */
  lemma BatchDrainsShared(s: Layer)
    requires WellFormed(s)
    ensures EvictionBatch(EvictionBatch(s)) == EvictionBatch(s)
  {
  }
}
