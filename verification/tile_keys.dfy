/**
  Keys of the tile store and the order in which a `for ... in` walk of the
  nested store (`m_tiles[zoom][x][y]`) visits them. All keys are
  non-negative integers, and JavaScript enumerates integer-like property
  names in ascending numeric order, so the walk is lexicographic on
  (zoom, x, y).
 */
module TileKeys {

  datatype Key = Key(zoom: nat, x: nat, y: nat)

  /** Lexicographic order on (zoom, x, y). */
  predicate KeyLess(a: Key, b: Key)
  {
    || a.zoom < b.zoom
    || (a.zoom == b.zoom && a.x < b.x)
    || (a.zoom == b.zoom && a.x == b.x && a.y < b.y)
  }

  predicate KeyLeq(a: Key, b: Key)
  {
    a == b || KeyLess(a, b)
  }

  predicate IsMinimum(m: Key, ks: set<Key>)
  {
    m in ks && forall k :: k in ks ==> KeyLeq(m, k)
  }

  lemma {:induction false} MinimumExists(ks: set<Key>)
    requires ks != {}
    ensures exists m :: IsMinimum(m, ks)
    decreases |ks|
  {
    var k :| k in ks;
    if ks == {k} {
      assert IsMinimum(k, ks);
    } else {
      var rest := ks - {k};
      MinimumExists(rest);
      var m :| IsMinimum(m, rest);
      if KeyLess(k, m) {
        forall j | j in ks
          ensures KeyLeq(k, j)
        {
          if j != k {
            assert j in rest && KeyLeq(m, j);
          }
        }
        assert IsMinimum(k, ks);
      } else {
        assert IsMinimum(m, ks);
      }
    }
  }

  /** The first key of the walk. */
  function MinKey(ks: set<Key>): (m: Key)
    requires ks != {}
    ensures m in ks
    ensures forall k :: k in ks ==> KeyLeq(m, k)
  {
    MinimumExists(ks);
    var m :| IsMinimum(m, ks);
    m
  }

  ghost predicate StrictlyAscending(r: seq<Key>)
  {
    forall i, j :: 0 <= i < j < |r| ==> KeyLess(r[i], r[j])
  }

  /** The store's keys in walk order: each key exactly once, ascending. */
  function SortedKeys(ks: set<Key>): (r: seq<Key>)
    ensures |r| == |ks|
    ensures forall k :: k in ks <==> k in r
    ensures StrictlyAscending(r)
    decreases |ks|
  {
    if ks == {} then []
    else
      var m := MinKey(ks);
      [m] + SortedKeys(ks - {m})
  }
}
