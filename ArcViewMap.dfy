/**
 * The board view's adjacency table: an exact index from (position, direction)
 * to the arc view stored there, and a multi-valued index from a position to the
 * set of arc views touching it. The sets of the second index are heap objects
 * (the source's HashSet values): `GetArcs` hands the live set to its caller,
 * `Add` grows a stored set in place, and `Reset` shares the sets of the map it
 * copies, so two maps can end up holding the same set object.
 */
module ArcViewMaps {
  import opened CoreData

  /** The visual of one arc; only its identity matters here. */
  class ArcView {
    constructor ()
    {
    }
  }

  /** A mutable set of arc views (the source's `HashSet<ArcView>`). */
  class ArcSet {
    var elems: set<ArcView>

    constructor Empty()
      ensures elems == {}
    {
      elems := {};
    }

    constructor Singleton(a: ArcView)
      ensures elems == {a}
    {
      elems := {a};
    }

    method Add(a: ArcView)
      modifies this
      ensures elems == old(elems) + {a}
    {
      elems := elems + {a};
    }
  }

  /** The keys of the exact index that a position can occupy, one per direction. */
  function KeysAt(pos: Point): (ks: set<PointDir>)
    ensures forall d: Direction :: PointDir(pos, d) in ks
    ensures forall pd | pd in ks :: pd.pos == pos
  {
    forall d: Direction ensures PointDir(pos, d) in set e | e in AllDirections :: PointDir(pos, e) {
      AllDirectionsComplete(d);
    }
    set e | e in AllDirections :: PointDir(pos, e)
  }

  /** Storing a value under a new key adds exactly that value to the map's values. */
  lemma ValuesOfNewKey<K, V>(m: map<K, V>, k: K, v: V)
    requires k !in m
    ensures m[k := v].Values == m.Values + {v}
  {
    var m' := m[k := v];
    forall x | x in m'.Values ensures x in m.Values + {v} {
      var j :| j in m' && m'[j] == x;
      if j != k {
        assert m[j] == x;
      }
    }
    forall x | x in m.Values + {v} ensures x in m'.Values {
      if x == v {
        assert m'[k] == x;
      } else {
        var j :| j in m && m[j] == x;
        assert m'[j] == x;
      }
    }
  }

  class ArcViewMap {
    var arcMap: map<PointDir, ArcView>
    var arcSet: map<Point, ArcSet>

    /**
     * The cross-index invariant: every exact entry is a member of its position's
     * set, every member of a position's set is stored under that position in
     * some direction, and no two positions share one set object.
     */
    ghost predicate Valid()
      reads this, arcSet.Values
    {
      && (forall pd | pd in arcMap :: pd.pos in arcSet && arcMap[pd] in arcSet[pd.pos].elems)
      && (forall p, a | p in arcSet && a in arcSet[p].elems ::
            exists d :: PointDir(p, d) in arcMap && arcMap[PointDir(p, d)] == a)
      && (forall p, q | p in arcSet && q in arcSet && p != q :: arcSet[p] != arcSet[q])
    }

    /** Every arc view any position's set holds. */
    ghost function IndexedArcs(): set<ArcView>
      reads this, arcSet.Values
    {
      set p, a | p in arcSet && a in arcSet[p].elems :: a
    }

    constructor ()
      ensures Valid()
      ensures arcMap == map[] && arcSet == map[]
    {
      arcMap := map[];
      arcSet := map[];
    }

    /** The `Arcs` view: the values of the exact index. */
    function Arcs(): (r: set<ArcView>)
      reads this
    {
      arcMap.Values
    }

    /** Both indices list the same arc views. */
    lemma ArcsMatchSetIndex()
      requires Valid()
      ensures Arcs() == IndexedArcs()
    {
    }

    /** A set member that no direction of its position stores breaks the invariant. */
    lemma OrphanBreaksValid(p: Point, b: ArcView)
      requires p in arcSet && b in arcSet[p].elems
      requires b !in Arcs()
      ensures !Valid()
    {
    }

    /**
     * Whether an arc is stored at exactly (pos, dir); under the invariant, one
     * that is, is also in pos's set.
     */
    function ContainsArc(pos: Point, dir: Direction): (r: bool)
      reads this, arcSet.Values
      ensures r <==> PointDir(pos, dir) in arcMap
      ensures Valid() && r ==> pos in arcSet && arcMap[PointDir(pos, dir)] in arcSet[pos].elems
    {
      PointDir(pos, dir) in arcMap
    }

    /** Looks up (pos, dir); on a miss the out value is null, as C#'s `out` default. */
    method TryGetArc(pos: Point, dir: Direction) returns (found: bool, arc: ArcView?)
      ensures found <==> ContainsArc(pos, dir)
      ensures found ==> arc == arcMap[PointDir(pos, dir)] && arc in Arcs()
      ensures found && Valid() ==> pos in arcSet && arc in arcSet[pos].elems
      ensures !found ==> arc == null
    {
      found := PointDir(pos, dir) in arcMap;
      if found {
        arc := arcMap[PointDir(pos, dir)];
      } else {
        arc := null;
      }
    }

    /**
     * The live set of arcs touching pos. On a miss a fresh empty set is stored
     * for pos and returned, so a later call returns that same object.
     */
    method GetArcs(pos: Point) returns (s: ArcSet)
      modifies this
      ensures old(Valid()) ==> Valid()
      ensures arcMap == old(arcMap)
      ensures pos in arcSet && s == arcSet[pos]
      ensures old(pos in arcSet) ==> arcSet == old(arcSet)
      ensures old(pos !in arcSet) ==> fresh(s) && s.elems == {} && arcSet == old(arcSet)[pos := s]
    {
      if pos in arcSet {
        s := arcSet[pos];
        return;
      }
      s := new ArcSet.Empty();
      arcSet := arcSet[pos := s];
    }

    /**
     * Stores a at (pos, dir) and adds it to pos's set. A key that is already
     * present is refused (the source's Dictionary.Add throws) and nothing changes.
     */
    method Add(pos: Point, dir: Direction, a: ArcView) returns (added: bool)
      modifies this, if pos in arcSet then {arcSet[pos]} else {}
      ensures old(Valid()) ==> Valid()
      ensures added <==> old(PointDir(pos, dir) !in arcMap)
      ensures !added ==> arcMap == old(arcMap) && arcSet == old(arcSet)
      ensures !added && pos in arcSet ==> arcSet[pos].elems == old(arcSet[pos].elems)
      ensures added ==> arcMap == old(arcMap)[PointDir(pos, dir) := a]
      ensures added ==> ContainsArc(pos, dir) && pos in arcSet && a in arcSet[pos].elems
      ensures added && old(pos in arcSet) ==>
        arcSet == old(arcSet) && arcSet[pos].elems == old(arcSet[pos].elems) + {a}
      ensures added && old(pos !in arcSet) ==>
        fresh(arcSet[pos]) && arcSet[pos].elems == {a} && arcSet == old(arcSet)[pos := arcSet[pos]]
      ensures added ==> Arcs() == old(Arcs()) + {a}
    {
      var key := PointDir(pos, dir);
      if key in arcMap {
        return false;
      }
      ValuesOfNewKey(arcMap, key, a);
      arcMap := arcMap[key := a];
      added := true;
      if pos in arcSet {
        var arcs := arcSet[pos];
        arcs.Add(a);
        if old(Valid()) {
          forall q | q in arcSet && q != pos ensures arcSet[q].elems == old(arcSet[q].elems) {
            assert old(arcSet[q]) != old(arcSet[pos]);
          }
          forall p, b | p in arcSet && b in arcSet[p].elems
            ensures exists d :: PointDir(p, d) in arcMap && arcMap[PointDir(p, d)] == b
          {
            if p == pos && b == a {
              assert arcMap[key] == a;
            } else {
              assert b in old(arcSet[p].elems);
              var d :| PointDir(p, d) in old(arcMap) && old(arcMap)[PointDir(p, d)] == b;
              assert arcMap[PointDir(p, d)] == b;
            }
          }
        }
        return;
      }
      var arcs := new ArcSet.Singleton(a);
      arcSet := arcSet[pos := arcs];
      if old(Valid()) {
        forall p, b | p in arcSet && b in arcSet[p].elems
          ensures exists d :: PointDir(p, d) in arcMap && arcMap[PointDir(p, d)] == b
        {
          if p == pos {
            assert arcMap[key] == a;
          } else {
            var d :| PointDir(p, d) in old(arcMap) && old(arcMap)[PointDir(p, d)] == b;
            assert arcMap[PointDir(p, d)] == b;
          }
        }
      }
    }

    /**
     * Removes every direction's entry at pos from the exact index and pos
     * from the set index; reports only whether the set index had pos.
     */
    method Remove(pos: Point) returns (removed: bool)
      modifies this
      ensures old(Valid()) ==> Valid()
      ensures removed <==> old(pos in arcSet)
      ensures arcMap == old(arcMap) - KeysAt(pos)
      ensures arcSet == old(arcSet) - {pos}
      ensures forall d: Direction :: !ContainsArc(pos, d)
      ensures Arcs() <= old(Arcs())
    {
      var i := 0;
      while i < |AllDirections|
        invariant 0 <= i <= |AllDirections|
        invariant arcSet == old(arcSet)
        invariant arcMap == old(arcMap) - set j | 0 <= j < i :: PointDir(pos, AllDirections[j])
      {
        ghost var done := set j | 0 <= j < i :: PointDir(pos, AllDirections[j]);
        assert (set j | 0 <= j < i + 1 :: PointDir(pos, AllDirections[j])) == done + {PointDir(pos, AllDirections[i])};
        arcMap := arcMap - {PointDir(pos, AllDirections[i])};
        i := i + 1;
      }
      assert (set j | 0 <= j < |AllDirections| :: PointDir(pos, AllDirections[j])) == KeysAt(pos);
      removed := pos in arcSet;
      arcSet := arcSet - {pos};
    }

    /** Empties both indices. */
    method Clear()
      modifies this
      ensures Valid()
      ensures arcMap == map[] && arcSet == map[]
      ensures Arcs() == {}
      ensures forall p: Point, d: Direction :: !ContainsArc(p, d)
    {
      arcMap := map[];
      arcSet := map[];
    }

    /**
     * Replaces this map's contents by other's: the exact entries are copied and
     * the set index gets other's set OBJECTS (a shallow copy). Resetting a map
     * from itself empties it, because both indices are cleared before the copy
     * reads them.
     */
    method Reset(other: ArcViewMap)
      modifies this
      ensures old(other.Valid()) ==> Valid()
      ensures other == this ==> arcMap == map[] && arcSet == map[]
      // the values of arcSet are ArcSet references, so the two maps now share set objects
      ensures other != this ==> arcMap == other.arcMap && arcSet == other.arcSet
    {
      arcMap := map[];
      arcSet := map[];

      var srcMap := other.arcMap;
      var pending := srcMap.Keys;
      while pending != {}
        invariant pending <= srcMap.Keys
        invariant arcMap.Keys == srcMap.Keys - pending
        invariant forall k | k in arcMap :: arcMap[k] == srcMap[k]
        invariant arcSet == map[]
        decreases pending
      {
        var k :| k in pending;
        assert k !in arcMap;
        arcMap := arcMap[k := srcMap[k]];
        pending := pending - {k};
      }

      var srcSet := other.arcSet;
      var pendingPos := srcSet.Keys;
      while pendingPos != {}
        invariant pendingPos <= srcSet.Keys
        invariant arcSet.Keys == srcSet.Keys - pendingPos
        invariant forall p | p in arcSet :: arcSet[p] == srcSet[p]
        invariant arcMap == srcMap
        decreases pendingPos
      {
        var p :| p in pendingPos;
        assert p !in arcSet;
        arcSet := arcSet[p := srcSet[p]];
        pendingPos := pendingPos - {p};
      }
    }
  }

  /**
   * A consequence of the shallow copy in Reset: adding a new arc to the copy at
   * a position the original also holds grows the original's set too, so the
   * original's set index then lists an arc its exact index never stored.
   */
  method AddAfterResetBreaksOriginal(original: ArcViewMap, p: Point, d: Direction, a: ArcView)
    returns (copy: ArcViewMap)
    requires original.Valid()
    requires p in original.arcSet && PointDir(p, d) !in original.arcMap && a !in original.Arcs()
    modifies original.arcSet[p]
    ensures fresh(copy) && copy.Valid() && copy.ContainsArc(p, d)
    ensures copy.arcSet[p] == original.arcSet[p] && a in original.arcSet[p].elems
    ensures !original.Valid() && !original.ContainsArc(p, d)
  {
    copy := new ArcViewMap();
    copy.Reset(original);
    ghost var originalMap := original.arcMap;
    var added := copy.Add(p, d, a);
    assert original.arcMap == originalMap;
    original.OrphanBreaksValid(p, a);
  }
}
