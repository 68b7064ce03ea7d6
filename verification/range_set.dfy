/** A set of closed ranges ordered by their starts (src/util/range.h). */
module RangeSets {

  import opened Options

  datatype Range<T> = Range(start: nat, end: nat, data: T)

  ghost predicate Contains<T>(r: Range<T>, key: nat) {
    r.start <= key <= r.end
  }

  /** Ranges are filed under their starts and do not overlap. */
  ghost predicate Apart<T(!new)>(m: map<nat, Range<T>>) {
    && (forall a :: a in m ==> m[a].start == a <= m[a].end)
    && (forall a, b :: a in m && b in m && a < b ==> m[a].end < b)
  }

  /** The greatest key not above `key`. */
  predicate IsFloor<T>(m: map<nat, Range<T>>, key: nat, f: nat) {
    f in m && f <= key && forall a :: a in m && a <= key ==> a <= f
  }

  lemma {:induction false} HasFloor<T>(m: map<nat, Range<T>>, key: nat, a: nat)
    requires a in m && a <= key
    ensures exists f :: IsFloor(m, key, f)
    decreases key - a
  {
    if b :| b in m && a < b <= key {
      HasFloor(m, key, b);
    } else {
      assert IsFloor(m, key, a);
    }
  }

  lemma FloorIsKey<T>(m: map<nat, Range<T>>, key: nat)
    ensures forall f: nat :: IsFloor(m, key, f) ==> f in m && f <= key
  {
  }

  lemma FloorIs<T>(m: map<nat, Range<T>>, key: nat)
    ensures forall f :: f in m && f <= key && (forall a :: a in m && a <= key ==> a <= f) ==> IsFloor(m, key, f)
  {
  }

  lemma OneFloor<T>(m: map<nat, Range<T>>, key: nat, f: nat, g: nat)
    requires IsFloor(m, key, f) && IsFloor(m, key, g)
    ensures f == g
  {
  }

  /** The range found for a key: the one with the greatest start not above the key, if it reaches that far. */
  ghost function Found<T(!new)>(m: map<nat, Range<T>>, key: nat): Option<Range<T>> {
    if f :| IsFloor(m, key, f) && key <= m[f].end then Some(m[f]) else None
  }

  lemma NoFloor<T(!new)>(m: map<nat, Range<T>>, key: nat)
    requires forall a :: a in m ==> key < a
    ensures Found(m, key).None?
  {
  }

  lemma FloorFinds<T(!new)>(m: map<nat, Range<T>>, key: nat, f: nat)
    requires IsFloor(m, key, f)
    ensures f in m && Found(m, key) == if key <= m[f].end then Some(m[f]) else None
  {
    forall g | IsFloor(m, key, g) ensures g == f {
    }
  }

  function DataOf<T>(r: Option<Range<T>>): Option<T> {
    match r case None => None case Some(range) => Some(range.data)
  }

  /** Among ranges that do not overlap, the range found is the one that contains the key. */
  lemma FoundContains<T(!new)>(m: map<nat, Range<T>>, key: nat, r: Range<T>)
    requires Apart(m)
    ensures Found(m, key) == Some(r) <==> r.start in m && m[r.start] == r && Contains(r, key)
  {
    if r.start in m && m[r.start] == r && Contains(r, key) {
      assert IsFloor(m, key, r.start);
    }
  }

  class RangeSet<T(!new)> {
    var startMap: map<nat, Range<T>>

    constructor ()
      ensures startMap == map[]
    {
      startMap := map[];
    }

    /** An entry that is already there is kept. */
    method Insert(start: nat, end: nat, data: T) returns (ok: bool)
      requires start <= end
      modifies this
      ensures ok && startMap == if start in old(startMap) then old(startMap)
              else old(startMap)[start := Range(start, end, data)]
    {
      if start !in startMap { startMap := startMap[start := Range(start, end, data)]; }
      return true;
    }

    method GetRange(key: nat) returns (r: Option<Range<T>>)
      ensures r == Found(startMap, key)
      ensures forall f :: f in startMap && f <= key && (forall a :: a in startMap && a <= key ==> a <= f) ==>
                r == if key <= startMap[f].end then Some(startMap[f]) else None
      ensures (forall a :: a in startMap ==> key < a) ==> r == None
    {
      FloorIs(startMap, key);
      hide IsFloor, Found;
      if a :| a in startMap && a <= key {
        HasFloor(startMap, key, a);
        FloorIsKey(startMap, key);
        var it :| it in startMap && IsFloor(startMap, key, it);
        FloorFinds(startMap, key, it);
        forall f: nat | IsFloor(startMap, key, f) ensures f == it { OneFloor(startMap, key, f, it); }
        if startMap[it].end < key { return None; }
        return Some(startMap[it]);
      }
      NoFloor(startMap, key);
      return None;
    }

    method GetData(key: nat) returns (data: Option<T>)
      ensures data == DataOf(Found(startMap, key))
    {
      var r := GetRange(key);
      match r {
        case None => return None;
        case Some(range) => return Some(range.data);
      }
    }

    /** Removes the range that starts at the key, if the key is found to lie in it. */
    method Remove(start: nat) returns (ok: bool)
      modifies this
      ensures ok <==> Found(old(startMap), start).Some? && Found(old(startMap), start).value.start == start
      ensures startMap == if ok then old(startMap) - {start} else old(startMap)
    {
      var probe := GetRange(start);
      if probe.Some? {
        if probe.value.start == start {
          startMap := startMap - {start};
          return true;
        }
      }
      return false;
    }
  }
}
