/**
 * The bookkeeping of DungeonGameImpl.java around the candidate paths: the
 * hash map that marks paths as used (getMapFromPaths), the list of unused
 * paths that buildMst reads back out of it, and what linking extra paths
 * (incorporateInterConnectivity) does to the grid.
 *
 * LocationMap's hashCode depends on the orientation of a path while its
 * equals does not, so the hash map tells two paths apart exactly when they
 * are different values, as long as every path is oriented the same way. The
 * candidates are all oriented from the lower cell to the higher one, and so
 * the map is modelled as a Dafny map keyed by the path value.
 */
module UsedPaths {
  import opened Points
  import opened LocationMaps
  import opened Cells
  import opened Walks
  import opened CandidatePaths

  /** Two equal paths with the same orientation are the same value. */
  lemma OrientedSameIdentical(a: LocationMap, b: LocationMap)
    requires Oriented(a) && Oriented(b) && Same(a, b)
    ensures a == b
  {
  }

  /** getMapFromPaths: every path a key, every key unused. */
  method MapFromPaths(paths: seq<LocationMap>) returns (m: map<LocationMap, bool>)
    ensures forall e :: e in m <==> e in paths
    ensures forall e :: e in m ==> !m[e]
  {
    m := map[];
    for i := 0 to |paths|
      invariant forall e :: e in m <==> e in paths[..i]
      invariant forall e :: e in m ==> !m[e]
    {
      assert paths[..i + 1] == paths[..i] + [paths[i]];
      m := m[paths[i] := false];
    }
    assert paths[..|paths|] == paths;
  }

  /** The distinct paths of a list, in order of first appearance: the keys of its map. */
  function KeysOf(paths: seq<LocationMap>): (keys: seq<LocationMap>)
    ensures forall e :: multiset(keys)[e] == (if e in paths then 1 else 0)
    decreases |paths|
  {
    if paths == [] then []
    else
      var front, e := paths[..|paths| - 1], paths[|paths| - 1];
      assert paths == front + [e];
      var k := KeysOf(front);
      if e in k then k else k + [e]
  }

  /**
   * The iteration order of a hash map's keys is fixed by the hash codes and
   * the table size, which the model leaves open: a function that lists the
   * same keys, in some order.
   */
  ghost predicate Permutes(order: seq<LocationMap> -> seq<LocationMap>) {
    forall s :: multiset(order(s)) == multiset(s)
  }

  /**
   * The last loop of buildMst: the keys, visited in the map's iteration
   * order, whose mark is still false.
   */
  method UnusedPaths(order: seq<LocationMap>, used: map<LocationMap, bool>) returns (r: seq<LocationMap>)
    requires forall k :: 0 <= k < |order| ==> order[k] in used
    ensures forall e :: multiset(r)[e] == (if e in used && !used[e] then multiset(order)[e] else 0)
    ensures forall k :: 0 <= k < |r| ==> r[k] in order
  {
    r := [];
    for i := 0 to |order|
      invariant forall e :: multiset(r)[e] == (if e in used && !used[e] then multiset(order[..i])[e] else 0)
      invariant forall k :: 0 <= k < |r| ==> r[k] in order
    {
      assert order[..i + 1] == order[..i] + [order[i]];
      if !used[order[i]] {
        r := r + [order[i]];
      }
    }
    assert order[..|order|] == order;
  }

  /** Every two cells connected before the extra paths are connected after them. */
  lemma ApplyEdgesConnects(g: Grid, es: seq<LocationMap>, p: Point2D, q: Point2D)
    requires EdgesIn(g, es) && Connected(g, p, q)
    ensures Connected(ApplyEdges(g, es), p, q)
  {
    ApplyEdgesGrows(g, es);
    ConnectedGrows(g, ApplyEdges(g, es), p, q);
  }
}
