/**
 * A candidate path between two cells (LocationMap.java), identified by its two
 * end points. Two paths are equal when they join the same two cells, in either
 * orientation.
 */
module LocationMaps {
  import opened Points

  datatype LocationMap = LocationMap(source: Point2D, dest: Point2D)

  /** LocationMap.equals for an argument that is a LocationMap. */
  predicate Same(a: LocationMap, b: LocationMap) {
    (a.source == b.source && a.dest == b.dest) || (a.source == b.dest && a.dest == b.source)
  }

  /** LocationMap.equals: never equal to an object of another class. */
  predicate Equals(a: LocationMap, o: Object<LocationMap>) {
    match o
    case OtherClass => false
    case Instance(b) => Same(a, b)
  }

  /** The two cells a path joins. */
  function Ends(a: LocationMap): set<Point2D> {
    {a.source, a.dest}
  }

  /** Equality of paths is equality of their sets of end cells. */
  lemma {:induction false} SameIffSameEnds(a: LocationMap, b: LocationMap)
    ensures Same(a, b) <==> Ends(a) == Ends(b)
  {
    if Ends(a) == Ends(b) {
      assert a.source in Ends(b) && a.dest in Ends(b);
      assert b.source in Ends(a) && b.dest in Ends(a);
    }
  }

  /** Path equality is an equivalence, and reversing a path gives an equal path. */
  lemma {:induction false} SameIsEquivalence(a: LocationMap, b: LocationMap, c: LocationMap)
    ensures Same(a, a)
    ensures Same(a, b) ==> Same(b, a)
    ensures Same(a, b) && Same(b, c) ==> Same(a, c)
    ensures Same(a, LocationMap(a.dest, a.source))
  {
    SameIffSameEnds(a, b);
    SameIffSameEnds(b, c);
    SameIffSameEnds(a, c);
  }

  /** Lexicographic order on points, used to pick one orientation of a path. */
  predicate Below(p: Point2D, q: Point2D) {
    p.x < q.x || (p.x == q.x && p.y <= q.y)
  }

  /**
   * The canonical orientation of a path, standing for the class of equal paths:
   * the key under which the hash map of used paths files it.
   */
  function Canonical(a: LocationMap): (k: LocationMap)
    ensures Same(a, k)
    ensures Below(k.source, k.dest)
  {
    if Below(a.source, a.dest) then a else LocationMap(a.dest, a.source)
  }

  /** Two paths are equal exactly when they have the same canonical key. */
  lemma {:induction false} SameIffSameKey(a: LocationMap, b: LocationMap)
    ensures Same(a, b) <==> Canonical(a) == Canonical(b)
  {
    var ka, kb := Canonical(a), Canonical(b);
    if Same(a, b) {
      SameIsEquivalence(ka, a, b);
      SameIsEquivalence(ka, b, kb);
      assert Same(ka, kb);
    }
    if ka == kb {
      SameIsEquivalence(a, ka, b);
      SameIsEquivalence(b, kb, a);
    }
  }
}
