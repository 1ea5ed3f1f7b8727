/**
 * The candidate paths of the dungeon builder (DungeonGameImpl.java,
 * makePotentialPaths): every pair of grid neighbours once, compared with
 * LocationMap equality, followed when wrapping by one top-bottom path per
 * column and one left-right path per row, appended without that comparison.
 * Only the coordinates of the cells are read, so the paths are built from
 * the grid's dimensions.
 */
module CandidatePaths {
  import opened Outcomes
  import opened Points
  import opened LocationMaps
  import opened Layout

  /** List.contains with LocationMap.equals. */
  predicate ContainsPath(s: seq<LocationMap>, m: LocationMap) {
    exists k :: 0 <= k < |s| && Same(s[k], m)
  }

  /** No two paths of s are equal. */
  predicate Distinct(s: seq<LocationMap>) {
    forall i, j {:trigger Same(s[i], s[j])} :: 0 <= i < j < |s| ==> !Same(s[i], s[j])
  }

  /** A path between two neighbouring cells of the rows x cols grid. */
  predicate GridPath(rows: int, cols: int, e: LocationMap) {
    Inside(rows, cols, e.source) && Inside(rows, cols, e.dest) && GridAdjacent(e.source, e.dest)
  }

  /** A path from the lower cell to the higher one, in row-major order. */
  predicate Oriented(e: LocationMap) {
    Below(e.source, e.dest)
  }

  /** Both ends inside the grid, from the lower cell to the higher one. */
  predicate Candidate(rows: int, cols: int, e: LocationMap) {
    Inside(rows, cols, e.source) && Inside(rows, cols, e.dest) && Oriented(e)
  }

  /** Distinct grid paths only, each from the lower cell to the higher one. */
  predicate GridPaths(rows: int, cols: int, s: seq<LocationMap>) {
    Distinct(s) && forall k :: 0 <= k < |s| ==> GridPath(rows, cols, s[k]) && Oriented(s[k])
  }

  /** Every path from p to a neighbour inside the grid is in s. */
  ghost predicate CoversCell(rows: int, cols: int, s: seq<LocationMap>, p: Point2D) {
    forall q :: Inside(rows, cols, q) && GridAdjacent(p, q) ==> ContainsPath(s, LocationMap(p, q))
  }

  /** The top-bottom paths of columns 0..n-1. */
  function ColumnWraps(rows: int, n: nat): (r: seq<LocationMap>)
    ensures |r| == n
    ensures forall c :: 0 <= c < n ==> r[c] == LocationMap(Point2D(0, c), Point2D(rows - 1, c))
  {
    if n == 0 then [] else ColumnWraps(rows, n - 1) + [LocationMap(Point2D(0, n - 1), Point2D(rows - 1, n - 1))]
  }

  /** The left-right paths of rows 0..n-1. */
  function RowWraps(cols: int, n: nat): (r: seq<LocationMap>)
    ensures |r| == n
    ensures forall w :: 0 <= w < n ==> r[w] == LocationMap(Point2D(w, 0), Point2D(w, cols - 1))
  {
    if n == 0 then [] else RowWraps(cols, n - 1) + [LocationMap(Point2D(n - 1, 0), Point2D(n - 1, cols - 1))]
  }

  /** The paths the wrapping step appends: north-south per column, then east-west per row. */
  function WrapPaths(rows: nat, cols: nat): (r: seq<LocationMap>)
    ensures |r| == cols + rows
  {
    ColumnWraps(rows, cols) + RowWraps(cols, rows)
  }

  /** The wrapping paths of a grid with no cells or with cells in both dimensions are candidates. */
  lemma WrapCandidates(rows: nat, cols: nat)
    requires (rows == 0) == (cols == 0)
    ensures forall k :: 0 <= k < |WrapPaths(rows, cols)| ==> Candidate(rows, cols, WrapPaths(rows, cols)[k])
  {
    var w := WrapPaths(rows, cols);
    forall k | 0 <= k < |w| ensures Candidate(rows, cols, w[k]) {
      if k < cols {
        assert w[k] == ColumnWraps(rows, cols)[k];
      } else {
        assert w[k] == RowWraps(cols, rows)[k - cols];
      }
    }
  }

  function WrapCount(rows: int, cols: int, wrapping: bool): int {
    if wrapping then rows + cols else 0
  }

  /** Every path of s starts at a cell before (row, col) in row-major order. */
  predicate SourcesBefore(s: seq<LocationMap>, row: int, col: int) {
    forall k :: 0 <= k < |s| ==> s[k].source.x < row || (s[k].source.x == row && s[k].source.y < col)
  }

  /** Row-major order of points, strict. */
  predicate PointBefore(p: Point2D, q: Point2D) {
    p.x < q.x || (p.x == q.x && p.y < q.y)
  }

  /** Paths ordered by their source cell, then by their far cell, both in row-major order. */
  predicate PathBefore(a: LocationMap, b: LocationMap) {
    PointBefore(a.source, b.source) || (a.source == b.source && PointBefore(a.dest, b.dest))
  }

  /** Each path of s comes after the one before it. */
  predicate PathsInOrder(s: seq<LocationMap>) {
    forall i :: 0 < i < |s| ==> PathBefore(s[i - 1], s[i])
  }

  /** Every path of s comes before m. */
  predicate AllBefore(s: seq<LocationMap>, m: LocationMap) {
    forall k :: 0 <= k < |s| ==> PathBefore(s[k], m)
  }

  lemma InOrderAppend(s: seq<LocationMap>, m: LocationMap)
    requires PathsInOrder(s) && AllBefore(s, m)
    ensures PathsInOrder(s + [m])
  {
    forall i | 0 < i < |s + [m]| ensures PathBefore((s + [m])[i - 1], (s + [m])[i]) {
      if i == |s| {
        assert (s + [m])[i - 1] == s[|s| - 1];
      } else {
        assert (s + [m])[i - 1] == s[i - 1] && (s + [m])[i] == s[i];
      }
    }
  }

  /** Ordered neighbour by neighbour is ordered throughout: s is strictly increasing. */
  lemma {:induction false} InOrderSorted(s: seq<LocationMap>)
    requires PathsInOrder(s)
    ensures forall i, j :: 0 <= i < j < |s| ==> PathBefore(s[i], s[j])
  {
    if |s| > 1 {
      var t := s[..|s| - 1];
      assert PathsInOrder(t) by {
        forall i | 0 < i < |t| ensures PathBefore(t[i - 1], t[i]) {
          assert t[i - 1] == s[i - 1] && t[i] == s[i];
        }
      }
      InOrderSorted(t);
      forall i, j | 0 <= i < j < |s| ensures PathBefore(s[i], s[j]) {
        if j < |s| - 1 {
          assert s[i] == t[i] && s[j] == t[j];
        } else if i < j - 1 {
          assert s[i] == t[i] && s[j - 1] == t[j - 1];
          assert PathBefore(s[i], s[j - 1]);
        }
      }
    }
  }

  /** `if (!potentialPaths.contains(m)) potentialPaths.add(m)`. */
  function AddNew(s: seq<LocationMap>, m: LocationMap): (r: seq<LocationMap>)
    ensures ContainsPath(r, m)
    ensures s <= r && (r == s || r == s + [m])
    ensures Distinct(s) ==> Distinct(r)
  {
    if ContainsPath(s, m) then s
    else
      assert (s + [m])[|s|] == m;
      s + [m]
  }

  lemma ContainsPrefix(s: seq<LocationMap>, t: seq<LocationMap>, e: LocationMap)
    requires s <= t && ContainsPath(s, e)
    ensures ContainsPath(t, e)
  {
    var k :| 0 <= k < |s| && Same(s[k], e);
    assert t[k] == s[k];
  }

  lemma CoversPrefix(rows: int, cols: int, s: seq<LocationMap>, t: seq<LocationMap>)
    requires s <= t
    ensures forall p :: CoversCell(rows, cols, s, p) ==> CoversCell(rows, cols, t, p)
  {
    forall p, q | CoversCell(rows, cols, s, p) && Inside(rows, cols, q) && GridAdjacent(p, q)
      ensures ContainsPath(t, LocationMap(p, q))
    {
      ContainsPrefix(s, t, LocationMap(p, q));
    }
  }

  /** Every cell before (row, col) in row-major order has all its paths in s. */
  ghost predicate CoveredBefore(rows: int, cols: int, s: seq<LocationMap>, row: int, col: int) {
    forall p :: Inside(rows, cols, p) && (p.x < row || (p.x == row && p.y < col)) ==> CoversCell(rows, cols, s, p)
  }

  /** The paths from the west and north neighbours of (row, col) are listed once the cells before it are covered. */
  lemma NeighboursListed(rows: int, cols: int, s: seq<LocationMap>, row: int, col: int)
    requires 0 <= row < rows && 0 <= col < cols
    requires CoveredBefore(rows, cols, s, row, col)
    ensures col - 1 >= 0 ==> ContainsPath(s, LocationMap(Point2D(row, col - 1), Point2D(row, col)))
    ensures row - 1 >= 0 ==> ContainsPath(s, LocationMap(Point2D(row - 1, col), Point2D(row, col)))
  {
    if col - 1 >= 0 {
      assert CoversCell(rows, cols, s, Point2D(row, col - 1));
      assert Inside(rows, cols, Point2D(row, col)) && GridAdjacent(Point2D(row, col - 1), Point2D(row, col));
    }
    if row - 1 >= 0 {
      assert CoversCell(rows, cols, s, Point2D(row - 1, col));
      assert Inside(rows, cols, Point2D(row, col)) && GridAdjacent(Point2D(row - 1, col), Point2D(row, col));
    }
  }

  /** Covering (row, col) in an extension of s moves the covered prefix one cell on. */
  lemma CoveredNext(rows: int, cols: int, s: seq<LocationMap>, t: seq<LocationMap>, row: int, col: int)
    requires s <= t
    requires CoveredBefore(rows, cols, s, row, col)
    requires CoversCell(rows, cols, t, Point2D(row, col))
    ensures CoveredBefore(rows, cols, t, row, col + 1)
  {
    CoversPrefix(rows, cols, s, t);
  }

  /** Covering the whole of a row is covering up to the start of the next one. */
  lemma CoveredRow(rows: int, cols: int, s: seq<LocationMap>, row: int)
    requires CoveredBefore(rows, cols, s, row, cols)
    ensures CoveredBefore(rows, cols, s, row + 1, 0)
  {
  }

  /** A path the list already holds in the other orientation is never appended. */
  lemma AddNewGrid(rows: int, cols: int, s: seq<LocationMap>, m: LocationMap)
    requires GridPaths(rows, cols, s) && GridPath(rows, cols, m) && (Oriented(m) || ContainsPath(s, m))
    ensures GridPaths(rows, cols, AddNew(s, m))
  {
  }

  /** A path from a to b in s is, in t, a path from b to a. */
  lemma KnownReversed(s: seq<LocationMap>, t: seq<LocationMap>, a: Point2D, b: Point2D)
    requires s <= t && ContainsPath(s, LocationMap(a, b))
    ensures ContainsPath(t, LocationMap(b, a))
  {
    var k :| 0 <= k < |s| && Same(s[k], LocationMap(a, b));
    assert t[k] == s[k] && Same(t[k], LocationMap(b, a));
  }

  /**
   * The four steps of the loop body for the cell (row, col): r is the list
   * after the east and west steps and u the list after the north and south
   * steps; each step that applies leaves its path in the list.
   */
  lemma CellCovered(rows: int, cols: int, r: seq<LocationMap>, u: seq<LocationMap>, row: int, col: int)
    requires r <= u
    requires col + 1 <= cols - 1 ==> ContainsPath(r, LocationMap(Point2D(row, col), Point2D(row, col + 1)))
    requires col - 1 >= 0 ==> ContainsPath(r, LocationMap(Point2D(row, col), Point2D(row, col - 1)))
    requires row - 1 >= 0 ==> ContainsPath(u, LocationMap(Point2D(row, col), Point2D(row - 1, col)))
    requires row + 1 <= rows - 1 ==> ContainsPath(u, LocationMap(Point2D(row, col), Point2D(row + 1, col)))
    ensures CoversCell(rows, cols, u, Point2D(row, col))
  {
    if col + 1 <= cols - 1 { ContainsPrefix(r, u, LocationMap(Point2D(row, col), Point2D(row, col + 1))); }
    if col - 1 >= 0 { ContainsPrefix(r, u, LocationMap(Point2D(row, col), Point2D(row, col - 1))); }
  }

  /** One `if` of the loop body: the path m is added when the neighbour is inside the grid. */
  method AddIfInside(rows: int, cols: int, paths: seq<LocationMap>, inside: bool, m: LocationMap)
    returns (r: seq<LocationMap>)
    requires GridPaths(rows, cols, paths) && PathsInOrder(paths)
    requires inside ==> GridPath(rows, cols, m) && (Oriented(m) || ContainsPath(paths, m))
    requires inside ==> ContainsPath(paths, m) || AllBefore(paths, m)
    ensures GridPaths(rows, cols, r) && PathsInOrder(r)
    ensures paths <= r
    ensures inside ==> ContainsPath(r, m)
    ensures r == if inside && !ContainsPath(paths, m) then paths + [m] else paths
  {
    r := paths;
    if inside {
      AddNewGrid(rows, cols, r, m);
      if !ContainsPath(r, m) {
        InOrderAppend(r, m);
      }
      r := AddNew(r, m);
    }
  }

  /** After the east step of (row, col) every listed path still starts no later, and comes before its south path. */
  lemma EastStep(paths: seq<LocationMap>, r: seq<LocationMap>, row: int, col: int)
    requires SourcesBefore(paths, row, col)
    requires r == paths || r == paths + [LocationMap(Point2D(row, col), Point2D(row, col + 1))]
    ensures SourcesBefore(r, row, col + 1)
    ensures AllBefore(r, LocationMap(Point2D(row, col), Point2D(row + 1, col)))
  {
  }

  /** The east and west steps of the loop body for the cell (row, col). */
  method AddRowNeighbours(rows: int, cols: int, paths: seq<LocationMap>, row: int, col: int)
    returns (r: seq<LocationMap>)
    requires 0 <= row < rows && 0 <= col < cols
    requires GridPaths(rows, cols, paths) && PathsInOrder(paths)
    requires col - 1 >= 0 ==> ContainsPath(paths, LocationMap(Point2D(row, col - 1), Point2D(row, col)))
    requires SourcesBefore(paths, row, col)
    ensures GridPaths(rows, cols, r) && PathsInOrder(r)
    ensures paths <= r
    ensures col + 1 <= cols - 1 ==> ContainsPath(r, LocationMap(Point2D(row, col), Point2D(row, col + 1)))
    ensures col - 1 >= 0 ==> ContainsPath(r, LocationMap(Point2D(row, col), Point2D(row, col - 1)))
    ensures SourcesBefore(r, row, col + 1)
    ensures AllBefore(r, LocationMap(Point2D(row, col), Point2D(row + 1, col)))
  {
    var here := Point2D(row, col);
    var east := LocationMap(here, Point2D(row, col + 1));
    var r1 := AddIfInside(rows, cols, paths, col + 1 <= cols - 1, east);
    if col - 1 >= 0 {
      KnownReversed(paths, r1, Point2D(row, col - 1), here);
    }
    r := AddIfInside(rows, cols, r1, col - 1 >= 0, LocationMap(here, Point2D(row, col - 1)));
    if col + 1 <= cols - 1 {
      ContainsPrefix(r1, r, east);
    }
    assert r == r1;
    EastStep(paths, r, row, col);
  }

  /** The north and south steps of the loop body for the cell (row, col). */
  method AddColumnNeighbours(rows: int, cols: int, paths: seq<LocationMap>, row: int, col: int)
    returns (r: seq<LocationMap>)
    requires 0 <= row < rows && 0 <= col < cols
    requires GridPaths(rows, cols, paths) && PathsInOrder(paths)
    requires row - 1 >= 0 ==> ContainsPath(paths, LocationMap(Point2D(row - 1, col), Point2D(row, col)))
    requires SourcesBefore(paths, row, col + 1)
    requires AllBefore(paths, LocationMap(Point2D(row, col), Point2D(row + 1, col)))
    ensures GridPaths(rows, cols, r) && PathsInOrder(r)
    ensures paths <= r
    ensures row - 1 >= 0 ==> ContainsPath(r, LocationMap(Point2D(row, col), Point2D(row - 1, col)))
    ensures row + 1 <= rows - 1 ==> ContainsPath(r, LocationMap(Point2D(row, col), Point2D(row + 1, col)))
    ensures SourcesBefore(r, row, col + 1)
  {
    var here := Point2D(row, col);
    var north := LocationMap(here, Point2D(row - 1, col));
    if row - 1 >= 0 {
      KnownReversed(paths, paths, Point2D(row - 1, col), here);
    }
    var r3 := AddIfInside(rows, cols, paths, row - 1 >= 0, north);
    r := AddIfInside(rows, cols, r3, row + 1 <= rows - 1, LocationMap(here, Point2D(row + 1, col)));
    if row - 1 >= 0 {
      ContainsPrefix(r3, r, north);
    }
  }

  /** The body of the nested loop of makePotentialPaths for the cell (row, col). */
  method AddCellPaths(rows: int, cols: int, paths: seq<LocationMap>, row: int, col: int) returns (r: seq<LocationMap>)
    requires 0 <= row < rows && 0 <= col < cols
    requires GridPaths(rows, cols, paths) && PathsInOrder(paths)
    requires col - 1 >= 0 ==> ContainsPath(paths, LocationMap(Point2D(row, col - 1), Point2D(row, col)))
    requires row - 1 >= 0 ==> ContainsPath(paths, LocationMap(Point2D(row - 1, col), Point2D(row, col)))
    requires SourcesBefore(paths, row, col)
    ensures GridPaths(rows, cols, r) && PathsInOrder(r)
    ensures paths <= r
    ensures CoversCell(rows, cols, r, Point2D(row, col))
    ensures SourcesBefore(r, row, col + 1)
  {
    var across := AddRowNeighbours(rows, cols, paths, row, col);
    if row - 1 >= 0 {
      ContainsPrefix(paths, across, LocationMap(Point2D(row - 1, col), Point2D(row, col)));
    }
    r := AddColumnNeighbours(rows, cols, across, row, col);
    CellCovered(rows, cols, across, r, row, col);
  }

  /**
   * The wrapping step of makePotentialPaths. It reads row 0 and column
   * cols - 1 of the cell array, so it fails when exactly one of the two
   * dimensions is 0.
   */
  method AddWrapPaths(rows: nat, cols: nat, paths: seq<LocationMap>) returns (r: Result<seq<LocationMap>>)
    ensures r.Err? <==> (rows == 0 && cols > 0) || (cols == 0 && rows > 0)
    ensures r.Err? ==> r.error == IndexOutOfBounds
    ensures r.Ok? ==> r.value == paths + WrapPaths(rows, cols)
  {
    var s := paths;
    var col := 0;
    while col < cols
      invariant 0 <= col <= cols
      invariant rows > 0 || col == 0
      invariant s == paths + ColumnWraps(rows, col)
    {
      if rows == 0 {
        return Err(IndexOutOfBounds);
      }
      s := s + [LocationMap(Point2D(0, col), Point2D(rows - 1, col))];
      col := col + 1;
    }
    var w := 0;
    while w < rows
      invariant 0 <= w <= rows
      invariant cols > 0 || w == 0
      invariant s == paths + ColumnWraps(rows, cols) + RowWraps(cols, w)
    {
      if cols == 0 {
        return Err(IndexOutOfBounds);
      }
      s := s + [LocationMap(Point2D(w, 0), Point2D(w, cols - 1))];
      w := w + 1;
    }
    return Ok(s);
  }

  /** The inner loop of makePotentialPaths over the cells of one row. */
  method AddRow(rows: nat, cols: nat, paths: seq<LocationMap>, row: nat) returns (r: seq<LocationMap>)
    requires row < rows
    requires GridPaths(rows, cols, paths) && PathsInOrder(paths)
    requires CoveredBefore(rows, cols, paths, row, 0)
    requires SourcesBefore(paths, row, 0)
    ensures GridPaths(rows, cols, r) && PathsInOrder(r)
    ensures CoveredBefore(rows, cols, r, row + 1, 0)
    ensures SourcesBefore(r, row + 1, 0)
  {
    r := paths;
    var col := 0;
    while col < cols
      invariant 0 <= col <= cols
      invariant GridPaths(rows, cols, r) && PathsInOrder(r)
      invariant CoveredBefore(rows, cols, r, row, col)
      invariant SourcesBefore(r, row, col)
    {
      var before := r;
      NeighboursListed(rows, cols, r, row, col);
      r := AddCellPaths(rows, cols, r, row, col);
      CoveredNext(rows, cols, before, r, row, col);
      col := col + 1;
    }
    CoveredRow(rows, cols, r, row);
  }

  /** The nested loops of makePotentialPaths: every grid path once, in row-major order. */
  method AddGridPaths(rows: nat, cols: nat) returns (paths: seq<LocationMap>)
    ensures GridPaths(rows, cols, paths)
    ensures forall p :: Inside(rows, cols, p) ==> CoversCell(rows, cols, paths, p)
    ensures forall i, j :: 0 <= i < j < |paths| ==> PathBefore(paths[i], paths[j])
  {
    paths := [];
    var row := 0;
    while row < rows
      invariant 0 <= row <= rows
      invariant GridPaths(rows, cols, paths) && PathsInOrder(paths)
      invariant CoveredBefore(rows, cols, paths, row, 0)
      invariant SourcesBefore(paths, row, 0)
    {
      paths := AddRow(rows, cols, paths, row);
      row := row + 1;
    }
    InOrderSorted(paths);
  }

  /** makePotentialPaths: the grid paths, row by row, then the wrapping paths. */
  method MakePotentialPaths(rows: nat, cols: nat, wrapping: bool) returns (r: Result<seq<LocationMap>>)
    ensures r.Err? <==> wrapping && ((rows == 0 && cols > 0) || (cols == 0 && rows > 0))
    ensures r.Err? ==> r.error == IndexOutOfBounds
    ensures r.Ok? ==> forall k :: 0 <= k < |r.value| ==> Candidate(rows, cols, r.value[k])
    ensures r.Ok? ==> |r.value| >= WrapCount(rows, cols, wrapping)
    ensures r.Ok? ==> GridPaths(rows, cols, r.value[..|r.value| - WrapCount(rows, cols, wrapping)])
    ensures r.Ok? ==> forall p :: Inside(rows, cols, p) ==>
      CoversCell(rows, cols, r.value[..|r.value| - WrapCount(rows, cols, wrapping)], p)
    ensures r.Ok? ==> r.value[|r.value| - WrapCount(rows, cols, wrapping)..] ==
                      (if wrapping then WrapPaths(rows, cols) else [])
    ensures r.Ok? ==> forall i, j :: 0 <= i < j < |r.value| - WrapCount(rows, cols, wrapping) ==>
      PathBefore(r.value[i], r.value[j])
  {
    var paths := AddGridPaths(rows, cols);
    if !wrapping {
      return Ok(paths);
    }
    r := AddWrapPaths(rows, cols, paths);
    if r.Ok? {
      assert r.value[..|r.value| - WrapCount(rows, cols, wrapping)] == paths;
      WrapCandidates(rows, cols);
      forall k | 0 <= k < |r.value| ensures Candidate(rows, cols, r.value[k]) {
        if k >= |paths| {
          assert r.value[k] == WrapPaths(rows, cols)[k - |paths|];
        }
      }
    }
  }
}
