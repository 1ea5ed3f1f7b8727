/**
 * How DungeonGameImpl.java lays out its cells: a rows x cols grid, each cell
 * also addressed by the single index row * cols + col (getEquivalentOneDIndex),
 * the fresh grid the builder starts from, the compass neighbours inside the
 * grid, and the row-major lists of caves and tunnels.
 */
module Layout {
  import opened Points
  import opened Outcomes
  import opened Cells

  /** getEquivalentOneDIndex. */
  function OneDIndex(cols: int, row: int, col: int): int {
    cols * row + col
  }

  function PointIndex(cols: int, p: Point2D): int {
    OneDIndex(cols, p.x, p.y)
  }

  lemma {:induction false} MulMono(c: int, a: int, b: int)
    requires 0 <= c && a <= b
    ensures c * a <= c * b
  {
    assert c * b - c * a == c * (b - a);
  }

  predicate Inside(rows: int, cols: int, p: Point2D) {
    0 <= p.x < rows && 0 <= p.y < cols
  }

  /** Every cell of the grid has an index in 0..rows*cols-1. */
  lemma {:induction false} IndexInRange(rows: int, cols: int, p: Point2D)
    requires 0 <= p.x < rows && 0 <= p.y < cols
    ensures 0 <= PointIndex(cols, p) < rows * cols
  {
    MulMono(cols, 0, p.x);
    MulMono(cols, p.x, rows - 1);
    assert cols * (rows - 1) == cols * rows - cols;
  }

  /** Different cells have different indices. */
  lemma {:induction false} IndexInjective(cols: int, p: Point2D, q: Point2D)
    requires 0 <= p.y < cols && 0 <= q.y < cols
    requires PointIndex(cols, p) == PointIndex(cols, q)
    ensures p == q
  {
    if p.x < q.x {
      MulMono(cols, p.x + 1, q.x);
    } else if q.x < p.x {
      MulMono(cols, q.x + 1, p.x);
    }
  }

  /** The indices of the cells of a rows x cols grid: in range and without collisions. */
  ghost predicate Indexed(rows: int, cols: int) {
    (forall p: Point2D :: Inside(rows, cols, p) ==> 0 <= PointIndex(cols, p) < rows * cols)
    && forall p: Point2D, q: Point2D ::
         Inside(rows, cols, p) && Inside(rows, cols, q) && PointIndex(cols, p) == PointIndex(cols, q) ==> p == q
  }

  lemma GridIndexed(rows: int, cols: int)
    ensures Indexed(rows, cols)
  {
    forall p: Point2D | Inside(rows, cols, p) ensures 0 <= PointIndex(cols, p) < rows * cols {
      IndexInRange(rows, cols, p);
    }
    forall p: Point2D, q: Point2D | Inside(rows, cols, p) && Inside(rows, cols, q) && PointIndex(cols, p) == PointIndex(cols, q)
      ensures p == q
    {
      IndexInjective(cols, p, q);
    }
  }

  /** A fresh cell for every coordinate, as the first loop of createDungeon makes them. */
  function FreshCell(p: Point2D): Cell {
    Cell(p, [], [], None, 0, false, false, false)
  }

  /** Shaped, located, and nothing in any cell yet. */
  ghost predicate Fresh(g: Grid, rows: int, cols: int) {
    Shaped(g, rows, cols) && forall p :: InGrid(g, p) ==> At(g, p) == FreshCell(p)
  }

  lemma FreshLocated(g: Grid, rows: int, cols: int)
    requires Fresh(g, rows, cols)
    ensures Located(g)
  {
    forall i, j | 0 <= i < |g| && 0 <= j < |g[i]| ensures g[i][j].location == Point2D(i, j) {
      assert At(g, Point2D(i, j)) == g[i][j];
    }
  }

  /** The cells one row or one column apart, inside the grid. */
  predicate GridAdjacent(p: Point2D, q: Point2D) {
    (p.x == q.x && (q.y == p.y + 1 || q.y == p.y - 1))
    || (p.y == q.y && (q.x == p.x + 1 || q.x == p.x - 1))
  }

  // ---------------------------------------------------------------------------
  // Row-major lists of cells (getCavesInDungeon, getTunnelsInDungeon)

  /** The coordinates of row r, columns 0..n-1. */
  function RowPoints(r: int, n: nat): (s: seq<Point2D>)
    ensures |s| == n && forall j :: 0 <= j < n ==> s[j] == Point2D(r, j)
  {
    seq(n, j => Point2D(r, j))
  }

  /** The coordinates of rows 0..m-1, row by row. */
  function RowMajor(m: nat, cols: nat): seq<Point2D> {
    if m == 0 then [] else RowMajor(m - 1, cols) + RowPoints(m - 1, cols)
  }

  lemma {:induction false} RowMajorMembers(m: nat, cols: nat)
    ensures forall p :: p in RowMajor(m, cols) <==> 0 <= p.x < m && 0 <= p.y < cols
  {
    if m > 0 {
      RowMajorMembers(m - 1, cols);
      forall p ensures p in RowMajor(m, cols) <==> 0 <= p.x < m && 0 <= p.y < cols {
        if p.x == m - 1 && 0 <= p.y < cols {
          assert RowPoints(m - 1, cols)[p.y] == p;
        }
      }
    }
  }

  /** The cells of ps inside the grid whose cell is a cave (wantCaves) or a tunnel, in order. */
  function Where(g: Grid, ps: seq<Point2D>, wantCaves: bool): (r: seq<Point2D>)
    ensures forall p :: p in r <==> p in ps && InGrid(g, p) && IsCave(At(g, p)) == wantCaves
    decreases |ps|
  {
    if ps == [] then []
    else
      var last := ps[|ps| - 1];
      var rest := Where(g, ps[..|ps| - 1], wantCaves);
      assert forall p :: p in ps <==> p in ps[..|ps| - 1] || p == last by {
        assert ps == ps[..|ps| - 1] + [last];
      }
      if InGrid(g, last) && IsCave(At(g, last)) == wantCaves then rest + [last] else rest
  }

  /** The coordinates before (row, col) in row-major order. */
  function PointsBefore(row: nat, col: nat, cols: nat): seq<Point2D> {
    RowMajor(row, cols) + RowPoints(row, col)
  }

  /** One more cell of the row-major scan: Where grows by that cell when it is of the kind wanted. */
  lemma WhereStep(g: Grid, row: nat, col: nat, cols: nat, wantCaves: bool)
    requires InGrid(g, Point2D(row, col))
    ensures Where(g, PointsBefore(row, col + 1, cols), wantCaves) ==
      Where(g, PointsBefore(row, col, cols), wantCaves)
      + (if IsCave(At(g, Point2D(row, col))) == wantCaves then [Point2D(row, col)] else [])
  {
    var ps := PointsBefore(row, col, cols);
    assert PointsBefore(row, col + 1, cols) == ps + [Point2D(row, col)];
    assert (ps + [Point2D(row, col)])[..|ps|] == ps;
  }

  /** A finished row starts the next one. */
  lemma RowDone(row: nat, cols: nat)
    ensures PointsBefore(row, cols, cols) == PointsBefore(row + 1, 0, cols)
  {
    assert RowPoints(row + 1, 0) == [];
  }

  /** The caves (or the tunnels) of a rows x cols grid, row by row. */
  function CellsOfKind(g: Grid, rows: nat, cols: nat, wantCaves: bool): (r: seq<Point2D>)
    requires Shaped(g, rows, cols)
    ensures forall p :: p in r <==> InGrid(g, p) && IsCave(At(g, p)) == wantCaves
  {
    RowMajorMembers(rows, cols);
    Where(g, RowMajor(rows, cols), wantCaves)
  }
}
