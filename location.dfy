/**
 * One cell of the dungeon (Location.java) and the grid that holds the cells.
 *
 * A cell is a value: its coordinates, the coordinates of the cells it is
 * linked to (in link order), its treasure, its monster, its arrows and its
 * flags. The dungeon keeps the grid of cells and replaces a cell with its
 * updated value wherever Location.java changes a field in place. The monster
 * stays an object, as in Java, so that an arrow damages it in place.
 */
module Cells {
  import opened Outcomes
  import opened Points
  import opened Monsters

  datatype Treasure = Diamonds | Rubies | Sapphire
  datatype Direction = North | South | East | West
  datatype Smell = LessPungent | MorePungent

  datatype Cell = Cell(
    location: Point2D,
    adjacency: seq<Point2D>,
    treasures: seq<Treasure>,
    monster: Option<Otyugh>,
    arrowCount: int,
    visited: bool,
    pit: bool,
    thief: bool)

  /** `new Location(p)`: no links, no treasure, no monster, no arrows; null is refused. */
  function NewLocation(p: Option<Point2D>): (r: Result<Cell>)
    ensures p.None? <==> r == Err(IllegalArgument(NullLocation))
    ensures r.Ok? ==> r.value == Cell(p.value, [], [], None, 0, false, false, false)
  {
    match p
    case None => Err(IllegalArgument(NullLocation))
    case Some(q) => Ok(Cell(q, [], [], None, 0, false, false, false))
  }

  /** isCave: a cell is a tunnel exactly when it has two links. */
  predicate IsCave(c: Cell) {
    |c.adjacency| != 2
  }

  function MonsterObject(c: Cell): set<object> {
    if c.monster.Some? then {c.monster.value} else {}
  }

  /** hasMonster: a monster is present and its potential damage is above zero. */
  predicate HasMonster(c: Cell)
    reads MonsterObject(c)
  {
    c.monster.Some? && c.monster.value.potentialDamage > 0.0
  }

  /** Location.equals: cells are equal when their coordinates are, whatever they hold. */
  predicate SameLocation(a: Cell, b: Cell) {
    Points.Equals(a.location, Instance(b.location))
  }

  /** equals looks only at the coordinates: two cells are equal exactly when they stand on the same point. */
  lemma SameLocationIsSamePoint(a: Cell, b: Cell)
    ensures SameLocation(a, b) <==> a.location == b.location
    ensures SameLocation(a, b) <==> SameLocation(b, a)
  {
    EqualsIsValueEquality(a.location, Instance(b.location));
    EqualsIsValueEquality(b.location, Instance(a.location));
  }

  /** hasMonster counts a monster at full or half health, and neither a killed one nor an empty slot. */
  lemma HasMonsterOfHealth(c: Cell)
    ensures c.monster.None? ==> !HasMonster(c)
    ensures c.monster.Some? && (c.monster.value.potentialDamage == 1.0 || c.monster.value.potentialDamage == 0.5)
            ==> HasMonster(c)
    ensures c.monster.Some? && c.monster.value.potentialDamage == 0.0 ==> !HasMonster(c)
  {
  }

  // The mutators of Location.java, as updates of the cell value.

  /** addArrows overwrites the count; it does not add to it. */
  function AddArrows(c: Cell, count: int): (r: Cell)
    ensures r.arrowCount == count && r.(arrowCount := c.arrowCount) == c
  {
    c.(arrowCount := count)
  }

  /** addMonster: the cell now holds the given (new) monster, whatever it held before. */
  function AddMonster(c: Cell, m: Otyugh): (r: Cell)
    ensures r.monster == Some(m) && r.(monster := c.monster) == c
  {
    c.(monster := Some(m))
  }

  /** removeArrow takes exactly one arrow, with no floor. */
  function RemoveArrow(c: Cell): (r: Cell)
    ensures r.arrowCount == c.arrowCount - 1 && r.(arrowCount := c.arrowCount) == c
  {
    c.(arrowCount := c.arrowCount - 1)
  }

  function RemoveAllArrows(c: Cell): (r: Cell)
    ensures r.arrowCount == 0 && r.(arrowCount := c.arrowCount) == c
  {
    c.(arrowCount := 0)
  }

  /** addTreasures appends one item. */
  function AddTreasure(c: Cell, t: Treasure): (r: Cell)
    ensures multiset(r.treasures) == multiset(c.treasures) + multiset{t}
    ensures |r.treasures| == |c.treasures| + 1 && r.treasures[..|c.treasures|] == c.treasures
    ensures r.(treasures := c.treasures) == c
  {
    c.(treasures := c.treasures + [t])
  }

  /** List.remove(Object): the first occurrence goes, nothing happens when there is none. */
  function RemoveFirst(s: seq<Treasure>, t: Treasure): (r: seq<Treasure>)
    ensures t in s ==> multiset(r) == multiset(s) - multiset{t} && |r| == |s| - 1
    ensures t !in s ==> r == s
  {
    if s == [] then []
    else
      assert s == [s[0]] + s[1..];
      if s[0] == t then s[1..] else [s[0]] + RemoveFirst(s[1..], t)
  }

  /** removeTreasure(t): exactly one occurrence of t leaves the cell. */
  function RemoveTreasure(c: Cell, t: Treasure): (r: Cell)
    ensures t in c.treasures ==> multiset(r.treasures) == multiset(c.treasures) - multiset{t}
    ensures t !in c.treasures ==> r == c
    ensures r.(treasures := c.treasures) == c
  {
    c.(treasures := RemoveFirst(c.treasures, t))
  }

  function RemoveAllTreasures(c: Cell): (r: Cell)
    ensures r.treasures == [] && r.(treasures := c.treasures) == c
  {
    c.(treasures := [])
  }

  /** updateAdjacencies appends one link. */
  function UpdateAdjacencies(c: Cell, p: Point2D): (r: Cell)
    ensures r.adjacency == c.adjacency + [p] && r.(adjacency := c.adjacency) == c
  {
    c.(adjacency := c.adjacency + [p])
  }

  /** One more link turns a one-link cave into a tunnel and a tunnel into a cave, and leaves any other cell a cave. */
  lemma CaveAfterLink(c: Cell, p: Point2D)
    ensures IsCave(UpdateAdjacencies(c, p)) <==> |c.adjacency| != 1
    ensures !IsCave(c) ==> IsCave(UpdateAdjacencies(c, p))
  {
  }

  function SetVisited(c: Cell): (r: Cell)
    ensures r.visited && r.(visited := c.visited) == c
  {
    c.(visited := true)
  }

  function AddPit(c: Cell): (r: Cell)
    ensures r.pit && r.(pit := c.pit) == c
  {
    c.(pit := true)
  }

  function AddThief(c: Cell): (r: Cell)
    ensures r.thief && r.(thief := c.thief) == c
  {
    c.(thief := true)
  }

  // ---------------------------------------------------------------------------
  // The grid of cells, addressed by (row, column).

  type Grid = seq<seq<Cell>>

  predicate InGrid(g: Grid, p: Point2D) {
    0 <= p.x < |g| && 0 <= p.y < |g[p.x]|
  }

  function At(g: Grid, p: Point2D): Cell
    requires InGrid(g, p)
  {
    g[p.x][p.y]
  }

  /** The grid with the cell at p replaced. */
  function Put(g: Grid, p: Point2D, c: Cell): (r: Grid)
    requires InGrid(g, p)
    ensures |r| == |g| && forall i :: 0 <= i < |g| ==> |r[i]| == |g[i]|
    ensures At(r, p) == c
    ensures forall q :: InGrid(g, q) && q != p ==> At(r, q) == At(g, q)
  {
    g[p.x := g[p.x][p.y := c]]
  }

  predicate Shaped(g: Grid, rows: int, cols: int) {
    |g| == rows && forall i :: 0 <= i < |g| ==> |g[i]| == cols
  }

  /** Every cell knows its own coordinates. */
  predicate Located(g: Grid) {
    forall i, j :: 0 <= i < |g| && 0 <= j < |g[i]| ==> g[i][j].location == Point2D(i, j)
  }

  /** Every link leads to a cell of the grid. */
  ghost predicate Closed(g: Grid) {
    forall p, q :: InGrid(g, p) && q in At(g, p).adjacency ==> InGrid(g, q)
  }

  /** The monster objects the grid holds. */
  function MonstersOf(g: Grid): set<Otyugh> {
    set i, j | 0 <= i < |g| && 0 <= j < |g[i]| && g[i][j].monster.Some? :: g[i][j].monster.value
  }

  /** The cell at q exists and holds a live monster. */
  predicate Live(g: Grid, q: Point2D)
    reads MonstersOf(g)
  {
    InGrid(g, q) && HasMonster(At(g, q))
  }

  // ---------------------------------------------------------------------------
  // getSmellInCave

  predicate NoDup<T(==)>(s: seq<T>) {
    forall i, j :: 0 <= i < j < |s| ==> s[i] != s[j]
  }

  /** The order a hash map keyed by direction lists its keys in: each of the four directions, once. */
  predicate EachDirectionOnce(order: seq<Direction>) {
    NoDup(order) && forall d: Direction :: d in order
  }

  /** The inner loop of getSmellInCave: append each item not yet in the list. */
  function AddAbsent(acc: seq<Point2D>, items: seq<Point2D>): (r: seq<Point2D>)
    ensures forall q :: q in r <==> q in acc || q in items
    ensures NoDup(acc) ==> NoDup(r)
    decreases |items|
  {
    if items == [] then acc
    else AddAbsent(if items[0] in acc then acc else acc + [items[0]], items[1..])
  }

  /** The cells two links away through the neighbours in `adj`. */
  ghost function TwoAwayVia(g: Grid, adj: seq<Point2D>): set<Point2D>
    requires forall q :: q in adj ==> InGrid(g, q)
  {
    set n, q | n in adj && q in At(g, n).adjacency :: q
  }

  /**
   * The outer loop of getSmellInCave over the remaining neighbours `adj`:
   * None when it returns early because a neighbour holds a live monster,
   * otherwise the gathered list of cells two links away.
   */
  function ScanNeighbours(g: Grid, adj: seq<Point2D>, acc: seq<Point2D>): (r: Option<seq<Point2D>>)
    requires forall q :: q in adj ==> InGrid(g, q)
    reads MonstersOf(g)
    ensures r.None? <==> exists n :: n in adj && Live(g, n)
    ensures r.Some? ==> (forall q :: q in r.value <==> q in acc || q in TwoAwayVia(g, adj))
    ensures r.Some? && NoDup(acc) ==> NoDup(r.value)
    decreases |adj|
  {
    if adj == [] then Some(acc)
    else
      var n := At(g, adj[0]);
      var acc' := AddAbsent(acc, n.adjacency);
      if HasMonster(n) then None
      else
        var rest := ScanNeighbours(g, adj[1..], acc');
        assert forall q :: q in TwoAwayVia(g, adj) <==> q in n.adjacency || q in TwoAwayVia(g, adj[1..]) by {
          forall q ensures q in TwoAwayVia(g, adj) ==> q in n.adjacency || q in TwoAwayVia(g, adj[1..]) {
            if q in TwoAwayVia(g, adj) {
              var m :| m in adj && q in At(g, m).adjacency;
              if m != adj[0] { assert m in adj[1..]; }
            }
          }
        }
        assert forall m :: m in adj[1..] ==> m in adj;
        rest
  }

  /** The second loop of getSmellInCave: how many listed cells hold a live monster. */
  function CountLive(g: Grid, ps: seq<Point2D>): nat
    reads MonstersOf(g)
  {
    if ps == [] then 0 else (if Live(g, ps[0]) then 1 else 0) + CountLive(g, ps[1..])
  }

  /** getSmellInCave, loop for loop. */
  function SmellInCave(g: Grid, c: Cell): Option<Smell>
    requires forall q :: q in c.adjacency ==> InGrid(g, q)
    reads MonstersOf(g)
  {
    match ScanNeighbours(g, c.adjacency, [])
    case None => Some(MorePungent)
    case Some(around) =>
      var k := CountLive(g, around);
      if k == 1 then Some(LessPungent) else if k > 1 then Some(MorePungent) else None
  }

  /**
   * The smell rule stated on sets: a live monster next door gives the stronger
   * smell; otherwise the live monsters among the cells two links away (the cell
   * itself included) decide, one giving the fainter smell and more the stronger.
   */
  ghost function SmellRule(g: Grid, c: Cell): Option<Smell>
    requires forall q :: q in c.adjacency ==> InGrid(g, q)
    reads MonstersOf(g)
  {
    if exists n :: n in c.adjacency && Live(g, n) then Some(MorePungent)
    else
      var k := |set q | q in TwoAwayVia(g, c.adjacency) && Live(g, q)|;
      if k == 1 then Some(LessPungent) else if k > 1 then Some(MorePungent) else None
  }

  /** For a list without repeats, the count is the number of distinct live cells in it. */
  lemma {:induction false} CountLiveIsCardinality(g: Grid, ps: seq<Point2D>)
    requires NoDup(ps)
    ensures CountLive(g, ps) == |set q | q in ps && Live(g, q)|
  {
    if ps != [] {
      var tail := ps[1..];
      assert NoDup(tail) by {
        forall i, j | 0 <= i < j < |tail| ensures tail[i] != tail[j] {
          assert tail[i] == ps[i + 1] && tail[j] == ps[j + 1];
        }
      }
      CountLiveIsCardinality(g, tail);
      var all := set q | q in ps && Live(g, q);
      var rest := set q | q in tail && Live(g, q);
      assert ps[0] !in tail by {
        forall j | 0 <= j < |tail| ensures tail[j] != ps[0] {
          assert tail[j] == ps[j + 1];
        }
      }
      assert forall q :: q in ps <==> q == ps[0] || q in tail by {
        assert ps == [ps[0]] + tail;
      }
      if Live(g, ps[0]) {
        assert all == rest + {ps[0]};
        assert ps[0] !in rest;
      } else {
        assert all == rest;
      }
    }
  }

  /** getSmellInCave computes the smell rule. */
  lemma {:induction false} SmellInCaveFollowsRule(g: Grid, c: Cell)
    requires forall q :: q in c.adjacency ==> InGrid(g, q)
    ensures SmellInCave(g, c) == SmellRule(g, c)
  {
    var scan := ScanNeighbours(g, c.adjacency, []);
    if scan.Some? {
      var around := scan.value;
      assert NoDup<Point2D>([]);
      CountLiveIsCardinality(g, around);
      assert (set q | q in around && Live(g, q)) == (set q | q in TwoAwayVia(g, c.adjacency) && Live(g, q));
    }
  }

  // ---------------------------------------------------------------------------
  // getPossibleDirectionMoves

  /**
   * The three `if` chains applied to one link `adj` of the cell at `cur`.
   * Later puts overwrite earlier ones, as HashMap.put does.
   */
  function PutMove(m: map<Direction, Point2D>, cur: Point2D, adj: Point2D, rows: int, cols: int): map<Direction, Point2D> {
    var m1 :=
      if adj.x == cur.x + 1 then m[South := adj]
      else if adj.x == cur.x - 1 then m[North := adj]
      else if adj.y == cur.y + 1 then m[East := adj]
      else if adj.y == cur.y - 1 then m[West := adj]
      else m;
    var m2 :=
      if cur.x - adj.x == -(rows - 1) then m1[North := adj]
      else if cur.x - adj.x == rows - 1 then m1[South := adj]
      else m1;
    if cur.y - adj.y == -(cols - 1) then m2[West := adj]
    else if cur.y - adj.y == cols - 1 then m2[East := adj]
    else m2
  }

  /** The table after the first k links. */
  function MovesAfter(c: Cell, rows: int, cols: int, k: nat): map<Direction, Point2D>
    requires k <= |c.adjacency|
  {
    if k == 0 then map[] else PutMove(MovesAfter(c, rows, cols, k - 1), c.location, c.adjacency[k - 1], rows, cols)
  }

  /** getPossibleDirectionMoves(rows, cols): the exits of a cell by compass direction. */
  function DirectionMoves(c: Cell, rows: int, cols: int): map<Direction, Point2D> {
    MovesAfter(c, rows, cols, |c.adjacency|)
  }

  /** Every exit in the table is one of the cell's links. */
  lemma {:induction false} MovesAreLinks(c: Cell, rows: int, cols: int, k: nat)
    requires k <= |c.adjacency|
    ensures forall d :: d in MovesAfter(c, rows, cols, k) ==> MovesAfter(c, rows, cols, k)[d] in c.adjacency[..k]
  {
    if k > 0 {
      MovesAreLinks(c, rows, cols, k - 1);
      assert c.adjacency[..k] == c.adjacency[..k - 1] + [c.adjacency[k - 1]];
    }
  }

  lemma DirectionMovesAreLinks(c: Cell, rows: int, cols: int)
    ensures forall d :: d in DirectionMoves(c, rows, cols) ==> DirectionMoves(c, rows, cols)[d] in c.adjacency
  {
    MovesAreLinks(c, rows, cols, |c.adjacency|);
    assert c.adjacency[..|c.adjacency|] == c.adjacency;
  }

  /** The neighbour one step away in a compass direction on a torus of rows x cols cells. */
  function Step(p: Point2D, d: Direction, rows: int, cols: int): Point2D
    requires rows > 0 && cols > 0
  {
    match d
    case North => Point2D((p.x - 1) % rows, p.y)
    case South => Point2D((p.x + 1) % rows, p.y)
    case East => Point2D(p.x, (p.y + 1) % cols)
    case West => Point2D(p.x, (p.y - 1) % cols)
  }

  /** q is one step from p in some direction, across the border or not. */
  predicate IsNeighbour(p: Point2D, q: Point2D, rows: int, cols: int)
    requires rows > 0 && cols > 0
  {
    q == Step(p, North, rows, cols) || q == Step(p, South, rows, cols)
    || q == Step(p, East, rows, cols) || q == Step(p, West, rows, cols)
  }

  lemma {:induction false} StepValues(a: int, n: int)
    requires 3 <= n && 0 <= a < n
    ensures (a + 1) % n == (if a == n - 1 then 0 else a + 1)
    ensures (a - 1) % n == (if a == 0 then n - 1 else a - 1)
  {
    if a == n - 1 {
      assert a + 1 == 1 * n + 0;
    }
    if a == 0 {
      assert a - 1 == (-1) * n + (n - 1);
    }
  }

  /** On a grid of at least 3 x 3, one link adds exactly its own direction to the table. */
  lemma {:induction false} PutMoveOfStep(m: map<Direction, Point2D>, cur: Point2D, d: Direction, rows: int, cols: int)
    requires rows >= 3 && cols >= 3 && 0 <= cur.x < rows && 0 <= cur.y < cols
    ensures PutMove(m, cur, Step(cur, d, rows, cols), rows, cols) == m[d := Step(cur, d, rows, cols)]
  {
    StepValues(cur.x, rows);
    StepValues(cur.y, cols);
  }

  /** On a grid of at least 3 x 3, the four directions lead to four different cells. */
  lemma StepsDiffer(cur: Point2D, rows: int, cols: int)
    requires rows >= 3 && cols >= 3 && 0 <= cur.x < rows && 0 <= cur.y < cols
    ensures forall d, e :: Step(cur, d, rows, cols) == Step(cur, e, rows, cols) ==> d == e
  {
    StepValues(cur.x, rows);
    StepValues(cur.y, cols);
  }

  lemma {:induction false} MovesAfterOfSteps(c: Cell, rows: int, cols: int, k: nat)
    requires rows >= 3 && cols >= 3 && 0 <= c.location.x < rows && 0 <= c.location.y < cols
    requires k <= |c.adjacency|
    requires forall q :: q in c.adjacency ==> IsNeighbour(c.location, q, rows, cols)
    ensures forall d :: d in MovesAfter(c, rows, cols, k) <==> Step(c.location, d, rows, cols) in c.adjacency[..k]
    ensures forall d :: d in MovesAfter(c, rows, cols, k) ==> MovesAfter(c, rows, cols, k)[d] == Step(c.location, d, rows, cols)
  {
    if k > 0 {
      MovesAfterOfSteps(c, rows, cols, k - 1);
      var q := c.adjacency[k - 1];
      assert q in c.adjacency;
      var d :| q == Step(c.location, d, rows, cols);
      PutMoveOfStep(MovesAfter(c, rows, cols, k - 1), c.location, d, rows, cols);
      assert c.adjacency[..k] == c.adjacency[..k - 1] + [q];
      StepsDiffer(c.location, rows, cols);
    }
  }

  /**
   * On a grid of at least 3 x 3 whose links join compass neighbours (across the
   * border when wrapping), the table offers direction d exactly when the cell is
   * linked to its neighbour in direction d, and leads there.
   */
  lemma DirectionMovesAreCompass(c: Cell, rows: int, cols: int)
    requires rows >= 3 && cols >= 3 && 0 <= c.location.x < rows && 0 <= c.location.y < cols
    requires forall q :: q in c.adjacency ==> IsNeighbour(c.location, q, rows, cols)
    ensures forall d :: d in DirectionMoves(c, rows, cols) <==> Step(c.location, d, rows, cols) in c.adjacency
    ensures forall d :: d in DirectionMoves(c, rows, cols) ==> DirectionMoves(c, rows, cols)[d] == Step(c.location, d, rows, cols)
  {
    MovesAfterOfSteps(c, rows, cols, |c.adjacency|);
    assert c.adjacency[..|c.adjacency|] == c.adjacency;
  }

  /** In a wrapping 5 x 5 dungeon, WEST from (3, 0) leads across the border to (3, 4). */
  lemma WestWrapsAround(c: Cell)
    requires c.location == Point2D(3, 0) && Point2D(3, 4) in c.adjacency
    requires forall q :: q in c.adjacency ==> IsNeighbour(c.location, q, 5, 5)
    ensures West in DirectionMoves(c, 5, 5) && DirectionMoves(c, 5, 5)[West] == Point2D(3, 4)
  {
    DirectionMovesAreCompass(c, 5, 5);
    assert Step(c.location, West, 5, 5) == Point2D(3, 4);
  }
}
