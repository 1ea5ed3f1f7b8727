/**
 * The flight of an arrow (DungeonGameImpl.java, shootArrow and its helpers
 * getExitLocationForTunnel and getOppositeDirection), stated as a function
 * over the grid of cells. The shooting method of the dungeon is proved to
 * follow `Fly` step for step.
 *
 * The flight is the code's, not an idealised one: in a tunnel the arrow
 * leaves by the other exit and takes the tunnel's direction towards it; in a
 * cave it leaves in its heading, then the heading is turned round and one
 * unit of distance is spent, and the flight stops unless the cave just left
 * has an exit in the turned heading. The cell hit is the last cave passed.
 */
module Shots {
  import opened Outcomes
  import opened Points
  import opened Cells

  /** What shootArrow reports. */
  datatype MonsterStatus = Unaffected | Injured | Dead

  /** getOppositeDirection. */
  function Opposite(d: Direction): (r: Direction)
    ensures r != d
    ensures (d == North || d == South) <==> (r == North || r == South)
  {
    match d
    case North => South
    case South => North
    case East => West
    case West => East
  }

  lemma OppositeTwice(d: Direction)
    ensures Opposite(Opposite(d)) == d
  {
  }

  /**
   * getExitLocationForTunnel: the second exit when the first leads back to
   * where the arrow came from, otherwise the first.
   */
  function TunnelExit(adj: seq<Point2D>, entered: Point2D): (r: Point2D)
    requires |adj| == 2
    ensures r in adj
    ensures r == entered ==> adj == [entered, entered]
    ensures adj[0] != adj[1] && entered in adj ==> r != entered
  {
    if adj[0] == entered then adj[1] else adj[0]
  }

  /**
   * The loop over the entries of the direction table: the heading becomes
   * each direction, in iteration order, whose exit is `next`, so the last one
   * wins; with none, the heading stays `h`.
   */
  function LastKeyTo(order: seq<Direction>, moves: map<Direction, Point2D>, next: Point2D, h: Direction): (r: Direction)
    ensures (r in order && r in moves && moves[r] == next)
      || (r == h && forall d :: d in order && d in moves ==> moves[d] != next)
    decreases |order|
  {
    if order == [] then h
    else
      var d := order[|order| - 1];
      assert forall e :: e in order <==> e in order[..|order| - 1] || e == d by {
        assert order == order[..|order| - 1] + [d];
      }
      if d in moves && moves[d] == next then d else LastKeyTo(order[..|order| - 1], moves, next, h)
  }

  /** A direction table whose exits go to different cells has at most one key for `next`. */
  lemma {:induction false} LastKeyToUnique(order: seq<Direction>, moves: map<Direction, Point2D>, next: Point2D,
                                           h: Direction, d: Direction)
    requires forall a, b :: a in moves && b in moves && a != b ==> moves[a] != moves[b]
    requires d in order && d in moves && moves[d] == next
    ensures LastKeyTo(order, moves, next, h) == d
  {
  }

  datatype Flight =
    | Landed(at: Point2D)   // the flight ended with no distance left; `at` is the cell hit
    | Blocked               // a cave had no exit in the turned heading: the shot misses
    | NullExit              // the arrow left a cave by an exit it does not have, with distance left
    | Exhausted             // still in flight after the step bound

  /** The exits of the cell at p, as getPossibleDirectionMoves gives them. */
  function MovesAt(g: Grid, rows: int, cols: int, p: Point2D): (m: map<Direction, Point2D>)
    requires Closed(g) && InGrid(g, p)
    ensures forall d :: d in m ==> m[d] in At(g, p).adjacency && InGrid(g, m[d])
  {
    DirectionMovesAreLinks(At(g, p), rows, cols);
    DirectionMoves(At(g, p), rows, cols)
  }

  /**
   * The loop of shootArrow from the state (prev, arrow, heading, distance),
   * allowed `fuel` more steps.
   */
  function Fly(g: Grid, rows: int, cols: int, order: seq<Direction>, prev: Point2D, arrow: Option<Point2D>,
               heading: Direction, distance: int, fuel: nat): (f: Flight)
    requires Closed(g) && InGrid(g, prev) && (arrow.Some? ==> InGrid(g, arrow.value))
    ensures f.Landed? ==> InGrid(g, f.at)
    ensures f.Landed? && distance >= 1 ==> IsCave(At(g, f.at))
    ensures distance <= 0 ==> f == Landed(prev)
    decreases fuel
  {
    if distance <= 0 then Landed(prev)
    else if fuel == 0 then Exhausted
    else if arrow.None? then NullExit
    else
      var here := arrow.value;
      var c := At(g, here);
      var moves := MovesAt(g, rows, cols, here);
      if !IsCave(c) then
        var next := TunnelExit(c.adjacency, prev);
        Fly(g, rows, cols, order, here, Some(next), LastKeyTo(order, moves, next, heading), distance, fuel - 1)
      else
        var next := if heading in moves then Some(moves[heading]) else None;
        var turned := Opposite(heading);
        if turned !in moves then Blocked
        else Fly(g, rows, cols, order, here, next, turned, distance - 1, fuel - 1)
  }

  /** More fuel does not change a flight that ended. */
  lemma {:induction false} FlyMoreFuel(g: Grid, rows: int, cols: int, order: seq<Direction>, prev: Point2D,
                                       arrow: Option<Point2D>, heading: Direction, distance: int, fuel: nat, more: nat)
    requires Closed(g) && InGrid(g, prev) && (arrow.Some? ==> InGrid(g, arrow.value))
    requires Fly(g, rows, cols, order, prev, arrow, heading, distance, fuel) != Exhausted && fuel <= more
    ensures Fly(g, rows, cols, order, prev, arrow, heading, distance, more) ==
            Fly(g, rows, cols, order, prev, arrow, heading, distance, fuel)
    decreases fuel
  {
    if distance > 0 && fuel > 0 && arrow.Some? {
      var here := arrow.value;
      var c := At(g, here);
      var moves := MovesAt(g, rows, cols, here);
      if !IsCave(c) {
        var next := TunnelExit(c.adjacency, prev);
        FlyMoreFuel(g, rows, cols, order, here, Some(next), LastKeyTo(order, moves, next, heading), distance,
                    fuel - 1, more - 1);
      } else if Opposite(heading) in moves {
        var next := if heading in moves then Some(moves[heading]) else None;
        FlyMoreFuel(g, rows, cols, order, here, next, Opposite(heading), distance - 1, fuel - 1, more - 1);
      }
    }
  }

  /**
   * Two caves b and c facing each other: b's exit in heading h leads to c,
   * c's exit in the opposite heading leads back to b, and each has an exit in
   * the heading the arrow turns to there. Entering b with heading h, the
   * arrow goes back and forth between them, one unit of distance per cave, so
   * an odd distance hits b and an even one hits c.
   */
  lemma {:induction false} ShotBounces(g: Grid, rows: int, cols: int, order: seq<Direction>, prev: Point2D,
                                       b: Point2D, c: Point2D, h: Direction, distance: nat, fuel: nat)
    requires Closed(g) && InGrid(g, prev) && InGrid(g, b) && InGrid(g, c)
    requires IsCave(At(g, b)) && IsCave(At(g, c))
    requires h in MovesAt(g, rows, cols, b) && MovesAt(g, rows, cols, b)[h] == c
    requires Opposite(h) in MovesAt(g, rows, cols, b)
    requires Opposite(h) in MovesAt(g, rows, cols, c) && MovesAt(g, rows, cols, c)[Opposite(h)] == b
    requires h in MovesAt(g, rows, cols, c)
    requires distance >= 1 && fuel >= distance
    ensures Fly(g, rows, cols, order, prev, Some(b), h, distance, fuel) == Landed(if distance % 2 == 1 then b else c)
    decreases distance
  {
    OppositeTwice(h);
    if distance >= 3 {
      ShotBounces(g, rows, cols, order, c, b, c, h, distance - 2, fuel - 2);
    }
  }
}
