/**
 * What the placement steps of createDungeon (DungeonGameImpl.java:
 * addTreasuresToDungeon, addMonstersToDungeon, addArrowsToDungeon) and of the
 * pits-and-thieves variant change in the grid: one kind of content of some
 * cells, never the links. The treasure kinds a stream of draws gives, and the
 * counts and quotas the steps aim for.
 */
module Placements {
  import opened Outcomes
  import opened Points
  import opened Cells
  import opened Walks
  import opened Distances
  import opened Layout
  import opened Monsters
  import opened LocationMaps

  /** The contents of a cell a placement step may change. */
  datatype Content = TreasureList | ArrowCount | MonsterSlot | PitFlag | ThiefFlag

  /** The cell with the given content cleared: what a step changing only that content keeps. */
  function Without(c: Cell, part: Content): Cell {
    match part
    case TreasureList => c.(treasures := [])
    case ArrowCount => c.(arrowCount := 0)
    case MonsterSlot => c.(monster := None)
    case PitFlag => c.(pit := false)
    case ThiefFlag => c.(thief := false)
  }

  predicate SameShape(g: Grid, h: Grid) {
    |g| == |h| && forall i :: 0 <= i < |g| ==> |g[i]| == |h[i]|
  }

  /** h is g with at most the given content of some cells changed. */
  ghost predicate Only(g: Grid, h: Grid, part: Content) {
    SameShape(g, h) && forall p :: InGrid(g, p) ==> Without(At(h, p), part) == Without(At(g, p), part)
  }

  /** Changing one kind of content keeps every link, hence every walk and every distance. */
  lemma OnlyKeepsLinks(g: Grid, h: Grid, part: Content)
    requires Only(g, h, part)
    ensures SameLinks(g, h)
  {
    forall p | InGrid(g, p) ensures At(g, p).adjacency == At(h, p).adjacency {
      assert Without(At(h, p), part).adjacency == Without(At(g, p), part).adjacency;
    }
  }

  lemma OnlyTransitive(f: Grid, g: Grid, h: Grid, part: Content)
    requires Only(f, g, part) && Only(g, h, part)
    ensures Only(f, h, part)
  {
  }

  /** A grid with the same links as a two-way grid is two-way. */
  lemma SameLinksSymmetric(g: Grid, h: Grid)
    requires SameLinks(g, h) && Symmetric(g)
    ensures Symmetric(h)
  {
    assert forall p :: InGrid(g, p) <==> InGrid(h, p);
  }

  lemma SameLinksTransitive(f: Grid, g: Grid, h: Grid)
    requires SameLinks(f, g) && SameLinks(g, h)
    ensures SameLinks(f, h)
  {
    forall p | InGrid(f, p) ensures At(f, p).adjacency == At(h, p).adjacency {
      assert InGrid(g, p);
    }
  }

  /** Two-way links lead into the grid. */
  lemma SymmetricClosed(g: Grid)
    requires Symmetric(g)
    ensures Closed(g)
  {
    forall p, q | InGrid(g, p) && q in At(g, p).adjacency ensures InGrid(g, q) {
    }
  }

  /** h is g with at most the links of some cells changed. */
  ghost predicate LinksOnly(g: Grid, h: Grid) {
    SameShape(g, h) && forall p :: InGrid(g, p) ==> At(h, p).(adjacency := []) == At(g, p).(adjacency := [])
  }

  /** Linking paths changes only links. */
  lemma {:induction false} ApplyEdgesLinksOnly(g: Grid, es: seq<LocationMap>)
    requires EdgesIn(g, es)
    ensures LinksOnly(g, ApplyEdges(g, es))
    decreases |es|
  {
    if es != [] {
      var front, e := es[..|es| - 1], es[|es| - 1];
      assert EdgesIn(g, front) by {
        forall k | 0 <= k < |front| ensures InGrid(g, front[k].source) && InGrid(g, front[k].dest) {
          assert front[k] == es[k];
        }
      }
      ApplyEdgesLinksOnly(g, front);
      var h := ApplyEdges(g, front);
      assert forall p :: InGrid(h, p) ==> At(Link(h, e.source, e.dest), p).(adjacency := []) == At(h, p).(adjacency := []);
    }
  }

  /** Changing links, or contents other than monsters, adds no monster. */
  lemma NoMonstersKept(g: Grid, h: Grid, part: Content)
    requires NoMonsters(g) && (LinksOnly(g, h) || (Only(g, h, part) && part != MonsterSlot))
    ensures NoMonsters(h)
  {
    forall p | InGrid(h, p) ensures At(h, p).monster.None? {
      assert InGrid(g, p);
      if !LinksOnly(g, h) {
        assert Without(At(h, p), part).monster == Without(At(g, p), part).monster;
      } else {
        assert At(h, p).(adjacency := []).monster == At(g, p).(adjacency := []).monster;
      }
    }
  }

  /** Replacing a cell twice leaves the second value. */
  lemma PutTwice(g: Grid, p: Point2D, c: Cell, d: Cell)
    requires InGrid(g, p)
    ensures Put(Put(g, p, c), p, d) == Put(g, p, d)
  {
    assert Put(g, p, c)[p.x] == g[p.x][p.y := c];
    assert g[p.x][p.y := c][p.y := d] == g[p.x][p.y := d];
  }

  /** Replacing a cell by one with the same links keeps every link. */
  lemma PutKeepsLinks(g: Grid, p: Point2D, c: Cell)
    requires InGrid(g, p) && c.adjacency == At(g, p).adjacency
    ensures SameLinks(g, Put(g, p, c))
  {
  }

  /** Putting back the cell that is there changes nothing. */
  lemma PutSame(g: Grid, p: Point2D)
    requires InGrid(g, p)
    ensures Put(g, p, At(g, p)) == g
  {
    assert g[p.x][p.y := At(g, p)] == g[p.x];
  }

  /** The treasure a kind draw of addTreasuresToDungeon gives: 0, 1 and 2 name one, any other value none. */
  function TreasureOf(v: int): (r: Option<Treasure>)
    ensures r.Some? <==> 0 <= v <= 2
  {
    if v == 0 then Some(Diamonds) else if v == 1 then Some(Rubies) else if v == 2 then Some(Sapphire) else None
  }

  /** The draw that names a treasure kind. */
  function Code(t: Treasure): int {
    match t
    case Diamonds => 0
    case Rubies => 1
    case Sapphire => 2
  }

  /** The treasures a sequence of kind draws adds to a cell, in order. */
  function Kinds(vs: seq<int>): (r: seq<Treasure>)
    ensures |r| <= |vs|
    decreases |vs|
  {
    if vs == [] then []
    else
      var front := Kinds(vs[..|vs| - 1]);
      match TreasureOf(vs[|vs| - 1])
      case None => front
      case Some(t) => front + [t]
  }

  lemma KindsOneMore(vs: seq<int>, v: int)
    ensures Kinds(vs + [v]) == Kinds(vs) + (if TreasureOf(v).Some? then [TreasureOf(v).value] else [])
  {
    assert (vs + [v])[..|vs|] == vs;
  }

  /** Each kind is added once per draw that names it; the other draws add nothing. */
  lemma {:induction false} KindsCount(vs: seq<int>, t: Treasure)
    ensures multiset(Kinds(vs))[t] == multiset(vs)[Code(t)]
    decreases |vs|
  {
    if vs != [] {
      var front, v := vs[..|vs| - 1], vs[|vs| - 1];
      assert vs == front + [v];
      KindsCount(front, t);
      KindsOneMore(front, v);
      assert multiset(vs) == multiset(front) + multiset{v};
      if v == Code(t) {
        assert TreasureOf(v) == Some(t);
      } else {
        assert TreasureOf(v) != Some(t);
      }
    }
  }

  /**
   * The rounds of addTreasuresToDungeon so far, from grid g0 to g: the cells
   * chosen, in order, and the kind draws of each round. Only treasure lists
   * have changed, every chosen cell was empty in g0, a cell no round chose
   * is as it was, and a chosen cell holds the kinds of the last round that
   * chose it.
   */
  ghost predicate TreasureRounds(g0: Grid, g: Grid, chosen: seq<Point2D>, drawn: seq<seq<int>>) {
    Only(g0, g, TreasureList) && |drawn| == |chosen|
    && (forall k :: 0 <= k < |chosen| ==> InGrid(g0, chosen[k]) && At(g0, chosen[k]).treasures == [])
    && (forall k :: 0 <= k < |chosen| && chosen[k] !in chosen[k + 1..] ==> At(g, chosen[k]).treasures == Kinds(drawn[k]))
    && (forall p :: InGrid(g0, p) && p !in chosen ==> At(g, p) == At(g0, p))
  }

  /** One more round, at an empty cell p whose kind draws were `kinds`. */
  lemma {:induction false} TreasureRoundStep(g0: Grid, g: Grid, chosen: seq<Point2D>, drawn: seq<seq<int>>,
                                             p: Point2D, kinds: seq<int>)
    requires TreasureRounds(g0, g, chosen, drawn) && InGrid(g, p) && At(g, p).treasures == []
    ensures TreasureRounds(g0, Put(g, p, At(g, p).(treasures := At(g, p).treasures + Kinds(kinds))), chosen + [p], drawn + [kinds])
  {
    var h := Put(g, p, At(g, p).(treasures := At(g, p).treasures + Kinds(kinds)));
    var chosen', drawn' := chosen + [p], drawn + [kinds];
    assert InGrid(g0, p);
    if p !in chosen {
      assert At(g, p) == At(g0, p);
    } else {
      var k :| 0 <= k < |chosen| && chosen[k] == p;
    }
    forall k | 0 <= k < |chosen'| && chosen'[k] !in chosen'[k + 1..]
      ensures At(h, chosen'[k]).treasures == Kinds(drawn'[k])
    {
      if k < |chosen| {
        assert chosen'[k + 1..] == chosen[k + 1..] + [p];
        assert chosen'[k] != p;
      }
    }
  }

  /** Only the links decide which cells are caves, so grids with the same links list the same caves and tunnels. */
  lemma {:induction false} WhereSameLinks(g: Grid, h: Grid, ps: seq<Point2D>, wantCaves: bool)
    requires SameLinks(g, h)
    ensures Where(g, ps, wantCaves) == Where(h, ps, wantCaves)
    decreases |ps|
  {
    if ps != [] {
      WhereSameLinks(g, h, ps[..|ps| - 1], wantCaves);
      var last := ps[|ps| - 1];
      if InGrid(g, last) {
        assert At(g, last).adjacency == At(h, last).adjacency;
      }
    }
  }

  lemma CellsOfKindSameLinks(g: Grid, h: Grid, rows: nat, cols: nat, wantCaves: bool)
    requires SameLinks(g, h) && Shaped(g, rows, cols)
    ensures Shaped(h, rows, cols)
    ensures CellsOfKind(g, rows, cols, wantCaves) == CellsOfKind(h, rows, cols, wantCaves)
  {
    WhereSameLinks(g, h, RowMajor(rows, cols), wantCaves);
  }

  /** No cell holds a monster. */
  ghost predicate NoMonsters(g: Grid) {
    forall p :: InGrid(g, p) ==> At(g, p).monster.None?
  }

  /**
   * From g0 to g, the monster of cells[k] became made[k] and no other cell
   * changed.
   */
  ghost predicate MonstersAt(g0: Grid, g: Grid, cells: seq<Point2D>, made: seq<Otyugh>) {
    Only(g0, g, MonsterSlot) && |made| == |cells|
    && (forall k :: 0 <= k < |cells| ==> InGrid(g0, cells[k]) && At(g, cells[k]).monster == Some(made[k]))
    && (forall p :: InGrid(g0, p) && p !in cells ==> At(g, p) == At(g0, p))
  }

  /**
   * The rounds of addMonstersToDungeon so far: `cells` are the end cave
   * followed by the caves given a monster, all distinct, the start cave not
   * among the latter, and `made` their monsters.
   */
  ghost predicate MonsterRounds(g0: Grid, g: Grid, start: Point2D, end: Point2D, cells: seq<Point2D>, made: seq<Otyugh>) {
    MonstersAt(g0, g, cells, made) && |cells| >= 1 && cells[0] == end && NoDup(cells)
    && start !in cells[1..] && forall k :: 1 <= k < |cells| ==> IsCave(At(g0, cells[k]))
  }

  /** One more monster m, at a cave p other than the start that has none yet. */
  lemma MonsterStep(g0: Grid, g: Grid, start: Point2D, end: Point2D, cells: seq<Point2D>, made: seq<Otyugh>,
                    p: Point2D, m: Otyugh)
    requires MonsterRounds(g0, g, start, end, cells, made) && InGrid(g0, p) && IsCave(At(g0, p))
    requires p != start && p !in cells
    ensures MonsterRounds(g0, Put(g, p, AddMonster(At(g, p), m)), start, end, cells + [p], made + [m])
  {
    var cells' := cells + [p];
    assert cells'[1..] == cells[1..] + [p];
    assert forall k :: 0 <= k < |cells| ==> cells'[k] == cells[k];
  }

  /** The cells holding a monster are exactly those listed. */
  ghost predicate HoldMonsters(g: Grid, cells: seq<Point2D>) {
    forall p :: InGrid(g, p) ==> (At(g, p).monster.Some? <==> p in cells)
  }

  /**
   * Placing monsters on a grid without any: the cells holding a monster are
   * then exactly the cells placed at.
   */
  lemma MonsterCells(g0: Grid, g: Grid, start: Point2D, end: Point2D, cells: seq<Point2D>, made: seq<Otyugh>)
    requires NoMonsters(g0) && MonsterRounds(g0, g, start, end, cells, made)
    ensures HoldMonsters(g, cells)
  {
    forall p | InGrid(g, p) ensures At(g, p).monster.Some? <==> p in cells {
      assert InGrid(g0, p);
      if p in cells {
        var k :| 0 <= k < |cells| && cells[k] == p;
      }
    }
  }

  /**
   * The rounds of addArrowsToDungeon so far, from grid g0 to g: the cells
   * chosen, in order, and the count drawn for each. Only arrow counts have
   * changed, every chosen cell had no arrows in g0, a cell is chosen again
   * only after a count that gave it none, a cell no round chose is as it was,
   * and a chosen cell holds the count of the last round that chose it.
   */
  ghost predicate ArrowRounds(g0: Grid, g: Grid, chosen: seq<Point2D>, counts: seq<int>) {
    Only(g0, g, ArrowCount) && |counts| == |chosen|
    && (forall k :: 0 <= k < |chosen| ==> InGrid(g0, chosen[k]) && At(g0, chosen[k]).arrowCount <= 0)
    && (forall k :: 0 <= k < |chosen| && chosen[k] in chosen[k + 1..] ==> counts[k] <= 0)
    && (forall k :: 0 <= k < |chosen| && chosen[k] !in chosen[k + 1..] ==> At(g, chosen[k]).arrowCount == counts[k])
    && (forall p :: InGrid(g0, p) && p !in chosen ==> At(g, p) == At(g0, p))
  }

  /** One more round, at a cell p without arrows, given n arrows. */
  lemma ArrowRoundStep(g0: Grid, g: Grid, chosen: seq<Point2D>, counts: seq<int>, p: Point2D, n: int)
    requires ArrowRounds(g0, g, chosen, counts) && InGrid(g, p) && At(g, p).arrowCount <= 0
    ensures ArrowRounds(g0, Put(g, p, AddArrows(At(g, p), n)), chosen + [p], counts + [n])
  {
    var h := Put(g, p, AddArrows(At(g, p), n));
    var chosen', counts' := chosen + [p], counts + [n];
    assert InGrid(g0, p);
    if p !in chosen {
      assert At(g, p) == At(g0, p);
    }
    forall k | 0 <= k < |chosen'|
      ensures chosen'[k] in chosen'[k + 1..] ==> counts'[k] <= 0
      ensures chosen'[k] !in chosen'[k + 1..] ==> At(h, chosen'[k]).arrowCount == counts'[k]
    {
      if k < |chosen| {
        assert chosen'[k + 1..] == chosen[k + 1..] + [p];
        if chosen[k] == p && chosen[k] !in chosen[k + 1..] {
          assert counts[k] == At(g, p).arrowCount;
        }
      }
    }
  }

  /** No cell has a pit or a thief: the grid before the pits-and-thieves variant adds them. */
  ghost predicate NoHazards(g: Grid) {
    forall p :: InGrid(g, p) ==> !At(g, p).pit && !At(g, p).thief
  }

  /** Changing links, or contents other than pits and thieves, adds neither. */
  lemma NoHazardsKept(g: Grid, h: Grid, part: Content)
    requires NoHazards(g) && (LinksOnly(g, h) || (Only(g, h, part) && part != PitFlag && part != ThiefFlag))
    ensures NoHazards(h)
  {
    forall p | InGrid(h, p) ensures !At(h, p).pit && !At(h, p).thief {
      assert InGrid(g, p);
      if !LinksOnly(g, h) {
        assert Without(At(h, p), part).pit == Without(At(g, p), part).pit;
        assert Without(At(h, p), part).thief == Without(At(g, p), part).thief;
      } else {
        assert At(h, p).(adjacency := []).pit == At(g, p).(adjacency := []).pit;
        assert At(h, p).(adjacency := []).thief == At(g, p).(adjacency := []).thief;
      }
    }
  }

  /** The flag of a cell that addPits (PitFlag) or addThieves (ThiefFlag) sets. */
  predicate Flag(c: Cell, part: Content) {
    match part
    case PitFlag => c.pit
    case ThiefFlag => c.thief
    case _ => false
  }

  /** addPit or addThief. */
  function SetFlag(c: Cell, part: Content): (r: Cell)
    requires part == PitFlag || part == ThiefFlag
    ensures Flag(r, part) && Without(r, part) == Without(c, part)
  {
    if part == PitFlag then AddPit(c) else AddThief(c)
  }

  /**
   * The state after some rounds of addPits or addThieves: the flag is set at
   * the distinct cells `cells`, each one of `pool` other than start and end
   * that had no flag; every other cell is as it was.
   */
  ghost predicate FlagRounds(g0: Grid, g: Grid, part: Content, pool: seq<Point2D>, start: Point2D, end: Point2D,
                             cells: seq<Point2D>) {
    Only(g0, g, part) && NoDup(cells)
    && (forall k :: 0 <= k < |cells| ==>
          cells[k] in pool && cells[k] != start && cells[k] != end && InGrid(g0, cells[k])
          && !Flag(At(g0, cells[k]), part) && Flag(At(g, cells[k]), part))
    && (forall p :: InGrid(g0, p) && p !in cells ==> At(g, p) == At(g0, p))
  }

  /** One more round, at a cell p of the pool, neither start nor end, whose flag is not set. */
  lemma FlagStep(g0: Grid, g: Grid, part: Content, pool: seq<Point2D>, start: Point2D, end: Point2D,
                 cells: seq<Point2D>, p: Point2D)
    requires part == PitFlag || part == ThiefFlag
    requires FlagRounds(g0, g, part, pool, start, end, cells)
    requires p in pool && InGrid(g0, p) && p != start && p != end && !Flag(At(g, p), part)
    ensures FlagRounds(g0, Put(g, p, SetFlag(At(g, p), part)), part, pool, start, end, cells + [p])
  {
    var h := Put(g, p, SetFlag(At(g, p), part));
    var cells' := cells + [p];
    assert p !in cells;
    assert At(g, p) == At(g0, p);
    forall k | 0 <= k < |cells'| ensures Flag(At(h, cells'[k]), part) {
      if k < |cells| {
        assert cells'[k] == cells[k];
      }
    }
  }

  /** With no flags at the start, the flags after the rounds are exactly at `cells`. */
  lemma FlagsExactly(g0: Grid, g: Grid, part: Content, pool: seq<Point2D>, start: Point2D, end: Point2D,
                     cells: seq<Point2D>)
    requires part == PitFlag || part == ThiefFlag
    requires NoHazards(g0) && FlagRounds(g0, g, part, pool, start, end, cells)
    ensures forall p :: InGrid(g, p) ==> (Flag(At(g, p), part) <==> p in cells)
  {
    forall p | InGrid(g, p) ensures Flag(At(g, p), part) <==> p in cells {
      assert InGrid(g0, p);
      if p in cells {
        var k :| 0 <= k < |cells| && cells[k] == p;
      }
    }
  }

  /**
   * The number of cells a placement fills: `percent` per cent of n, rounded
   * down, as the cast to int of the double product gives it.
   */
  function PercentOf(n: nat, percent: nat): (r: nat)
    ensures percent <= 100 ==> r <= n
    ensures r * 100 <= n * percent < (r + 1) * 100
  {
    n * percent / 100
  }

  /**
   * The monsters addMonstersToDungeon places besides the one at the end
   * cave: difficulty - 1, or two fewer than the caves when that is not below
   * the number of caves.
   */
  function MonsterQuota(difficulty: int, caves: int): (r: int)
    ensures difficulty - 1 < caves ==> r == difficulty - 1
    ensures difficulty - 1 >= caves ==> r == caves - 2
  {
    if difficulty - 1 >= caves then caves - 2 else difficulty - 1
  }

  /** The pits addPits places: difficulty, or two fewer than the caves when that is not below the number of caves. */
  function PitQuota(difficulty: int, caves: int): (r: int)
    ensures difficulty < caves ==> r == difficulty
    ensures difficulty >= caves ==> r == caves - 2
  {
    if difficulty >= caves then caves - 2 else difficulty
  }

  /** The thieves addThieves places: difficulty, at most one per tunnel. */
  function ThiefQuota(difficulty: int, tunnels: int): (r: int)
    ensures r == if difficulty < tunnels then difficulty else tunnels
  {
    if difficulty >= tunnels then tunnels else difficulty
  }

  /**
   * The number of start and end pairs getStartEndLocations tries before it
   * gives up: half the number of unordered pairs of n caves, rounded down,
   * and 0 below two caves (where the factorials it is computed from are 1).
   */
  function PairBudget(n: int): (r: int)
    ensures r >= 0
    ensures n >= 2 ==> r * 4 <= n * (n - 1) < (r + 1) * 4
    ensures n <= 2 ==> r == 0
  {
    if n < 2 then 0 else n * (n - 1) / 2 / 2
  }

  /** The non-negative part of an integer: how often a `while (k > 0) k--` loop runs. */
  function Runs(k: int): nat {
    if k > 0 then k else 0
  }
}
