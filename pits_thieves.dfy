/**
 * The dungeon with pits and thieves (PitsThievesDungeonImpl.java): the
 * plain dungeon game, then pits in some caves and thieves in some tunnels.
 * Entering a pit may kill the player; entering a thief's tunnel loses every
 * treasure carried.
 *
 * In Java the variant is a subclass; here it holds the plain game and acts
 * on that game's fields.
 */
module PitsThieves {
  import opened Outcomes
  import opened Points
  import opened LocationMaps
  import opened Cells
  import opened Players
  import opened Layout
  import opened Distances
  import opened Shots
  import opened Walks
  import opened UsedPaths
  import opened Placements
  import opened DungeonGames

  /**
   * What a pit does to the player entering it in movePlayer: the next
   * value of the number source kills at 0, with death reason 2. No pit, no
   * effect; None when a value is needed and none is left.
   */
  function PitFall(pit: bool, f: Fate): (r: Option<Fate>)
    ensures !pit ==> r == Some(f)
    ensures r.None? <==> pit && f.draws == []
    ensures r.Some? && pit ==> r.value.draws == f.draws[1..]
    ensures r.Some? && r.value.alive ==> r.value == f.(draws := r.value.draws)
    ensures r.Some? && !r.value.alive && f.alive ==> r.value.reason == 2
  {
    if !pit then Some(f)
    else if f.draws == [] then None
    else if f.draws[0] == 0 then Some(f.(alive := false, reason := 2, draws := f.draws[1..]))
    else Some(f.(draws := f.draws[1..]))
  }

  /** The keys of `moves`, in the given order, whose exit leads to a cell with a pit. */
  function PitKeys(g: Grid, order: seq<Direction>, moves: map<Direction, Point2D>): (r: seq<Direction>)
    requires forall d :: d in moves ==> InGrid(g, moves[d])
    ensures forall d :: d in r <==> d in order && d in moves && At(g, moves[d]).pit
    ensures |r| <= |order|
    ensures NoDup(order) ==> NoDup(r)
    ensures EachDirectionOnce(order) ==> forall d :: d in r <==> d in moves && At(g, moves[d]).pit
    decreases |order|
  {
    if order == [] then []
    else
      var front, d := order[..|order| - 1], order[|order| - 1];
      assert order == front + [d];
      var r := PitKeys(g, front, moves);
      if d in moves && At(g, moves[d]).pit then r + [d] else r
  }

  /** g is g0 with the pit flag set exactly on pits and the thief flag exactly on thieves, and nothing else changed. */
  ghost predicate HazardsAdded(g0: Grid, g: Grid, pits: seq<Point2D>, thieves: seq<Point2D>) {
    SameShape(g0, g)
    && forall p :: InGrid(g0, p) ==> At(g, p) == At(g0, p).(pit := p in pits, thief := p in thieves)
  }

  /** Pits, then thieves, each changing only its own flag, leave the grid with exactly the listed flags. */
  lemma HazardsOnly(g0: Grid, g1: Grid, g2: Grid, pits: seq<Point2D>, thieves: seq<Point2D>)
    requires NoHazards(g0) && Only(g0, g1, PitFlag) && Only(g1, g2, ThiefFlag)
    requires forall p :: InGrid(g2, p) ==> (At(g2, p).pit <==> p in pits) && (At(g2, p).thief <==> p in thieves)
    ensures HazardsAdded(g0, g2, pits, thieves)
  {
    forall p | InGrid(g0, p) ensures At(g2, p) == At(g0, p).(pit := p in pits, thief := p in thieves) {
      assert InGrid(g1, p) && InGrid(g2, p);
      assert Without(At(g1, p), PitFlag) == Without(At(g0, p), PitFlag);
      assert Without(At(g2, p), ThiefFlag) == Without(At(g1, p), ThiefFlag);
    }
  }

  class PitsThievesDungeon {
    const game: DungeonGame

    constructor (game: DungeonGame)
      ensures this.game == game
    {
      this.game := game;
    }

    /**
     * The PitsThievesDungeonImpl constructor: the plain game is built (with
     * the same argument checks), then pits and thieves are added.
     */
    static method New(rows: int, cols: int, interconnectivity: int, wrapping: bool, treasureArrowPercent: int,
                      difficulty: int, player: Option<Player>, source: Option<seq<int>>,
                      hashOrder: seq<LocationMap> -> seq<LocationMap>, keyOrder: seq<Direction>)
      returns (r: Result<PitsThievesDungeon>, ghost base: Grid, ghost pits: seq<Point2D>, ghost thieves: seq<Point2D>)
      requires Permutes(hashOrder) && EachDirectionOnce(keyOrder)
      ensures var v := Validate(rows, cols, interconnectivity, treasureArrowPercent, difficulty, player.Some?, source.Some?);
              v.Some? ==> r == Err(v.value)
      ensures r.Ok? ==> fresh(r.value) && fresh(r.value.game) && r.value.game.player == player.value
      ensures r.Ok? ==> r.value.game.rows == rows && r.value.game.cols == cols && r.value.game.difficulty == difficulty
      ensures r.Ok? ==> r.value.game.interconnectivity == interconnectivity && r.value.game.wrapping == wrapping
                        && r.value.game.treasureArrowPercent == treasureArrowPercent && r.value.game.keyOrder == keyOrder
      ensures r.Ok? ==> r.value.Hazardous(pits, thieves) && r.value.game.Playable()
      ensures r.Ok? ==> Built(base, rows, cols, r.value.game.start, r.value.game.end, r.value.game.playerCurrentLocation)
                        && NoHazards(base) && HazardsAdded(base, r.value.game.dungeon, pits, thieves)
      ensures r.Err? ==> r.error in {IllegalArgument(NegativeSize), IllegalArgument(NegativeInterconnectivity),
                                     IllegalArgument(PercentOutOfRange), IllegalArgument(NonPositiveDifficulty),
                                     IllegalArgument(NullPlayer), IllegalArgument(NullNumberSource),
                                     IllegalArgument(InterconnectivityTooLarge), IllegalArgument(TooFewCaves),
                                     IllegalArgument(NoDistantPair), IndexOutOfBounds, DrawsExhausted}
    {
      base, pits, thieves := [], [], [];
      var made := DungeonGame.New(rows, cols, interconnectivity, wrapping, treasureArrowPercent, difficulty,
                                  player, source, hashOrder, keyOrder);
      if made.Err? {
        return Err(made.error), base, pits, thieves;
      }
      base := made.value.dungeon;
      var dungeon := new PitsThievesDungeon(made.value);
      var added;
      added, pits, thieves := dungeon.AddHazards();
      if added.Err? {
        return Err(added.error), base, pits, thieves;
      }
      r := Ok(dungeon);
    }

    /**
     * The game as built and furnished with pits and thieves: the plain
     * game's grid facts, the end monster at full health, and pits exactly
     * in the distinct caves `pits`, thieves exactly in the distinct tunnels
     * `thieves`, as many as the quotas say, none at start or end.
     */
    ghost predicate Hazardous(pits: seq<Point2D>, thieves: seq<Point2D>)
      reads this, game
      reads if InGrid(game.dungeon, game.end) && game.dungeon[game.end.x][game.end.y].monster.Some?
            then {game.dungeon[game.end.x][game.end.y].monster.value} else {}
    {
      var g := game.dungeon;
      Built(g, game.rows, game.cols, game.start, game.end, game.playerCurrentLocation)
      && At(g, game.end).monster.value.potentialDamage == 1.0
      && NoDup(pits) && NoDup(thieves)
      && (forall p :: InGrid(g, p) ==> (At(g, p).pit <==> p in pits) && (At(g, p).thief <==> p in thieves))
      && (forall k :: 0 <= k < |pits| ==>
            InGrid(g, pits[k]) && IsCave(At(g, pits[k])) && pits[k] != game.start && pits[k] != game.end)
      && (forall k :: 0 <= k < |thieves| ==> InGrid(g, thieves[k]) && !IsCave(At(g, thieves[k])))
      && |pits| == Runs(PitQuota(game.difficulty, |CellsOfKind(g, game.rows, game.cols, true)|))
      && |thieves| == Runs(ThiefQuota(game.difficulty, |CellsOfKind(g, game.rows, game.cols, false)|))
    }

    /** addPits, then addThieves, on the game as built. */
    method AddHazards() returns (r: Result<()>, ghost pits: seq<Point2D>, ghost thieves: seq<Point2D>)
      requires game.Started() && EachDirectionOnce(game.keyOrder)
      modifies game`dungeon, game`draws
      ensures r.Ok? ==> Hazardous(pits, thieves) && game.Playable()
      ensures r.Ok? ==> HazardsAdded(old(game.dungeon), game.dungeon, pits, thieves)
      ensures r.Err? ==> r.error == IndexOutOfBounds || r.error == DrawsExhausted
    {
      ghost var g0 := game.dungeon;
      ghost var rows, cols, start, end := game.rows, game.cols, game.start, game.end;
      thieves := [];
      r, pits := AddPits();
      ghost var g1 := game.dungeon;
      if r.Err? {
        return r, pits, thieves;
      }
      r, thieves := AddThieves();
      ghost var g2 := game.dungeon;
      if r.Err? {
        return r, pits, thieves;
      }
      BuiltKept(g0, g1, rows, cols, start, end, game.playerCurrentLocation, PitFlag);
      BuiltKept(g1, g2, rows, cols, start, end, game.playerCurrentLocation, ThiefFlag);
      HazardsPlaced(g0, g1, g2, rows, cols, start, end, pits, thieves);
      HazardsOnly(g0, g1, g2, pits, thieves);
    }

    /** The lists of caves and tunnels are those of the grid as built. */
    static lemma HazardsPlaced(g0: Grid, g1: Grid, g2: Grid, rows: nat, cols: nat, start: Point2D, end: Point2D,
                               pits: seq<Point2D>, thieves: seq<Point2D>)
      requires Shaped(g0, rows, cols) && NoHazards(g0)
      requires FlagRounds(g0, g1, PitFlag, CellsOfKind(g0, rows, cols, true), start, end, pits)
      requires FlagRounds(g1, g2, ThiefFlag, CellsOfKind(g1, rows, cols, false), start, end, thieves)
      ensures forall p :: InGrid(g2, p) ==> (At(g2, p).pit <==> p in pits) && (At(g2, p).thief <==> p in thieves)
      ensures forall k :: 0 <= k < |pits| ==> InGrid(g2, pits[k]) && IsCave(At(g2, pits[k]))
      ensures forall k :: 0 <= k < |thieves| ==> InGrid(g2, thieves[k]) && !IsCave(At(g2, thieves[k]))
      ensures CellsOfKind(g2, rows, cols, true) == CellsOfKind(g0, rows, cols, true)
      ensures CellsOfKind(g2, rows, cols, false) == CellsOfKind(g1, rows, cols, false)
    {
      OnlyKeepsLinks(g0, g1, PitFlag);
      OnlyKeepsLinks(g1, g2, ThiefFlag);
      SameLinksTransitive(g0, g1, g2);
      CellsOfKindSameLinks(g0, g2, rows, cols, true);
      CellsOfKindSameLinks(g1, g2, rows, cols, false);
      FlagsExactly(g0, g1, PitFlag, CellsOfKind(g0, rows, cols, true), start, end, pits);
      NoHazardsThiefFree(g0, g1);
      forall p | InGrid(g2, p) ensures (At(g2, p).pit <==> p in pits) && (At(g2, p).thief <==> p in thieves) {
        assert InGrid(g1, p) && InGrid(g0, p);
        assert Without(At(g2, p), ThiefFlag).pit == Without(At(g1, p), ThiefFlag).pit;
        if p in thieves {
          var k :| 0 <= k < |thieves| && thieves[k] == p;
        }
      }
      forall k | 0 <= k < |pits| ensures IsCave(At(g2, pits[k])) {
        assert pits[k] in CellsOfKind(g0, rows, cols, true);
      }
      forall k | 0 <= k < |thieves| ensures !IsCave(At(g2, thieves[k])) {
        assert thieves[k] in CellsOfKind(g1, rows, cols, false);
      }
    }

    /** After pits alone, no cell has a thief. */
    static lemma NoHazardsThiefFree(g0: Grid, g1: Grid)
      requires NoHazards(g0) && Only(g0, g1, PitFlag)
      ensures forall p :: InGrid(g1, p) ==> !At(g1, p).thief
    {
      forall p | InGrid(g1, p) ensures !At(g1, p).thief {
        assert InGrid(g0, p);
        assert Without(At(g1, p), PitFlag).thief == Without(At(g0, p), PitFlag).thief;
      }
    }

    /**
     * addPits: difficulty pits, or two fewer than the caves when the caves
     * are not more than that, each in a cave drawn from the list of caves;
     * start, end and a cave with a pit already are passed over.
     */
    method AddPits() returns (r: Result<()>, ghost pits: seq<Point2D>)
      requires Shaped(game.dungeon, game.rows, game.cols)
      modifies game`dungeon, game`draws
      ensures FlagRounds(old(game.dungeon), game.dungeon, PitFlag, CellsOfKind(old(game.dungeon), game.rows, game.cols, true),
                         game.start, game.end, pits)
      ensures r.Ok? ==> |pits| == Runs(PitQuota(game.difficulty, |CellsOfKind(old(game.dungeon), game.rows, game.cols, true)|))
      ensures r.Err? ==> r.error == IndexOutOfBounds || r.error == DrawsExhausted
    {
      var caves := game.CellsOfKindIn(true);
      var pitsCount := PitQuota(game.difficulty, |caves|);
      r, pits := PlaceFlags(caves, PitFlag, pitsCount);
    }

    /**
     * addThieves: difficulty thieves, or one per tunnel when there are not
     * more tunnels than that, each in a tunnel drawn from the list of
     * tunnels; start, end and a tunnel with a thief already are passed over.
     */
    method AddThieves() returns (r: Result<()>, ghost thieves: seq<Point2D>)
      requires Shaped(game.dungeon, game.rows, game.cols)
      modifies game`dungeon, game`draws
      ensures FlagRounds(old(game.dungeon), game.dungeon, ThiefFlag, CellsOfKind(old(game.dungeon), game.rows, game.cols, false),
                         game.start, game.end, thieves)
      ensures r.Ok? ==> |thieves| == Runs(ThiefQuota(game.difficulty, |CellsOfKind(old(game.dungeon), game.rows, game.cols, false)|))
      ensures r.Err? ==> r.error == IndexOutOfBounds || r.error == DrawsExhausted
    {
      var tunnels := game.CellsOfKindIn(false);
      var thievesCount := ThiefQuota(game.difficulty, |tunnels|);
      r, thieves := PlaceFlags(tunnels, ThiefFlag, thievesCount);
    }

    /** The loop shared by addPits and addThieves: until `count` flags are set, a cell of the pool is drawn. */
    method PlaceFlags(pool: seq<Point2D>, part: Content, count: int) returns (r: Result<()>, ghost cells: seq<Point2D>)
      requires part == PitFlag || part == ThiefFlag
      requires forall k :: 0 <= k < |pool| ==> InGrid(game.dungeon, pool[k])
      modifies game`dungeon, game`draws
      ensures FlagRounds(old(game.dungeon), game.dungeon, part, pool, game.start, game.end, cells)
      ensures r.Ok? ==> |cells| == Runs(count)
      ensures r.Err? ==> r.error == IndexOutOfBounds || r.error == DrawsExhausted
    {
      ghost var g0 := game.dungeon;
      var remaining := count;
      cells := [];
      r := Ok(());
      while remaining > 0
        invariant FlagRounds(g0, game.dungeon, part, pool, game.start, game.end, cells)
        invariant |cells| + Runs(remaining) == Runs(count)
        decreases |game.draws|
      {
        var turn;
        turn, cells := FlagTurn(pool, part, g0, cells);
        if turn.Err? {
          return Err(turn.error), cells;
        }
        if turn.value {
          remaining := remaining - 1;
        }
      }
    }

    /** One turn of that loop: a drawn cell of the pool gets the flag unless it is start, end or flagged already. */
    method FlagTurn(pool: seq<Point2D>, part: Content, ghost g0: Grid, ghost cells: seq<Point2D>)
      returns (r: Result<bool>, ghost cells': seq<Point2D>)
      requires part == PitFlag || part == ThiefFlag
      requires forall k :: 0 <= k < |pool| ==> InGrid(g0, pool[k])
      requires FlagRounds(g0, game.dungeon, part, pool, game.start, game.end, cells)
      modifies game`dungeon, game`draws
      ensures FlagRounds(g0, game.dungeon, part, pool, game.start, game.end, cells')
      ensures r.Ok? ==> |game.draws| < |old(game.draws)| && |cells'| == |cells| + (if r.value then 1 else 0)
      ensures r.Err? ==> r.error == IndexOutOfBounds || r.error == DrawsExhausted
    {
      cells' := cells;
      var randomCave :- game.Draw();
      if !(0 <= randomCave < |pool|) {
        return Err(IndexOutOfBounds), cells';
      }
      var location := pool[randomCave];
      assert InGrid(game.dungeon, location);
      if location == game.end || location == game.start || Flag(At(game.dungeon, location), part) {
        return Ok(false), cells';
      }
      FlagStep(g0, game.dungeon, part, pool, game.start, game.end, cells, location);
      game.dungeon := Put(game.dungeon, location, SetFlag(At(game.dungeon, location), part));
      return Ok(true), cells + [location];
    }

    /**
     * getPitsAroundThisLocation: the directions, in the order the table of
     * exits lists them, whose exit from `location` leads to a pit.
     */
    method PitsAround(location: Point2D) returns (dirs: seq<Direction>)
      requires game.Playable() && InGrid(game.dungeon, location)
      ensures dirs == PitKeys(game.dungeon, game.keyOrder, MovesAt(game.dungeon, game.rows, game.cols, location))
      ensures var moves := MovesAt(game.dungeon, game.rows, game.cols, location);
              forall d :: d in dirs <==> d in moves && At(game.dungeon, moves[d]).pit
      ensures NoDup(dirs)
    {
      var pitsDirs := MovesAt(game.dungeon, game.rows, game.cols, location);
      var order := game.keyOrder;
      dirs := [];
      for i := 0 to |order|
        invariant dirs == PitKeys(game.dungeon, order[..i], pitsDirs)
      {
        assert order[..i + 1][..i] == order[..i];
        if order[i] in pitsDirs && At(game.dungeon, pitsDirs[order[i]]).pit {
          dirs := dirs + [order[i]];
        }
      }
      assert order[..|order|] == order;
    }

    /**
     * movePlayer: the plain game's move; when it succeeds, a pit in the new
     * cell may kill the player (`PitFall`), whatever the monster did, and a
     * thief there takes every treasure the player carries.
     */
    method MovePlayer(direction: Option<Direction>) returns (r: Result<()>)
      requires game.Playable()
      modifies game`playerCurrentLocation, game`dungeon, game`draws
      modifies game.player`isAlive, game.player`deathReason, game.player`treasuresOwned
      ensures game.Playable() && SameLinks(old(game.dungeon), game.dungeon)
      ensures direction.None? ==> r == Err(IllegalArgument(NullDirection))
      ensures direction.Some? && old(game.CheckIfGameOver()).Some? ==> r == Err(old(game.CheckIfGameOver()).value)
      ensures direction.Some? && old(game.CheckIfGameOver()).None? && direction.value !in old(game.CurrentMoves()) ==>
              r == Err(IllegalArgument(NoSuchDirection))
      ensures old(game.MoveTarget(direction)).None? ==>
              r.Err? && game.dungeon == old(game.dungeon) && game.playerCurrentLocation == old(game.playerCurrentLocation)
              && game.FateOf() == old(game.FateOf()) && game.player.treasuresOwned == old(game.player.treasuresOwned)
      ensures old(game.MoveTarget(direction)).Some? ==>
              game.playerCurrentLocation == old(game.MoveTarget(direction)).value
              && game.dungeon == old(Put(game.dungeon, game.MoveTarget(direction).value,
                                         SetVisited(At(game.dungeon, game.MoveTarget(direction).value))))
      ensures old(game.MoveTarget(direction)).Some? ==>
              var e := Encounter(game.Here().monster, old(game.FateOf()));
              (e.None? ==> r == Err(DrawsExhausted) && game.FateOf() == old(game.FateOf())
                           && game.player.treasuresOwned == old(game.player.treasuresOwned))
              && (e.Some? ==>
                    var f := PitFall(game.Here().pit, e.value);
                    (f.None? ==> r == Err(DrawsExhausted) && game.FateOf() == e.value
                                 && game.player.treasuresOwned == old(game.player.treasuresOwned))
                    && (f.Some? ==> r == Ok(()) && game.FateOf() == f.value
                                    && game.player.treasuresOwned
                                       == (if game.Here().thief then [] else old(game.player.treasuresOwned))))
    {
      r := game.MovePlayer(direction);
      if r.Err? {
        return r;
      }
      r := EnterHazards();
    }

    /**
     * The second half of movePlayer, in the cell just entered: a pit takes
     * the next value of the number source and kills at 0; a thief takes
     * every treasure.
     */
    method EnterHazards() returns (r: Result<()>)
      requires game.Playable()
      modifies game`draws, game.player`isAlive, game.player`deathReason, game.player`treasuresOwned
      ensures game.Playable()
      ensures var f := PitFall(game.Here().pit, old(game.FateOf()));
              (f.None? ==> r == Err(DrawsExhausted) && game.FateOf() == old(game.FateOf())
                           && game.player.treasuresOwned == old(game.player.treasuresOwned))
              && (f.Some? ==> r == Ok(()) && game.FateOf() == f.value
                              && game.player.treasuresOwned
                                 == (if game.Here().thief then [] else old(game.player.treasuresOwned)))
    {
      var concretePlayer := game.player;
      if game.Here().pit {
        var playerLife :- game.Draw();
        if playerLife == 0 {
          concretePlayer.KillPlayer();
          concretePlayer.SetDeathReason(2);
        }
      }
      if game.Here().thief {
        concretePlayer.RemoveTreasures();
      }
      r := Ok(());
    }
  }
}
