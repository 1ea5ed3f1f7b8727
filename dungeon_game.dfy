/**
 * The dungeon game (DungeonGameImpl.java): the grid of cells, the player,
 * the start, end and current cells, the union-find array of the spanning
 * tree builder, and the stream of values the number source will return.
 *
 * Construction builds the dungeon step by step from that stream; each step
 * is a method that changes the grid and consumes values, and says what it
 * changed. The turn operations (moving, shooting, picking up) then change
 * the current cell, the cells and the player.
 */
module DungeonGames {
  import opened Outcomes
  import opened Points
  import opened LocationMaps
  import opened Monsters
  import opened Cells
  import opened Players
  import opened Layout
  import opened Walks
  import opened Forests
  import opened SpanningTree
  import opened Distances
  import opened CandidatePaths
  import opened UsedPaths
  import opened Shots
  import opened Placements

  class DungeonGame {
    const rows: nat
    const cols: nat
    const interconnectivity: nat
    const wrapping: bool
    const treasureArrowPercent: nat
    const difficulty: nat
    const player: Player
    const parentNodes: array<int>
    /** The order in which the hash map of used paths lists its keys. */
    const hashOrder: seq<LocationMap> -> seq<LocationMap>
    /** The order in which a hash map keyed by direction lists its keys. */
    const keyOrder: seq<Direction>
    /** How many steps of an arrow's flight the model follows. */
    const shotFuel: nat

    var dungeon: Grid
    var start: Point2D
    var end: Point2D
    var playerCurrentLocation: Point2D
    /** The values the number source has still to return, in order. */
    var draws: seq<int>

    /** The fields as the Java constructor sets them before createDungeon. */
    constructor Init(rows: nat, cols: nat, interconnectivity: nat, wrapping: bool, treasureArrowPercent: nat,
                     difficulty: nat, player: Player, draws: seq<int>,
                     hashOrder: seq<LocationMap> -> seq<LocationMap>, keyOrder: seq<Direction>)
      requires EachDirectionOnce(keyOrder)
      ensures this.rows == rows && this.cols == cols && this.interconnectivity == interconnectivity
      ensures this.wrapping == wrapping && this.treasureArrowPercent == treasureArrowPercent
      ensures this.difficulty == difficulty && this.player == player && this.draws == draws
      ensures this.hashOrder == hashOrder && this.keyOrder == keyOrder
      ensures fresh(parentNodes) && parentNodes.Length == rows * cols
      ensures dungeon == []
    {
      this.rows := rows;
      this.cols := cols;
      this.interconnectivity := interconnectivity;
      this.wrapping := wrapping;
      this.treasureArrowPercent := treasureArrowPercent;
      this.difficulty := difficulty;
      this.player := player;
      this.hashOrder := hashOrder;
      this.keyOrder := keyOrder;
      this.shotFuel := 32 * rows * cols + 4;
      this.draws := draws;
      parentNodes := new int[rows * cols];
      dungeon := [];
      start := Point2D(0, 0);
      end := Point2D(0, 0);
      playerCurrentLocation := Point2D(0, 0);
    }

    /** getIntInRange: the next value of the number source. */
    method Draw() returns (r: Result<int>)
      modifies this`draws
      ensures old(draws) == [] ==> r == Err(DrawsExhausted) && draws == old(draws)
      ensures old(draws) != [] ==> r == Ok(old(draws)[0]) && draws == old(draws)[1..]
    {
      if draws == [] {
        return Err(DrawsExhausted);
      }
      r := Ok(draws[0]);
      draws := draws[1..];
    }

    // -------------------------------------------------------------------------
    // Building the grid

    /** The first loop of createDungeon: a new cell for every coordinate. */
    static method MakeCells(rows: nat, cols: nat) returns (g: Grid)
      ensures Fresh(g, rows, cols)
    {
      g := [];
      for row := 0 to rows
        invariant |g| == row && forall i :: 0 <= i < row ==> |g[i]| == cols
        invariant forall p :: InGrid(g, p) ==> At(g, p) == FreshCell(p)
      {
        var line: seq<Cell> := [];
        for col := 0 to cols
          invariant |line| == col && forall j :: 0 <= j < col ==> line[j] == FreshCell(Point2D(row, j))
        {
          var cell := NewLocation(Some(Point2D(row, col)));
          line := line + [cell.value];
        }
        g := g + [line];
      }
    }

    /** find: follows the parent pointers to the root. */
    method Find(i: int, ghost rank: seq<nat>) returns (r: int)
      requires IsForest(parentNodes[..], rank) && 0 <= i < parentNodes.Length
      ensures r == Root(parentNodes[..], rank, i)
    {
      r := i;
      while parentNodes[r] != r
        invariant 0 <= r < parentNodes.Length
        invariant Root(parentNodes[..], rank, r) == Root(parentNodes[..], rank, i)
        decreases parentNodes.Length - rank[r]
      {
        r := parentNodes[r];
      }
    }

    /** union1: the root of i now points to the root of j. */
    method Union1(i: int, j: int, ghost rank: seq<nat>)
      requires IsForest(parentNodes[..], rank) && 0 <= i < parentNodes.Length && 0 <= j < parentNodes.Length
      modifies parentNodes
      ensures parentNodes[..] == Union(old(parentNodes[..]), Root(old(parentNodes[..]), rank, i),
                                       Root(old(parentNodes[..]), rank, j))
    {
      var a := Find(i, rank);
      var b := Find(j, rank);
      parentNodes[a] := b;
    }

    /**
     * The draw at the head of buildMst's loop and the inner loop after it:
     * indices are drawn until one names a path not yet used.
     */
    method DrawUnused(paths: seq<LocationMap>, used: map<LocationMap, bool>) returns (r: Result<LocationMap>)
      requires forall k :: 0 <= k < |paths| ==> paths[k] in used
      modifies this`draws
      ensures |draws| < |old(draws)| || (old(draws) == [] && r == Err(DrawsExhausted))
      ensures r.Ok? ==> r.value in paths && !used[r.value]
      ensures r.Err? ==> r.error == IndexOutOfBounds || r.error == DrawsExhausted
    {
      var index :- Draw();
      if !(0 <= index < |paths|) {
        return Err(IndexOutOfBounds);
      }
      var path := paths[index];
      while used[path]
        invariant path in paths && |draws| < |old(draws)|
        decreases |draws|
      {
        index :- Draw();
        if !(0 <= index < |paths|) {
          return Err(IndexOutOfBounds);
        }
        path := paths[index];
      }
      return Ok(path);
    }

    /** The marks of buildMst's hash map: one per candidate, set exactly for the accepted paths. */
    ghost predicate Marks(used: map<LocationMap, bool>, paths: seq<LocationMap>, tree: seq<LocationMap>) {
      (forall e :: e in used <==> e in paths) && (forall e :: e in used ==> (used[e] <==> e in tree))
    }

    /**
     * An accepted path of buildMst: the two sets are joined and the path is
     * linked into both of its end cells, which keeps the loop's state.
     */
    method AcceptPath(path: LocationMap, sourceIndex: int, destIndex: int, ghost g0: Grid, ghost rank: seq<nat>,
                      ghost tree: seq<LocationMap>)
      requires TreeState(g0, dungeon, rows, cols, parentNodes[..], rank, tree)
      requires Inside(rows, cols, path.source) && Inside(rows, cols, path.dest) && |tree| < rows * cols - 1
      requires sourceIndex == PointIndex(cols, path.source) && destIndex == PointIndex(cols, path.dest)
      requires RootAt(parentNodes[..], rank, cols, path.source) != RootAt(parentNodes[..], rank, cols, path.dest)
      modifies this`dungeon, parentNodes
      ensures 0 <= sourceIndex < rows * cols && 0 <= destIndex < rows * cols
      ensures TreeState(g0, dungeon, rows, cols, parentNodes[..],
                        UnionRank(rank, Root(old(parentNodes[..]), rank, sourceIndex), Root(old(parentNodes[..]), rank, destIndex)),
                        tree + [path])
    {
      IndexInRange(rows, cols, path.source);
      IndexInRange(rows, cols, path.dest);
      AcceptStep(g0, dungeon, rows, cols, parentNodes[..], rank, tree, path);
      Union1(sourceIndex, destIndex, rank);
      dungeon := Link(dungeon, path.source, path.dest);
    }

    /**
     * The test of buildMst's loop on a drawn candidate: when its two cells are
     * in different sets the path is accepted (true), otherwise nothing changes.
     */
    method JoinIfApart(path: LocationMap, ghost g0: Grid, ghost tree: seq<LocationMap>) returns (joined: bool)
      requires Building(g0, dungeon, rows, cols, parentNodes[..], tree) && |tree| != rows * cols - 1
      requires Candidate(rows, cols, path)
      modifies this`dungeon, parentNodes
      ensures !joined ==> dungeon == old(dungeon) && parentNodes[..] == old(parentNodes[..])
      ensures joined ==> Building(g0, dungeon, rows, cols, parentNodes[..], tree + [path])
    {
      ghost var rank :| TreeState(g0, dungeon, rows, cols, parentNodes[..], rank, tree);
      IndexInRange(rows, cols, path.source);
      IndexInRange(rows, cols, path.dest);
      var sourceIndex := OneDIndex(cols, path.source.x, path.source.y);
      var destIndex := OneDIndex(cols, path.dest.x, path.dest.y);
      var a := Find(sourceIndex, rank);
      var b := Find(destIndex, rank);
      if a == b {
        return false;
      }
      AcceptPath(path, sourceIndex, destIndex, g0, rank, tree);
      assert TreeState(g0, dungeon, rows, cols, parentNodes[..], UnionRank(rank, a, b), tree + [path]);
      return true;
    }

    /**
     * The last loop of buildMst: the keys of the hash map, in its iteration
     * order, that are not marked; that is, every candidate not accepted, once.
     */
    method CollectUnused(potentialPaths: seq<LocationMap>, pathsUsed: map<LocationMap, bool>, ghost tree: seq<LocationMap>)
      returns (r: seq<LocationMap>)
      requires Permutes(hashOrder) && Marks(pathsUsed, potentialPaths, tree)
      ensures forall e :: multiset(r)[e] == (if e in potentialPaths && e !in tree then 1 else 0)
    {
      var order := hashOrder(KeysOf(potentialPaths));
      assert forall e :: multiset(order)[e] == (if e in potentialPaths then 1 else 0);
      r := UnusedPaths(order, pathsUsed);
    }

    /** The first loop of buildMst: every cell its own set. */
    method ResetParents()
      modifies parentNodes
      ensures parentNodes[..] == Singletons(parentNodes.Length)
    {
      for i := 0 to parentNodes.Length
        invariant forall k :: 0 <= k < i ==> parentNodes[k] == k
      {
        parentNodes[i] := i;
      }
    }

    /**
     * The main loop of buildMst, from one set per cell and no path accepted:
     * it keeps the loop's state, and ends with the error of a failed draw or
     * with rows * cols - 1 paths accepted and the marks set for them.
     */
    method Kruskal(potentialPaths: seq<LocationMap>, pathsUsed: map<LocationMap, bool>)
      returns (r: Result<map<LocationMap, bool>>, ghost tree: seq<LocationMap>)
      requires Building(dungeon, dungeon, rows, cols, parentNodes[..], [])
      requires forall k :: 0 <= k < |potentialPaths| ==> Candidate(rows, cols, potentialPaths[k])
      requires Marks(pathsUsed, potentialPaths, [])
      modifies this`dungeon, this`draws, parentNodes
      ensures Building(old(dungeon), dungeon, rows, cols, parentNodes[..], tree)
      ensures forall k :: 0 <= k < |tree| ==> tree[k] in potentialPaths
      ensures r.Err? ==> r.error == IndexOutOfBounds || r.error == DrawsExhausted
      ensures r.Ok? ==> |tree| == rows * cols - 1 && Marks(r.value, potentialPaths, tree)
    {
      var edgeCount := 0;
      var verticesCount := rows * cols;
      var used := pathsUsed;
      r := Ok(used);
      tree := [];
      while edgeCount != verticesCount - 1
        invariant Building(old(dungeon), dungeon, rows, cols, parentNodes[..], tree)
        invariant edgeCount == |tree| && Marks(used, potentialPaths, tree)
        invariant forall k :: 0 <= k < |tree| ==> tree[k] in potentialPaths
        decreases |draws|
      {
        var drawn := DrawUnused(potentialPaths, used);
        if drawn.Err? {
          return Err(drawn.error), tree;
        }
        var path := drawn.value;
        var joined := JoinIfApart(path, old(dungeon), tree);
        if joined {
          edgeCount := edgeCount + 1;
          used := used[path := true];
          tree := tree + [path];
        }
      }
      return Ok(used), tree;
    }

    /**
     * buildMst: randomized Kruskal over the candidate paths. On success the
     * grid is the unlinked grid with the accepted paths linked in, rows * cols - 1
     * of them, each joining two cells not yet connected; every two cells are
     * connected; and the result lists, once each, the candidates not accepted.
     */
    method BuildMst(potentialPaths: seq<LocationMap>) returns (r: Result<seq<LocationMap>>, ghost tree: seq<LocationMap>)
      requires Shaped(dungeon, rows, cols) && Unlinked(dungeon) && parentNodes.Length == rows * cols
      requires forall k :: 0 <= k < |potentialPaths| ==> Candidate(rows, cols, potentialPaths[k])
      requires Permutes(hashOrder)
      modifies this`dungeon, this`draws, parentNodes
      ensures EdgesIn(old(dungeon), tree) && dungeon == ApplyEdges(old(dungeon), tree)
      ensures BuiltAcyclic(old(dungeon), tree) && Symmetric(dungeon)
      ensures forall k :: 0 <= k < |tree| ==> tree[k] in potentialPaths
      ensures r.Err? ==> r.error == IndexOutOfBounds || r.error == DrawsExhausted
      ensures r.Ok? ==> rows * cols >= 1 && |tree| == rows * cols - 1
      ensures r.Ok? ==> forall p, q :: InGrid(dungeon, p) && InGrid(dungeon, q) ==> Connected(dungeon, p, q)
      ensures r.Ok? ==> forall e :: multiset(r.value)[e] == (if e in potentialPaths && e !in tree then 1 else 0)
    {
      var pathsUsed := MapFromPaths(potentialPaths);
      ResetParents();
      TreeStart(dungeon, rows, cols);
      var marked;
      marked, tree := Kruskal(potentialPaths, pathsUsed);
      ghost var rank :| TreeState(old(dungeon), dungeon, rows, cols, parentNodes[..], rank, tree);
      TreeStateGrid(old(dungeon), dungeon, rows, cols, parentNodes[..], rank, tree);
      if marked.Err? {
        return Err(marked.error), tree;
      }
      TreeDone(old(dungeon), dungeon, rows, cols, parentNodes[..], rank, tree);
      var unused := CollectUnused(potentialPaths, marked.value, tree);
      return Ok(unused), tree;
    }

    /**
     * incorporateInterConnectivity: `interconnectivity` times, a path drawn
     * from the unused list is linked into both its cells. The list of marks
     * it makes is never set, so its reroll loop never runs and the same
     * path may be drawn, and linked, more than once.
     */
    method IncorporateInterConnectivity(unusedPaths: seq<LocationMap>) returns (r: Result<()>, ghost extra: seq<LocationMap>)
      requires Shaped(dungeon, rows, cols)
      requires forall k :: 0 <= k < |unusedPaths| ==> Candidate(rows, cols, unusedPaths[k])
      modifies this`dungeon, this`draws
      ensures EdgesIn(old(dungeon), extra) && dungeon == ApplyEdges(old(dungeon), extra)
      ensures forall k :: 0 <= k < |extra| ==> extra[k] in unusedPaths
      ensures r.Ok? ==> |extra| == interconnectivity
      ensures r.Err? ==> r.error == IndexOutOfBounds || r.error == DrawsExhausted
    {
      var left := interconnectivity;
      var pathsUsed := MapFromPaths(unusedPaths);
      extra := [];
      r := Ok(());
      while left > 0
        invariant 0 <= left <= interconnectivity && |extra| == interconnectivity - left
        invariant EdgesIn(old(dungeon), extra) && dungeon == ApplyEdges(old(dungeon), extra)
        invariant forall k :: 0 <= k < |extra| ==> extra[k] in unusedPaths
        decreases left
      {
        var randomIndex :- Draw();
        if !(0 <= randomIndex < |unusedPaths|) {
          return Err(IndexOutOfBounds), extra;
        }
        var path := unusedPaths[randomIndex];
        // The reroll loop `while (pathsUsed.get(path) == TRUE)` would start here: no mark is ever set.
        assert !pathsUsed[path];
        assert Candidate(rows, cols, path);
        ApplyOneMore(old(dungeon), extra, path);
        dungeon := Link(dungeon, path.source, path.dest);
        extra := extra + [path];
        left := left - 1;
      }
    }

    /**
     * The inner loop of addTreasuresToDungeon for the cell at p: `count`
     * kind draws (none when count is not positive), each adding the treasure
     * it names, if any, to the cell's list.
     */
    method AddDrawnTreasures(p: Point2D, count: int) returns (r: Result<()>, ghost kinds: seq<int>)
      requires InGrid(dungeon, p)
      modifies this`dungeon, this`draws
      ensures old(draws) == kinds + draws
      ensures dungeon == Put(old(dungeon), p, At(old(dungeon), p).(treasures := At(old(dungeon), p).treasures + Kinds(kinds)))
      ensures r.Ok? ==> |kinds| == Runs(count)
      ensures r.Err? ==> r.error == DrawsExhausted
    {
      var left := count;
      kinds := [];
      r := Ok(());
      // The cell being filled (location1 in the code); it is written back into the grid when the loop ends or fails.
      var location1 := At(dungeon, p);
      assert location1.(treasures := location1.treasures + Kinds(kinds)) == location1;
      while left > 0
        invariant old(draws) == kinds + draws && dungeon == old(dungeon)
        invariant count > 0 ==> 0 <= left && |kinds| == count - left
        invariant count <= 0 ==> left == count && kinds == []
        invariant location1 == At(old(dungeon), p).(treasures := At(old(dungeon), p).treasures + Kinds(kinds))
        decreases left
      {
        var randomTreasure := Draw();
        if randomTreasure.Err? {
          dungeon := Put(dungeon, p, location1);
          return Err(randomTreasure.error), kinds;
        }
        KindsOneMore(kinds, randomTreasure.value);
        var t := TreasureOf(randomTreasure.value);
        if t.Some? {
          location1 := AddTreasure(location1, t.value);
        }
        kinds := kinds + [randomTreasure.value];
        left := left - 1;
      }
      dungeon := Put(dungeon, p, location1);
    }

    /**
     * One turn of addTreasuresToDungeon's loop: a cell is drawn, and unless
     * it already holds treasure (false), it is given the kinds of the draws
     * after its count (true).
     */
    method TreasureTurn(ghost g0: Grid, ghost chosen: seq<Point2D>, ghost drawn: seq<seq<int>>)
      returns (r: Result<bool>, ghost chosen': seq<Point2D>, ghost drawn': seq<seq<int>>)
      requires Shaped(g0, rows, cols) && TreasureRounds(g0, dungeon, chosen, drawn)
      modifies this`dungeon, this`draws
      ensures TreasureRounds(g0, dungeon, chosen', drawn')
      ensures r.Ok? ==> |draws| < |old(draws)| && |chosen'| == |chosen| + (if r.value then 1 else 0)
      ensures r.Err? ==> r.error == IndexOutOfBounds || r.error == DrawsExhausted
    {
      chosen', drawn' := chosen, drawn;
      var randomCaveRow :- Draw();
      var randomCaveCol :- Draw();
      if !(0 <= randomCaveRow < rows && 0 <= randomCaveCol < cols) {
        return Err(IndexOutOfBounds), chosen', drawn';
      }
      var p := Point2D(randomCaveRow, randomCaveCol);
      if |At(dungeon, p).treasures| > 0 {
        return Ok(false), chosen', drawn';
      }
      var randomNumberOfTreasures :- Draw();
      ghost var before := dungeon;
      var filled, kinds := AddDrawnTreasures(p, randomNumberOfTreasures);
      TreasureRoundStep(g0, before, chosen, drawn, p, kinds);
      chosen', drawn' := chosen + [p], drawn + [kinds];
      if filled.Err? {
        return Err(filled.error), chosen', drawn';
      }
      return Ok(true), chosen', drawn';
    }

    /**
     * addTreasuresToDungeon: until as many cells as the percentage of the
     * caves have been treasured, a cell of the whole grid (cave or tunnel) is
     * drawn; a cell that already holds treasure is passed over, any other is
     * given the kinds of the draws after its count.
     */
    method AddTreasuresToDungeon() returns (r: Result<()>, ghost chosen: seq<Point2D>, ghost drawn: seq<seq<int>>)
      requires Shaped(dungeon, rows, cols)
      modifies this`dungeon, this`draws
      ensures TreasureRounds(old(dungeon), dungeon, chosen, drawn)
      ensures r.Ok? ==> |chosen| == PercentOf(|CellsOfKind(old(dungeon), rows, cols, true)|, treasureArrowPercent)
      ensures r.Err? ==> r.error == IndexOutOfBounds || r.error == DrawsExhausted
    {
      var caves := CellsOfKindIn(true);
      var currentTreasurizedCaves := 0;
      var required := PercentOf(|caves|, treasureArrowPercent);
      chosen, drawn := [], [];
      r := Ok(());
      while currentTreasurizedCaves != required
        invariant currentTreasurizedCaves == |chosen| <= required
        invariant TreasureRounds(old(dungeon), dungeon, chosen, drawn)
        decreases |draws|
      {
        var turn;
        turn, chosen, drawn := TreasureTurn(old(dungeon), chosen, drawn);
        if turn.Err? {
          return Err(turn.error), chosen, drawn;
        }
        if turn.value {
          currentTreasurizedCaves := currentTreasurizedCaves + 1;
        }
      }
    }

    /**
     * getStartEndLocations: pairs of caves are drawn until one is more than
     * five links apart, each pair not seen before using up one unit of the
     * budget; with the budget spent, no pair is taken. On success start and
     * end are caves more than five apart, and the player stands on start.
     */
    method GetStartEndLocations() returns (r: Result<()>)
      requires Board(dungeon, rows, cols)
      modifies this`start, this`end, this`playerCurrentLocation, this`draws
      ensures r.Ok? ==> InGrid(dungeon, start) && InGrid(dungeon, end)
      ensures r.Ok? ==> IsCave(At(dungeon, start)) && IsCave(At(dungeon, end))
      ensures r.Ok? ==> Distance(dungeon, rows, cols, start, end) > 5 && playerCurrentLocation == start
      ensures |CellsOfKind(dungeon, rows, cols, true)| < 2 ==> r == Err(IllegalArgument(TooFewCaves))
      ensures |CellsOfKind(dungeon, rows, cols, true)| == 2 ==> r.Err?
      ensures r.Err? ==> r.error in {IllegalArgument(TooFewCaves), IllegalArgument(NoDistantPair), IndexOutOfBounds, DrawsExhausted}
    {
      var consideredEdges: seq<LocationMap> := [];
      var caves := CellsOfKindIn(true);
      var numOfCombinations := PairBudget(|caves|);
      if |caves| < 2 {
        return Err(IllegalArgument(TooFewCaves));
      }
      var randomCave1 :- Draw();
      var randomCave2 :- Draw();
      while true
        invariant numOfCombinations <= PairBudget(|caves|)
        decreases |draws|
      {
        if !(0 <= randomCave1 < |caves| && 0 <= randomCave2 < |caves|) {
          return Err(IndexOutOfBounds);
        }
        var d := FindDistance(caves[randomCave1], caves[randomCave2]);
        if !(d <= 5 && numOfCombinations > 0) {
          break;
        }
        var pair := LocationMap(caves[randomCave1], caves[randomCave2]);
        if !ContainsPath(consideredEdges, pair) {
          numOfCombinations := numOfCombinations - 1;
          consideredEdges := consideredEdges + [pair];
        }
        randomCave1 :- Draw();
        randomCave2 :- Draw();
      }
      if numOfCombinations <= 0 {
        return Err(IllegalArgument(NoDistantPair));
      }
      start := caves[randomCave1];
      playerCurrentLocation := start;
      end := caves[randomCave2];
      return Ok(());
    }

    /**
     * One turn of addMonstersToDungeon's loop: a cave is drawn; the start
     * cave and a cave with a live monster are passed over (false), any other
     * gets a new monster (true). `cells` are the end cave and the caves given
     * a monster so far, `made` their monsters.
     */
    method MonsterTurn(caves: seq<Point2D>, ghost g0: Grid, ghost cells: seq<Point2D>, ghost made: seq<Otyugh>)
      returns (r: Result<bool>, ghost cells': seq<Point2D>, ghost made': seq<Otyugh>)
      requires forall k :: 0 <= k < |caves| ==> InGrid(g0, caves[k]) && IsCave(At(g0, caves[k]))
      requires NoMonsters(g0) && MonsterRounds(g0, dungeon, start, end, cells, made)
      requires forall k :: 0 <= k < |made| ==> made[k].potentialDamage == 1.0
      requires NoDup(made)
      modifies this`dungeon, this`draws
      ensures MonsterRounds(g0, dungeon, start, end, cells', made') && NoDup(made')
      ensures forall k :: 0 <= k < |made'| ==> made'[k].potentialDamage == 1.0
      ensures made' == made || (|made'| == |made| + 1 && made' == made + [made'[|made|]] && fresh(made'[|made|]))
      ensures r.Ok? ==> |draws| < |old(draws)| && |cells'| == |cells| + (if r.value then 1 else 0)
      ensures r.Err? ==> r.error == IndexOutOfBounds || r.error == DrawsExhausted
    {
      cells', made' := cells, made;
      var randomCave :- Draw();
      if !(0 <= randomCave < |caves|) {
        return Err(IndexOutOfBounds), cells', made';
      }
      var caveLocation := caves[randomCave];
      if caveLocation == start {
        return Ok(false), cells', made';
      }
      if HasMonster(At(dungeon, caveLocation)) {
        return Ok(false), cells', made';
      }
      assert caveLocation !in cells by {
        if k :| 0 <= k < |cells| && cells[k] == caveLocation {
          assert made[k].potentialDamage == 1.0;
        }
      }
      var m := new Otyugh();
      MonsterStep(g0, dungeon, start, end, cells, made, caveLocation, m);
      dungeon := Put(dungeon, caveLocation, AddMonster(At(dungeon, caveLocation), m));
      cells', made' := cells + [caveLocation], made + [m];
      return Ok(true), cells', made';
    }

    /**
     * The loop of addMonstersToDungeon: turns until `count` more monsters are
     * placed or a draw fails.
     */
    method PlaceMonsters(caves: seq<Point2D>, ghost g0: Grid, ghost cells: seq<Point2D>, ghost made: seq<Otyugh>,
                         count: int)
      returns (r: Result<()>, ghost cells': seq<Point2D>, ghost made': seq<Otyugh>)
      requires forall k :: 0 <= k < |caves| ==> InGrid(g0, caves[k]) && IsCave(At(g0, caves[k]))
      requires NoMonsters(g0) && MonsterRounds(g0, dungeon, start, end, cells, made) && NoDup(made)
      requires forall k :: 0 <= k < |made| ==> made[k].potentialDamage == 1.0
      modifies this`dungeon, this`draws
      ensures MonsterRounds(g0, dungeon, start, end, cells', made') && NoDup(made')
      ensures |made| <= |made'| && made'[..|made|] == made
      ensures forall k :: 0 <= k < |made'| ==> made'[k].potentialDamage == 1.0
      ensures forall k :: |made| <= k < |made'| ==> fresh(made'[k])
      ensures r.Ok? ==> |cells'| == |cells| + Runs(count)
      ensures r.Err? ==> r.error == IndexOutOfBounds || r.error == DrawsExhausted
    {
      cells', made' := cells, made;
      var tempMonsterCount := count;
      r := Ok(());
      while tempMonsterCount > 0
        invariant MonsterRounds(g0, dungeon, start, end, cells', made') && NoDup(made')
        invariant |made| <= |made'| && made'[..|made|] == made
        invariant forall k :: 0 <= k < |made'| ==> made'[k].potentialDamage == 1.0
        invariant forall k :: |made| <= k < |made'| ==> fresh(made'[k])
        invariant |cells'| + Runs(tempMonsterCount) == |cells| + Runs(count)
        decreases |draws|
      {
        var turn;
        turn, cells', made' := MonsterTurn(caves, g0, cells', made');
        if turn.Err? {
          return Err(turn.error), cells', made';
        }
        if turn.value {
          tempMonsterCount := tempMonsterCount - 1;
        }
      }
    }

    /**
     * addMonstersToDungeon, on a grid without monsters: the end cave gets a
     * monster, then caves are drawn until the quota of further monsters is
     * placed, passing over the start cave and caves with a live monster.
     * `cells` are the end cave and the caves given a monster, `made` their
     * monsters: only monsters change, the cells holding one are exactly
     * these, all distinct, the start cave not among them, and the monsters
     * are new, distinct and at full health.
     */
    method AddMonstersToDungeon() returns (r: Result<()>, ghost cells: seq<Point2D>, ghost made: seq<Otyugh>)
      requires Shaped(dungeon, rows, cols) && InGrid(dungeon, end) && NoMonsters(dungeon)
      modifies this`dungeon, this`draws
      ensures MonsterRounds(old(dungeon), dungeon, start, end, cells, made) && HoldMonsters(dungeon, cells)
      ensures NoDup(made) && forall k :: 0 <= k < |made| ==> made[k].potentialDamage == 1.0 && fresh(made[k])
      ensures r.Ok? ==> |cells| == 1 + Runs(MonsterQuota(difficulty, |CellsOfKind(old(dungeon), rows, cols, true)|))
      ensures r.Err? ==> r.error == IndexOutOfBounds || r.error == DrawsExhausted
    {
      var m := new Otyugh();
      dungeon := Put(dungeon, end, AddMonster(At(dungeon, end), m));
      OnlyKeepsLinks(old(dungeon), dungeon, MonsterSlot);
      CellsOfKindSameLinks(old(dungeon), dungeon, rows, cols, true);
      var caves := CellsOfKindIn(true);
      r, cells, made := PlaceMonsters(caves, old(dungeon), [end], [m], MonsterQuota(difficulty, |caves|));
      MonsterCells(old(dungeon), dungeon, start, end, cells, made);
      assert made[0] == m;
    }

    /**
     * One turn of addArrowsToDungeon's loop: a cell is drawn, and unless it
     * already holds arrows (false), its arrow count becomes the next draw
     * (true).
     */
    method ArrowTurn(ghost g0: Grid, ghost chosen: seq<Point2D>, ghost counts: seq<int>)
      returns (r: Result<bool>, ghost chosen': seq<Point2D>, ghost counts': seq<int>)
      requires Shaped(g0, rows, cols) && ArrowRounds(g0, dungeon, chosen, counts)
      modifies this`dungeon, this`draws
      ensures ArrowRounds(g0, dungeon, chosen', counts')
      ensures r.Ok? ==> |draws| < |old(draws)| && |chosen'| == |chosen| + (if r.value then 1 else 0)
      ensures r.Err? ==> r.error == IndexOutOfBounds || r.error == DrawsExhausted
    {
      chosen', counts' := chosen, counts;
      var randomCaveRow :- Draw();
      var randomCaveCol :- Draw();
      if !(0 <= randomCaveRow < rows && 0 <= randomCaveCol < cols) {
        return Err(IndexOutOfBounds), chosen', counts';
      }
      var p := Point2D(randomCaveRow, randomCaveCol);
      if At(dungeon, p).arrowCount > 0 {
        return Ok(false), chosen', counts';
      }
      var randomNumberOfArrows :- Draw();
      ArrowRoundStep(g0, dungeon, chosen, counts, p, randomNumberOfArrows);
      dungeon := Put(dungeon, p, AddArrows(At(dungeon, p), randomNumberOfArrows));
      return Ok(true), chosen + [p], counts + [randomNumberOfArrows];
    }

    /**
     * addArrowsToDungeon: until as many cells as the percentage of all cells
     * hold arrows, a cell of the whole grid is drawn; a cell that already
     * holds arrows is passed over, any other gets the next draw as its count.
     */
    method AddArrowsToDungeon() returns (r: Result<()>, ghost chosen: seq<Point2D>, ghost counts: seq<int>)
      requires Shaped(dungeon, rows, cols)
      modifies this`dungeon, this`draws
      ensures ArrowRounds(old(dungeon), dungeon, chosen, counts)
      ensures r.Ok? ==> |chosen| == PercentOf(rows * cols, treasureArrowPercent)
      ensures r.Err? ==> r.error == IndexOutOfBounds || r.error == DrawsExhausted
    {
      var currentArrowedLocations := 0;
      var requiredArrowLocations := PercentOf(rows * cols, treasureArrowPercent);
      chosen, counts := [], [];
      r := Ok(());
      while currentArrowedLocations != requiredArrowLocations
        invariant currentArrowedLocations == |chosen| <= requiredArrowLocations
        invariant ArrowRounds(old(dungeon), dungeon, chosen, counts)
        decreases |draws|
      {
        var turn;
        turn, chosen, counts := ArrowTurn(old(dungeon), chosen, counts);
        if turn.Err? {
          return Err(turn.error), chosen, counts;
        }
        if turn.value {
          currentArrowedLocations := currentArrowedLocations + 1;
        }
      }
    }

    /**
     * The start of createDungeon: new cells, the candidate paths and the
     * spanning tree over them. On success every two cells are connected by
     * two-way links, and the result lists candidates left over.
     */
    method SpanCells() returns (r: Result<seq<LocationMap>>)
      requires parentNodes.Length == rows * cols && Permutes(hashOrder)
      modifies this`dungeon, this`draws, parentNodes
      ensures Shaped(dungeon, rows, cols) && NoMonsters(dungeon) && NoHazards(dungeon)
      ensures r.Ok? ==> Symmetric(dungeon)
      ensures r.Ok? ==> forall p, q :: InGrid(dungeon, p) && InGrid(dungeon, q) ==> Connected(dungeon, p, q)
      ensures r.Ok? ==> forall k :: 0 <= k < |r.value| ==> Candidate(rows, cols, r.value[k])
      ensures r.Err? ==> r.error == IndexOutOfBounds || r.error == DrawsExhausted
    {
      dungeon := MakeCells(rows, cols);
      ghost var g0 := dungeon;
      assert NoMonsters(g0) && NoHazards(g0) && Unlinked(g0);
      var potentialPaths :- MakePotentialPaths(rows, cols, wrapping);
      var built, tree := BuildMst(potentialPaths);
      ApplyEdgesLinksOnly(g0, tree);
      NoMonstersKept(g0, dungeon, MonsterSlot);
      NoHazardsKept(g0, dungeon, MonsterSlot);
      if built.Err? {
        return Err(built.error);
      }
      var unusedPaths := built.value;
      forall k | 0 <= k < |unusedPaths| ensures Candidate(rows, cols, unusedPaths[k]) {
        assert multiset(unusedPaths)[unusedPaths[k]] > 0;
      }
      return Ok(unusedPaths);
    }

    /**
     * The first half of createDungeon: the spanning tree, the check that
     * enough paths are left over, and the extra paths. `unused` is the
     * leftover list once the tree is built. On success every two cells are
     * connected, by two-way links, and no cell holds a monster yet.
     */
    method LayOut() returns (r: Result<()>, ghost unused: Option<seq<LocationMap>>)
      requires parentNodes.Length == rows * cols && Permutes(hashOrder)
      modifies this`dungeon, this`draws, parentNodes
      ensures Shaped(dungeon, rows, cols) && NoMonsters(dungeon) && NoHazards(dungeon)
      ensures r.Ok? ==> Board(dungeon, rows, cols) && Symmetric(dungeon)
      ensures r.Ok? ==> forall p, q :: InGrid(dungeon, p) && InGrid(dungeon, q) ==> Connected(dungeon, p, q)
      ensures r.Ok? ==> unused.Some? && interconnectivity <= |unused.value|
      ensures unused.Some? && interconnectivity > |unused.value| ==> r == Err(IllegalArgument(InterconnectivityTooLarge))
      ensures r.Err? ==> r.error in {IllegalArgument(InterconnectivityTooLarge), IndexOutOfBounds, DrawsExhausted}
    {
      unused := None;
      var spanned := SpanCells();
      if spanned.Err? {
        return Err(spanned.error), unused;
      }
      var unusedPaths := spanned.value;
      unused := Some(unusedPaths);
      if interconnectivity > |unusedPaths| {
        return Err(IllegalArgument(InterconnectivityTooLarge)), unused;
      }
      ghost var g1 := dungeon;
      var linked, extra := IncorporateInterConnectivity(unusedPaths);
      ApplyEdgesLinksOnly(g1, extra);
      NoMonstersKept(g1, dungeon, MonsterSlot);
      NoHazardsKept(g1, dungeon, MonsterSlot);
      if linked.Err? {
        return Err(linked.error), unused;
      }
      ApplyEdgesGrows(g1, extra);
      SymmetricClosed(dungeon);
      forall p, q | InGrid(dungeon, p) && InGrid(dungeon, q) ensures Connected(dungeon, p, q) {
        ApplyEdgesConnects(g1, extra, p, q);
      }
      return Ok(()), unused;
    }

    /**
     * Treasures, then the start and end caves: only the contents of cells
     * change. On success start and end are caves more than five links apart
     * and the player is at start.
     */
    method PlaceEnds() returns (r: Result<()>)
      requires Board(dungeon, rows, cols) && NoMonsters(dungeon) && NoHazards(dungeon)
      modifies this`dungeon, this`draws, this`start, this`end, this`playerCurrentLocation
      ensures SameLinks(old(dungeon), dungeon) && Board(dungeon, rows, cols) && NoMonsters(dungeon) && NoHazards(dungeon)
      ensures r.Ok? ==> InGrid(dungeon, start) && InGrid(dungeon, end) && start != end
      ensures r.Ok? ==> IsCave(At(dungeon, start)) && IsCave(At(dungeon, end))
      ensures r.Ok? ==> Distance(dungeon, rows, cols, start, end) > 5 && playerCurrentLocation == start
      ensures r.Err? ==> r.error in {IllegalArgument(TooFewCaves), IllegalArgument(NoDistantPair), IndexOutOfBounds, DrawsExhausted}
    {
      ghost var g0 := dungeon;
      var treasured, chosen, drawn := AddTreasuresToDungeon();
      OnlyKeepsLinks(g0, dungeon, TreasureList);
      SameLinksBoard(g0, dungeon, rows, cols);
      NoMonstersKept(g0, dungeon, TreasureList);
      NoHazardsKept(g0, dungeon, TreasureList);
      if treasured.Err? {
        return treasured;
      }
      r := GetStartEndLocations();
      if r.Ok? {
        DistanceMeaning(dungeon, rows, cols, start, end);
      }
    }

    /**
     * Monsters, then arrows, once start and end are chosen: only the
     * contents of cells change. On success the end cave holds a monster at
     * full health and the start cave none.
     */
    method Populate() returns (r: Result<()>)
      requires Board(dungeon, rows, cols) && NoMonsters(dungeon) && NoHazards(dungeon)
      requires InGrid(dungeon, start) && InGrid(dungeon, end) && start != end
      modifies this`dungeon, this`draws
      ensures SameLinks(old(dungeon), dungeon) && NoHazards(dungeon)
      ensures r.Ok? ==> At(dungeon, end).monster.Some? && At(dungeon, end).monster.value.potentialDamage == 1.0
      ensures r.Ok? ==> At(dungeon, start).monster.None?
      ensures r.Err? ==> r.error == IndexOutOfBounds || r.error == DrawsExhausted
    {
      ghost var g0 := dungeon;
      var placed, cells, made := AddMonstersToDungeon();
      ghost var g1 := dungeon;
      OnlyKeepsLinks(g0, g1, MonsterSlot);
      NoHazardsKept(g0, g1, MonsterSlot);
      if placed.Err? {
        return placed;
      }
      assert At(g1, end).monster == Some(made[0]);
      assert At(g1, start).monster.None? by {
        assert start !in cells;
      }
      var arrowed, arrowCells, counts := AddArrowsToDungeon();
      OnlyKeepsLinks(g1, dungeon, ArrowCount);
      NoHazardsKept(g1, dungeon, ArrowCount);
      SameLinksTransitive(g0, g1, dungeon);
      if arrowed.Err? {
        return arrowed;
      }
      assert Without(At(dungeon, end), ArrowCount).monster == Without(At(g1, end), ArrowCount).monster;
      assert Without(At(dungeon, start), ArrowCount).monster == Without(At(g1, start), ArrowCount).monster;
      return Ok(());
    }

    /**
     * The second half of createDungeon, on a connected grid without
     * monsters: treasures, the start and end caves, monsters and arrows.
     * Only the contents of cells change, never a link. On success start
     * and end are caves more than five links apart, the player is at start,
     * the end cave holds a monster at full health and the start cave none.
     */
    method Furnish() returns (r: Result<()>)
      requires Board(dungeon, rows, cols) && NoMonsters(dungeon) && NoHazards(dungeon)
      modifies this`dungeon, this`draws, this`start, this`end, this`playerCurrentLocation
      ensures SameLinks(old(dungeon), dungeon) && Board(dungeon, rows, cols) && NoHazards(dungeon)
      ensures r.Ok? ==> InGrid(dungeon, start) && InGrid(dungeon, end)
      ensures r.Ok? ==> IsCave(At(dungeon, start)) && IsCave(At(dungeon, end))
      ensures r.Ok? ==> Distance(dungeon, rows, cols, start, end) > 5 && playerCurrentLocation == start
      ensures r.Ok? ==> At(dungeon, end).monster.Some? && At(dungeon, end).monster.value.potentialDamage == 1.0
      ensures r.Ok? ==> At(dungeon, start).monster.None?
      ensures r.Err? ==> r.error in {IllegalArgument(TooFewCaves), IllegalArgument(NoDistantPair), IndexOutOfBounds, DrawsExhausted}
    {
      ghost var g0 := dungeon;
      r := PlaceEnds();
      if r.Err? {
        return r;
      }
      ghost var g1 := dungeon;
      r := Populate();
      SameLinksTransitive(g0, g1, dungeon);
      SameLinksBoard(g1, dungeon, rows, cols);
      if r.Ok? {
        DistanceSameLinks(g1, dungeon, rows, cols, start, end);
        assert At(dungeon, start).adjacency == At(g1, start).adjacency;
        assert At(dungeon, end).adjacency == At(g1, end).adjacency;
      }
    }

    /**
     * createDungeon: on success the grid is rows x cols, every two cells are
     * connected by two-way links, start and end are caves more than five
     * links apart with the player at start, the end cave holds a monster at
     * full health and the start cave none. It fails only when there are
     * fewer leftover paths than the interconnectivity asks for, when the
     * `PairBudget` draws of start and end run out before a pair of caves far
     * enough apart is drawn (whether or not one exists), or when the number
     * source misbehaves.
     */
    method CreateDungeon() returns (r: Result<()>, ghost unused: Option<seq<LocationMap>>)
      requires parentNodes.Length == rows * cols && Permutes(hashOrder)
      modifies this`dungeon, this`draws, this`start, this`end, this`playerCurrentLocation, parentNodes
      ensures r.Ok? ==> Board(dungeon, rows, cols) && Symmetric(dungeon) && NoHazards(dungeon)
      ensures r.Ok? ==> forall p, q :: InGrid(dungeon, p) && InGrid(dungeon, q) ==> Connected(dungeon, p, q)
      ensures r.Ok? ==> InGrid(dungeon, start) && InGrid(dungeon, end)
      ensures r.Ok? ==> IsCave(At(dungeon, start)) && IsCave(At(dungeon, end))
      ensures r.Ok? ==> Distance(dungeon, rows, cols, start, end) > 5 && playerCurrentLocation == start
      ensures r.Ok? ==> At(dungeon, end).monster.Some? && At(dungeon, end).monster.value.potentialDamage == 1.0
      ensures r.Ok? ==> At(dungeon, start).monster.None?
      ensures r.Ok? ==> unused.Some? && interconnectivity <= |unused.value|
      ensures unused.Some? && interconnectivity > |unused.value| ==> r == Err(IllegalArgument(InterconnectivityTooLarge))
      ensures r.Err? ==> r.error in {IllegalArgument(InterconnectivityTooLarge), IllegalArgument(TooFewCaves),
                                     IllegalArgument(NoDistantPair), IndexOutOfBounds, DrawsExhausted}
    {
      r, unused := LayOut();
      if r.Err? {
        return r, unused;
      }
      ghost var g0 := dungeon;
      r := Furnish();
      SameLinksSymmetric(g0, dungeon);
      SameLinksBoard(g0, dungeon, rows, cols);
      forall p, q | InGrid(dungeon, p) && InGrid(dungeon, q) ensures Connected(dungeon, p, q) {
        assert InGrid(g0, p) && InGrid(g0, q);
        ConnectedSameLinks(g0, dungeon, p, q);
      }
    }

    /** The inner loop of findDistance: every unvisited link of u is marked, given u's distance plus one and queued. */
    static method VisitLinks(g: Grid, rows: nat, cols: nat, visited: array<bool>, distance: array<int>,
                             queue: seq<Point2D>, u: Point2D) returns (q: seq<Point2D>)
      requires WellFormed(g, rows, cols, Search(queue, visited[..], distance[..])) && InGrid(g, u)
      modifies visited, distance
      ensures Search(q, visited[..], distance[..]) ==
              Visit(g, rows, cols, Search(queue, old(visited[..]), old(distance[..])), u, At(g, u).adjacency)
    {
      var adjacencies := At(g, u).adjacency;
      ghost var s1 := Search(queue, visited[..], distance[..]);
      IndexOf(g, rows, cols, u);
      q := queue;
      var k := 0;
      while k < |adjacencies|
        invariant 0 <= k <= |adjacencies|
        invariant WellFormed(g, rows, cols, Search(q, visited[..], distance[..]))
        invariant Visit(g, rows, cols, Search(q, visited[..], distance[..]), u, adjacencies[k..]) ==
                  Visit(g, rows, cols, s1, u, adjacencies)
        decreases |adjacencies| - k
      {
        var next := adjacencies[k];
        IndexOf(g, rows, cols, next);
        var oneDIndex := PointIndex(cols, next);
        ghost var before := Search(q, visited[..], distance[..]);
        assert adjacencies[k..][1..] == adjacencies[k + 1..];
        if !visited[oneDIndex] {
          distance[oneDIndex] := distance[PointIndex(cols, u)] + 1;
          visited[oneDIndex] := true;
          q := q + [next];
        }
        assert Search(q, visited[..], distance[..]) == VisitOne(g, rows, cols, before, u, next);
        k := k + 1;
      }
    }

    /** The set-up of findDistance: only the source visited and queued, every distance 0. */
    static method StartSearch(g: Grid, rows: nat, cols: nat, source: Point2D)
      returns (visited: array<bool>, distance: array<int>, queue: seq<Point2D>)
      requires Board(g, rows, cols) && InGrid(g, source)
      ensures fresh(visited) && fresh(distance)
      ensures Search(queue, visited[..], distance[..]) == Start(g, rows, cols, source)
    {
      var n := rows * cols;
      visited := new bool[n](_ => false);
      queue := [];
      distance := new int[n](_ => 0);
      IndexOf(g, rows, cols, source);
      visited[PointIndex(cols, source)] := true;
      distance[PointIndex(cols, source)] := 0;
      queue := queue + [source];
      assert Search(queue, visited[..], distance[..]) == Start(g, rows, cols, source);
    }

    /** One turn of findDistance's outer loop: the front of the queue is taken off and its links visited. */
    static method ExpandFront(g: Grid, rows: nat, cols: nat, visited: array<bool>, distance: array<int>,
                              queue: seq<Point2D>) returns (q: seq<Point2D>)
      requires WellFormed(g, rows, cols, Search(queue, visited[..], distance[..])) && |queue| > 0
      modifies visited, distance
      ensures Search(q, visited[..], distance[..]) == Expand(g, rows, cols, Search(queue, old(visited[..]), old(distance[..])))
    {
      var u := queue[0];
      q := VisitLinks(g, rows, cols, visited, distance, queue[1..], u);
    }

    /** findDistance: the breadth-first search from source, and the distance it records for destination. */
    method FindDistance(source: Point2D, destination: Point2D) returns (d: int)
      requires Board(dungeon, rows, cols) && InGrid(dungeon, source) && InGrid(dungeon, destination)
      ensures d == Distance(dungeon, rows, cols, source, destination)
    {
      var visited, distance, queue := StartSearch(dungeon, rows, cols, source);
      ghost var start := Start(dungeon, rows, cols, source);
      while |queue| != 0
        invariant WellFormed(dungeon, rows, cols, Search(queue, visited[..], distance[..]))
        invariant Run(dungeon, rows, cols, Search(queue, visited[..], distance[..])) == Run(dungeon, rows, cols, start)
        decreases CountFalse(visited[..]), |queue|
      {
        queue := ExpandFront(dungeon, rows, cols, visited, distance, queue);
      }
      IndexOf(dungeon, rows, cols, destination);
      d := distance[PointIndex(cols, destination)];
    }

    /** getCavesInDungeon (wantCaves) and getTunnelsInDungeon: the cells of one kind, row by row. */
    method CellsOfKindIn(wantCaves: bool) returns (r: seq<Point2D>)
      requires Shaped(dungeon, rows, cols)
      ensures r == CellsOfKind(dungeon, rows, cols, wantCaves)
    {
      r := [];
      for row := 0 to rows
        invariant r == Where(dungeon, PointsBefore(row, 0, cols), wantCaves)
      {
        r := RowOfKind(row, wantCaves, r);
      }
      assert PointsBefore(rows, 0, cols) == RowMajor(rows, cols);
    }

    /** The inner loop of the scan: the cells of one kind in row `row`, appended to those before it. */
    method RowOfKind(row: nat, wantCaves: bool, before: seq<Point2D>) returns (r: seq<Point2D>)
      requires Shaped(dungeon, rows, cols) && row < rows
      requires before == Where(dungeon, PointsBefore(row, 0, cols), wantCaves)
      ensures r == Where(dungeon, PointsBefore(row + 1, 0, cols), wantCaves)
    {
      r := before;
      for col := 0 to cols
        invariant r == Where(dungeon, PointsBefore(row, col, cols), wantCaves)
      {
        WhereStep(dungeon, row, col, cols, wantCaves);
        if IsCave(dungeon[row][col]) == wantCaves {
          r := r + [Point2D(row, col)];
        }
      }
      RowDone(row, cols);
    }

    // -------------------------------------------------------------------------
    // Playing

    /** What every turn needs: a closed rows x cols grid with the player on one of its cells. */
    ghost predicate Playable()
      reads this
    {
      Board(dungeon, rows, cols) && InGrid(dungeon, playerCurrentLocation) && EachDirectionOnce(keyOrder)
    }

    /** isGameOver: the player stands on the end cave, or is dead. */
    predicate IsGameOver()
      reads this, player
    {
      playerCurrentLocation == end || !player.isAlive
    }

    /**
     * checkIfGameOver: the error a turn raises once the game is over, saying
     * whether the player lost (dead) or won (alive on the end cave).
     */
    function CheckIfGameOver(): (r: Option<Error>)
      reads this, player
      ensures r.Some? <==> playerCurrentLocation == end || !player.isAlive
      ensures r.Some? ==> r.value.IllegalState? && (r.value.reason == GameLost <==> !player.isAlive)
      ensures r.Some? ==> (r.value.reason == GameWon <==> player.isAlive)
    {
      if IsGameOver() && !player.isAlive then Some(IllegalState(GameLost))
      else if IsGameOver() && player.isAlive then Some(IllegalState(GameWon))
      else None
    }

    /** The exits of the player's cell. */
    function CurrentMoves(): (m: map<Direction, Point2D>)
      requires Playable()
      reads this
      ensures forall d :: d in m ==> InGrid(dungeon, m[d])
    {
      MovesAt(dungeon, rows, cols, playerCurrentLocation)
    }

    /** The cell the player stands on. */
    function Here(): Cell
      requires Playable()
      reads this
    {
      At(dungeon, playerCurrentLocation)
    }

    /**
     * pickTreasure: one item of kind t moves from the cell to the player.
     * A missing kind, an empty cell and a kind the cell lacks are refused, in
     * that order, and change nothing. The game being over is not checked.
     */
    method PickTreasure(t: Option<Treasure>) returns (r: Result<()>)
      requires Playable()
      modifies this`dungeon, player`treasuresOwned
      ensures Playable() && SameLinks(old(dungeon), dungeon)
      ensures t.None? ==> r == Err(IllegalArgument(NullTreasure))
      ensures t.Some? && old(Here().treasures) == [] ==> r == Err(IllegalArgument(NoTreasureHere))
      ensures t.Some? && old(Here().treasures) != [] && t.value !in old(Here().treasures) ==>
              r == Err(IllegalArgument(TreasureNotHere))
      ensures r.Ok? <==> t.Some? && t.value in old(Here().treasures)
      ensures r.Err? ==> dungeon == old(dungeon) && player.treasuresOwned == old(player.treasuresOwned)
      ensures r.Ok? ==> player.treasuresOwned == old(player.treasuresOwned) + [t.value]
      ensures r.Ok? ==> dungeon == old(Put(dungeon, playerCurrentLocation, RemoveTreasure(Here(), t.value)))
      ensures r.Ok? ==> multiset(Here().treasures) == old(multiset(Here().treasures)) - multiset{t.value}
      ensures multiset(Here().treasures) + multiset(player.treasuresOwned)
              == old(multiset(Here().treasures) + multiset(player.treasuresOwned))
    {
      if t.None? {
        return Err(IllegalArgument(NullTreasure));
      }
      var location := Here();
      if |location.treasures| == 0 {
        return Err(IllegalArgument(NoTreasureHere));
      }
      if t.value !in location.treasures {
        return Err(IllegalArgument(TreasureNotHere));
      }
      player.AddTreasures(t.value);
      var after := RemoveTreasure(location, t.value);
      PutKeepsLinks(dungeon, playerCurrentLocation, after);
      SameLinksBoard(dungeon, Put(dungeon, playerCurrentLocation, after), rows, cols);
      dungeon := Put(dungeon, playerCurrentLocation, after);
      r := Ok(());
    }

    /**
     * pickArrow: one arrow moves from the cell to the player; a cell with no
     * arrows is refused and nothing changes. The game being over is not
     * checked.
     */
    method PickArrow() returns (r: Result<()>)
      requires Playable()
      modifies this`dungeon, player`arrowsHold
      ensures Playable() && SameLinks(old(dungeon), dungeon)
      ensures r.Err? <==> old(Here().arrowCount) == 0
      ensures r.Err? ==> r.error == IllegalArgument(NoArrows)
      ensures r.Err? ==> dungeon == old(dungeon) && player.arrowsHold == old(player.arrowsHold)
      ensures r.Ok? ==> player.arrowsHold == old(player.arrowsHold) + 1
      ensures r.Ok? ==> dungeon == old(Put(dungeon, playerCurrentLocation, RemoveArrow(Here())))
      ensures Here().arrowCount + player.arrowsHold == old(Here().arrowCount + player.arrowsHold)
    {
      var location := Here();
      if location.arrowCount == 0 {
        return Err(IllegalArgument(NoArrows));
      }
      player.AddArrow();
      var after := RemoveArrow(location);
      PutKeepsLinks(dungeon, playerCurrentLocation, after);
      SameLinksBoard(dungeon, Put(dungeon, playerCurrentLocation, after), rows, cols);
      dungeon := Put(dungeon, playerCurrentLocation, after);
      r := Ok(());
    }

    /**
     * pickAllArrows: once the game is over, or when the cell has no arrows,
     * the turn is refused and nothing changes; otherwise every arrow moves
     * from the cell to the player.
     */
    method PickAllArrows() returns (r: Result<()>)
      requires Playable()
      modifies this`dungeon, player`arrowsHold
      ensures Playable() && SameLinks(old(dungeon), dungeon)
      ensures old(CheckIfGameOver()).Some? ==> r == Err(old(CheckIfGameOver()).value)
      ensures old(CheckIfGameOver()).None? && old(Here().arrowCount) == 0 ==> r == Err(IllegalArgument(NoArrows))
      ensures r.Ok? <==> old(CheckIfGameOver()).None? && old(Here().arrowCount) != 0
      ensures r.Err? ==> dungeon == old(dungeon) && player.arrowsHold == old(player.arrowsHold)
      ensures r.Ok? ==> player.arrowsHold == old(player.arrowsHold + Here().arrowCount)
      ensures r.Ok? ==> dungeon == old(Put(dungeon, playerCurrentLocation, RemoveAllArrows(Here())))
      ensures r.Ok? ==> Here().arrowCount == 0
      ensures Here().arrowCount + player.arrowsHold == old(Here().arrowCount + player.arrowsHold)
    {
      var over := CheckIfGameOver();
      if over.Some? {
        return Err(over.value);
      }
      var location := Here();
      if location.arrowCount == 0 {
        return Err(IllegalArgument(NoArrows));
      }
      player.AddAllArrows(location.arrowCount);
      var after := RemoveAllArrows(location);
      PutKeepsLinks(dungeon, playerCurrentLocation, after);
      SameLinksBoard(dungeon, Put(dungeon, playerCurrentLocation, after), rows, cols);
      dungeon := Put(dungeon, playerCurrentLocation, after);
      r := Ok(());
    }

    /**
     * pickAllTreasures: once the game is over, or when the cell holds no
     * treasure, the turn is refused and nothing changes; otherwise the
     * cell's list is appended, in order, to the player's and the cell is
     * emptied.
     */
    method PickAllTreasures() returns (r: Result<()>)
      requires Playable()
      modifies this`dungeon, player`treasuresOwned
      ensures Playable() && SameLinks(old(dungeon), dungeon)
      ensures old(CheckIfGameOver()).Some? ==> r == Err(old(CheckIfGameOver()).value)
      ensures old(CheckIfGameOver()).None? && old(Here().treasures) == [] ==> r == Err(IllegalArgument(NoTreasureHere))
      ensures r.Ok? <==> old(CheckIfGameOver()).None? && old(Here().treasures) != []
      ensures r.Err? ==> dungeon == old(dungeon) && player.treasuresOwned == old(player.treasuresOwned)
      ensures r.Ok? ==> player.treasuresOwned == old(player.treasuresOwned + Here().treasures)
      ensures r.Ok? ==> dungeon == old(Put(dungeon, playerCurrentLocation, RemoveAllTreasures(Here())))
      ensures r.Ok? ==> Here().treasures == []
      ensures multiset(Here().treasures) + multiset(player.treasuresOwned)
              == old(multiset(Here().treasures) + multiset(player.treasuresOwned))
    {
      var over := CheckIfGameOver();
      if over.Some? {
        return Err(over.value);
      }
      var location := Here();
      if |location.treasures| == 0 {
        return Err(IllegalArgument(NoTreasureHere));
      }
      player.AddAllTreasures(location.treasures);
      var after := RemoveAllTreasures(location);
      PutKeepsLinks(dungeon, playerCurrentLocation, after);
      SameLinksBoard(dungeon, Put(dungeon, playerCurrentLocation, after), rows, cols);
      dungeon := Put(dungeon, playerCurrentLocation, after);
      r := Ok(());
    }

    /**
     * The exit the player takes and the cell it leads to, unless the move is
     * refused: no direction, the game over, or no exit that way.
     */
    function MoveTarget(direction: Option<Direction>): (p: Option<Point2D>)
      requires Playable()
      reads this, player
      ensures p.Some? ==> InGrid(dungeon, p.value)
      ensures p.Some? <==> direction.Some? && CheckIfGameOver().None? && direction.value in CurrentMoves()
    {
      if direction.None? || CheckIfGameOver().Some? || direction.value !in CurrentMoves() then None
      else Some(CurrentMoves()[direction.value])
    }

    /**
     * movePlayer: a missing direction, the game being over and a direction
     * with no exit are refused, in that order, and change nothing. Otherwise
     * the player steps into the neighbour, which is marked visited; a
     * monster at full health there kills the player (death reason 1), and an
     * injured one kills when the next draw is 0.
     */
    method MovePlayer(direction: Option<Direction>) returns (r: Result<()>)
      requires Playable()
      modifies this`playerCurrentLocation, this`dungeon, this`draws, player`isAlive, player`deathReason
      ensures Playable() && SameLinks(old(dungeon), dungeon)
      ensures direction.None? ==> r == Err(IllegalArgument(NullDirection))
      ensures direction.Some? && old(CheckIfGameOver()).Some? ==> r == Err(old(CheckIfGameOver()).value)
      ensures direction.Some? && old(CheckIfGameOver()).None? && direction.value !in old(CurrentMoves()) ==>
              r == Err(IllegalArgument(NoSuchDirection))
      ensures old(MoveTarget(direction)).None? ==>
              r.Err? && dungeon == old(dungeon) && playerCurrentLocation == old(playerCurrentLocation)
              && draws == old(draws) && player.isAlive == old(player.isAlive)
              && player.deathReason == old(player.deathReason)
      ensures old(MoveTarget(direction)).Some? ==>
              playerCurrentLocation == old(MoveTarget(direction)).value
              && dungeon == old(Put(dungeon, MoveTarget(direction).value, SetVisited(At(dungeon, MoveTarget(direction).value))))
      ensures old(MoveTarget(direction)).Some? ==>
              var e := Encounter(Here().monster, old(FateOf()));
              (e.None? ==> r == Err(DrawsExhausted) && FateOf() == old(FateOf()))
              && (e.Some? ==> r == Ok(()) && FateOf() == e.value)
    {
      if direction.None? {
        return Err(IllegalArgument(NullDirection));
      }
      var over := CheckIfGameOver();
      if over.Some? {
        return Err(over.value);
      }
      var possibleDirections := CurrentMoves();
      if direction.value !in possibleDirections {
        return Err(IllegalArgument(NoSuchDirection));
      }
      var next := possibleDirections[direction.value];
      var after := SetVisited(At(dungeon, next));
      PutKeepsLinks(dungeon, next, after);
      SameLinksBoard(dungeon, Put(dungeon, next, after), rows, cols);
      playerCurrentLocation := next;
      dungeon := Put(dungeon, next, after);
      r := Ok(());
      var monster := after.monster;
      if monster.Some? {
        if monster.value.potentialDamage == 1.0 {
          player.KillPlayer();
          player.SetDeathReason(1);
        }
        if monster.value.potentialDamage == 0.5 {
          var playerLife := Draw();
          if playerLife.Err? {
            return Err(playerLife.error);
          }
          if playerLife.value == 0 {
            player.KillPlayer();
            player.SetDeathReason(1);
          }
        }
      }
    }

    /** The player's fate so far: alive or not, the death reason, and the number source's values left. */
    function FateOf(): Fate
      reads this, player
    {
      Fate(player.isAlive, player.deathReason, draws)
    }

    /** The guards of shootArrow pass: the game goes on, the distance is 1 to 4, a direction is given, an arrow is held. */
    predicate Fires(distance: int, direction: Option<Direction>)
      reads this, player
    {
      CheckIfGameOver().None? && 1 <= distance <= 4 && direction.Some? && player.arrowsHold != 0
    }

    /**
     * Where an arrow shot from the player's cell in direction d goes: its
     * flight from the exit that way, or None when there is no such exit.
     */
    function ShotFlight(distance: int, d: Direction): (f: Option<Flight>)
      requires Playable()
      reads this
      ensures f.Some? && f.value.Landed? ==> InGrid(dungeon, f.value.at)
      ensures f.None? <==> d !in CurrentMoves()
    {
      var moves := CurrentMoves();
      if d !in moves then None
      else Some(Fly(dungeon, rows, cols, keyOrder, playerCurrentLocation, Some(moves[d]), d, distance, shotFuel))
    }

    /** The monster a shot may strike: the one in the cell where the flight lands. */
    function ShotMonster(distance: int, direction: Option<Direction>): set<Otyugh>
      requires Playable()
      reads this
    {
      if direction.None? then {}
      else
        match ShotFlight(distance, direction.value)
        case Some(Landed(at)) => if At(dungeon, at).monster.Some? then {At(dungeon, at).monster.value} else {}
        case _ => {}
    }

    /**
     * What shootArrow reports for the monster just hit, from its health
     * after the hit: dead at 0, injured at 0.5 and no status otherwise.
     */
    function StatusAfterHit(health: real): (s: Option<MonsterStatus>)
      ensures health + 0.5 == 1.0 ==> s == Some(Injured)
      ensures health + 0.5 == 0.5 ==> s == Some(Dead)
      ensures s.Some? ==> IsGameHealth(health + 0.5) && health >= 0.0
    {
      if health == 0.0 then Some(Dead) else if health == 0.5 then Some(Injured) else None
    }

    /**
     * shootArrow: once the game is over, for a distance outside 1..4, with
     * no direction and with no arrow held, the shot is refused, in that
     * order, and nothing changes. Otherwise one arrow is spent; a direction
     * with no exit misses; then the arrow follows `Fly`. A shot that lands in
     * a cell with a live monster takes 0.5 off its health and reports what it
     * did; every other shot leaves every monster as it was.
     */
    method ShootArrow(distance: int, direction: Option<Direction>) returns (r: Result<Option<MonsterStatus>>)
      requires Playable()
      modifies player`arrowsHold, ShotMonster(distance, direction)
      ensures old(CheckIfGameOver()).Some? ==> r == Err(old(CheckIfGameOver()).value)
      ensures old(CheckIfGameOver()).None? && !(1 <= distance <= 4) ==> r == Err(IllegalArgument(DistanceOutOfRange))
      ensures old(CheckIfGameOver()).None? && 1 <= distance <= 4 && direction.None? ==>
              r == Err(IllegalArgument(NullDirection))
      ensures old(CheckIfGameOver()).None? && 1 <= distance <= 4 && direction.Some? && old(player.arrowsHold) == 0 ==>
              r == Err(IllegalState(NoArrows))
      ensures !old(Fires(distance, direction)) ==>
              r.Err? && player.arrowsHold == old(player.arrowsHold) && unchanged(ShotMonster(distance, direction))
      ensures old(Fires(distance, direction)) ==> player.arrowsHold == old(player.arrowsHold) - 1
      ensures old(Fires(distance, direction)) ==>
              match ShotFlight(distance, direction.value)
              case None => r == Ok(Some(Unaffected))
              case Some(Blocked) => r == Ok(Some(Unaffected))
              case Some(NullExit) => r == Err(NullPointer)
              case Some(Exhausted) => r == Err(OutOfFuel)
              case Some(Landed(at)) =>
                var m := At(dungeon, at).monster;
                if m.Some? && old(m.value.potentialDamage) > 0.0 then
                  m.value.potentialDamage == old(m.value.potentialDamage) - 0.5
                  && r == Ok(StatusAfterHit(m.value.potentialDamage))
                else
                  r == Ok(Some(Unaffected)) && unchanged(ShotMonster(distance, direction))
    {
      var over := CheckIfGameOver();
      if over.Some? {
        return Err(over.value);
      }
      if distance <= 0 || distance > 4 {
        return Err(IllegalArgument(DistanceOutOfRange));
      }
      if direction.None? {
        return Err(IllegalArgument(NullDirection));
      }
      if player.arrowsHold == 0 {
        return Err(IllegalState(NoArrows));
      }
      player.RemoveArrow();
      var possibleDirections := CurrentMoves();
      if direction.value !in possibleDirections {
        return Ok(Some(Unaffected));
      }
      var flight := FollowArrow(dungeon, rows, cols, keyOrder, playerCurrentLocation, possibleDirections[direction.value],
                                direction.value, distance, shotFuel);
      match flight {
        case Blocked => r := Ok(Some(Unaffected));
        case NullExit => r := Err(NullPointer);
        case Exhausted => r := Err(OutOfFuel);
        case Landed(at) =>
          var location := At(dungeon, at);
          if HasMonster(location) {
            var monster := location.monster.value;
            monster.ReducedDamage();
            r := Ok(StatusAfterHit(monster.potentialDamage));
          } else {
            r := Ok(Some(Unaffected));
          }
      }
    }

    /** The loop of shootArrow, from `from` into `first` with the given heading: `Fly`, step for step. */
    static method FollowArrow(g: Grid, rows: nat, cols: nat, order: seq<Direction>, from: Point2D, first: Point2D,
                              heading: Direction, distance: int, fuel: nat) returns (f: Flight)
      requires Closed(g) && InGrid(g, from) && InGrid(g, first)
      ensures f == Fly(g, rows, cols, order, from, Some(first), heading, distance, fuel)
    {
      var prevLocation := from;
      var arrowLocation: Option<Point2D> := Some(first);
      var enteringDirection := heading;
      var left := distance;
      var steps := fuel;
      ghost var target := Fly(g, rows, cols, order, from, Some(first), heading, distance, fuel);
      while left > 0
        invariant InGrid(g, prevLocation) && (arrowLocation.Some? ==> InGrid(g, arrowLocation.value))
        invariant Fly(g, rows, cols, order, prevLocation, arrowLocation, enteringDirection, left, steps) == target
        decreases steps
      {
        if steps == 0 {
          return Exhausted;
        }
        if arrowLocation.None? {
          return NullExit;
        }
        var blocked;
        prevLocation, arrowLocation, enteringDirection, left, blocked :=
          ArrowStep(g, rows, cols, order, prevLocation, arrowLocation.value, enteringDirection, left, steps);
        if blocked {
          return Blocked;
        }
        steps := steps - 1;
      }
      return Landed(prevLocation);
    }

    /** One turn of shootArrow's loop, with the arrow in cell `here`: one step of `Fly`. */
    static method ArrowStep(g: Grid, rows: nat, cols: nat, order: seq<Direction>, prev: Point2D, here: Point2D,
                            heading: Direction, left: int, ghost steps: nat)
      returns (prev': Point2D, arrow': Option<Point2D>, heading': Direction, left': int, blocked: bool)
      requires Closed(g) && InGrid(g, prev) && InGrid(g, here) && left > 0 && steps > 0
      ensures InGrid(g, prev') && (arrow'.Some? ==> InGrid(g, arrow'.value))
      ensures blocked ==> Fly(g, rows, cols, order, prev, Some(here), heading, left, steps) == Blocked
      ensures !blocked ==> Fly(g, rows, cols, order, prev, Some(here), heading, left, steps)
                           == Fly(g, rows, cols, order, prev', arrow', heading', left', steps - 1)
    {
      var location := At(g, here);
      var possibleDirections := MovesAt(g, rows, cols, here);
      blocked := false;
      if !IsCave(location) {
        var nextLocation := TunnelExit(location.adjacency, prev);
        heading' := TunnelHeading(order, possibleDirections, nextLocation, heading);
        prev', arrow', left' := here, Some(nextLocation), left;
      } else {
        prev' := here;
        arrow' := if heading in possibleDirections then Some(possibleDirections[heading]) else None;
        heading' := Opposite(heading);
        left' := left - 1;
        blocked := heading' !in possibleDirections;
      }
    }

    /** The loop over a tunnel's exits in shootArrow: the last direction, in key order, whose exit is `next`. */
    static method TunnelHeading(order: seq<Direction>, moves: map<Direction, Point2D>, next: Point2D,
                                heading: Direction) returns (h: Direction)
      ensures h == LastKeyTo(order, moves, next, heading)
      ensures EachDirectionOnce(order) && (exists d :: d in moves && moves[d] == next) ==> h in moves && moves[h] == next
      ensures (forall d :: d in moves ==> moves[d] != next) ==> h == heading
    {
      h := heading;
      for i := 0 to |order|
        invariant h == LastKeyTo(order[..i], moves, next, heading)
      {
        assert order[..i + 1][..i] == order[..i];
        if order[i] in moves && moves[order[i]] == next {
          h := order[i];
        }
      }
      assert order[..|order|] == order;
    }

    /** getPlayerRubyCount, getPlayerDiamondCount, getPlayerEmeraldCount: how many items of kind t the player carries. */
    method PlayerTreasureCount(t: Treasure) returns (n: int)
      ensures n == multiset(player.treasuresOwned)[t]
    {
      var cumulative := CumulativeTreasures(player.treasuresOwned);
      n := if t in cumulative then cumulative[t] else 0;
    }

    /** getCurrentLocationRubyCount and its siblings: how many items of kind t the player's cell holds. */
    method CurrentLocationTreasureCount(t: Treasure) returns (n: int)
      requires Playable()
      ensures n == multiset(Here().treasures)[t]
    {
      var cumulative := CumulativeTreasures(Here().treasures);
      n := if t in cumulative then cumulative[t] else 0;
    }

    /** getCurrentLocationArrowCount: the arrows in the player's cell, a count below one reading as none. */
    function CurrentLocationArrowCount(): (n: int)
      requires Playable()
      reads this
      ensures n >= 0 && (n == Here().arrowCount || (n == 0 && Here().arrowCount < 0))
    {
      if Here().arrowCount > 0 then Here().arrowCount else 0
    }

    /**
     * The constructor of DungeonGameImpl: the arguments are checked in turn
     * (`Validate`), the dungeon is built from the number source's values,
     * and the start cave, where the player begins, is marked visited.
     * A missing player or number source is None.
     */
    static method New(rows: int, cols: int, interconnectivity: int, wrapping: bool, treasureArrowPercent: int,
                      difficulty: int, player: Option<Player>, source: Option<seq<int>>,
                      hashOrder: seq<LocationMap> -> seq<LocationMap>, keyOrder: seq<Direction>)
      returns (r: Result<DungeonGame>)
      requires Permutes(hashOrder) && EachDirectionOnce(keyOrder)
      ensures var v := Validate(rows, cols, interconnectivity, treasureArrowPercent, difficulty, player.Some?, source.Some?);
              v.Some? ==> r == Err(v.value)
      ensures r.Ok? ==> fresh(r.value) && fresh(r.value.parentNodes) && r.value.player == player.value
      ensures r.Ok? ==> r.value.rows == rows && r.value.cols == cols && r.value.interconnectivity == interconnectivity
                        && r.value.wrapping == wrapping && r.value.treasureArrowPercent == treasureArrowPercent
                        && r.value.difficulty == difficulty && r.value.keyOrder == keyOrder
      ensures r.Ok? ==> r.value.Playable() && r.value.Started()
      ensures r.Err? ==> r.error in {IllegalArgument(NegativeSize), IllegalArgument(NegativeInterconnectivity),
                                     IllegalArgument(PercentOutOfRange), IllegalArgument(NonPositiveDifficulty),
                                     IllegalArgument(NullPlayer), IllegalArgument(NullNumberSource),
                                     IllegalArgument(InterconnectivityTooLarge), IllegalArgument(TooFewCaves),
                                     IllegalArgument(NoDistantPair), IndexOutOfBounds, DrawsExhausted}
    {
      var invalid := Validate(rows, cols, interconnectivity, treasureArrowPercent, difficulty, player.Some?, source.Some?);
      if invalid.Some? {
        return Err(invalid.value);
      }
      var game := new DungeonGame.Init(rows, cols, interconnectivity, wrapping, treasureArrowPercent, difficulty,
                                       player.value, source.value, hashOrder, keyOrder);
      var created, unused := game.CreateDungeon();
      if created.Err? {
        return Err(created.error);
      }
      game.MarkStartVisited();
      r := Ok(game);
    }

    /**
     * The game as built: `Built` holds of the grid, start, end and current
     * cell, no cell has a pit or a thief, and the end cave's monster is at
     * full health.
     */
    ghost predicate Started()
      reads this
      reads if InGrid(dungeon, end) && At(dungeon, end).monster.Some? then {At(dungeon, end).monster.value} else {}
    {
      Built(dungeon, rows, cols, start, end, playerCurrentLocation) && NoHazards(dungeon)
      && At(dungeon, end).monster.value.potentialDamage == 1.0
    }

    /** The last step of the constructor: the start cell, where the player stands, is marked visited. */
    method MarkStartVisited()
      requires Board(dungeon, rows, cols) && Symmetric(dungeon)
      requires forall p, q :: InGrid(dungeon, p) && InGrid(dungeon, q) ==> Connected(dungeon, p, q)
      requires InGrid(dungeon, start) && InGrid(dungeon, end)
      requires IsCave(At(dungeon, start)) && IsCave(At(dungeon, end))
      requires Distance(dungeon, rows, cols, start, end) > 5 && playerCurrentLocation == start
      requires At(dungeon, start).monster.None?
      requires At(dungeon, end).monster.Some? && At(dungeon, end).monster.value.potentialDamage == 1.0
      requires NoHazards(dungeon) && EachDirectionOnce(keyOrder)
      modifies this`dungeon
      ensures dungeon == old(Put(dungeon, start, SetVisited(At(dungeon, start))))
      ensures Playable() && Started()
    {
      ghost var g0 := dungeon;
      var after := SetVisited(At(dungeon, playerCurrentLocation));
      PutKeepsLinks(dungeon, playerCurrentLocation, after);
      dungeon := Put(dungeon, playerCurrentLocation, after);
      SameLinksSymmetric(g0, dungeon);
      DistanceSameLinks(g0, dungeon, rows, cols, start, end);
      forall p, q | InGrid(dungeon, p) && InGrid(dungeon, q) ensures Connected(dungeon, p, q) {
        assert InGrid(g0, p) && InGrid(g0, q);
        ConnectedSameLinks(g0, dungeon, p, q);
      }
      assert start != end;
      assert NoHazards(dungeon) by {
        forall p | InGrid(dungeon, p) ensures !At(dungeon, p).pit && !At(dungeon, p).thief {
          assert InGrid(g0, p);
        }
      }
    }
  }

  /**
   * A grid as createDungeon leaves it: closed, two-way and connected; start
   * and end caves whose search distance is above 5 (by EndsApart, no walk of
   * five links or fewer joins them); the player on the start cave,
   * which is marked visited and holds no monster; a monster in the end cave.
   */
  ghost predicate Built(g: Grid, rows: int, cols: int, start: Point2D, end: Point2D, current: Point2D) {
    Board(g, rows, cols) && Symmetric(g)
    && (forall p, q :: InGrid(g, p) && InGrid(g, q) ==> Connected(g, p, q))
    && InGrid(g, start) && InGrid(g, end) && IsCave(At(g, start)) && IsCave(At(g, end))
    && Distance(g, rows, cols, start, end) > 5
    && current == start && At(g, start).visited && At(g, start).monster.None? && At(g, end).monster.Some?
  }

  /** In a built dungeon the search distance is the length of a shortest walk, so no walk of five links or fewer joins start and end. */
  lemma EndsApart(g: Grid, rows: int, cols: int, start: Point2D, end: Point2D, current: Point2D)
    requires Built(g, rows, cols, start, end, current)
    ensures PathOfLength(g, start, end, Distance(g, rows, cols, start, end))
    ensures forall n: nat :: PathOfLength(g, start, end, n) ==> n > 5
  {
    DistanceMeaning(g, rows, cols, start, end);
  }

  /** Setting pits or thieves, or changing any content other than monsters, keeps the grid as built, and the end's monster. */
  lemma BuiltKept(g0: Grid, g: Grid, rows: int, cols: int, start: Point2D, end: Point2D, current: Point2D, part: Content)
    requires Built(g0, rows, cols, start, end, current) && Only(g0, g, part) && part != MonsterSlot
    ensures Built(g, rows, cols, start, end, current) && At(g, end).monster == At(g0, end).monster
  {
    OnlyKeepsLinks(g0, g, part);
    SameLinksSymmetric(g0, g);
    DistanceSameLinks(g0, g, rows, cols, start, end);
    forall p, q | InGrid(g, p) && InGrid(g, q) ensures Connected(g, p, q) {
      assert InGrid(g0, p) && InGrid(g0, q);
      ConnectedSameLinks(g0, g, p, q);
    }
    assert Without(At(g, start), part).adjacency == Without(At(g0, start), part).adjacency;
    assert Without(At(g, end), part).adjacency == Without(At(g0, end), part).adjacency;
    assert Without(At(g, start), part).visited == Without(At(g0, start), part).visited;
    assert Without(At(g, start), part).monster == Without(At(g0, start), part).monster;
    assert Without(At(g, end), part).monster == Without(At(g0, end), part).monster;
  }

  /** Whether the player is alive, the death reason, and the values the number source has still to return. */
  datatype Fate = Fate(alive: bool, reason: int, draws: seq<int>)

  /**
   * What entering a cell with monster m does in movePlayer: a monster at
   * full health kills (death reason 1); an injured one takes the next value
   * of the number source and kills when it is 0; a dead one, or none, does
   * nothing. None when a value is needed and none is left.
   */
  ghost function Encounter(m: Option<Otyugh>, f: Fate): (r: Option<Fate>)
    reads if m.Some? then {m.value} else {}
    ensures r.None? <==> m.Some? && m.value.potentialDamage == 0.5 && f.draws == []
    ensures m.Some? && m.value.potentialDamage == 1.0 ==> r == Some(f.(alive := false, reason := 1))
    ensures r.Some? && r.value.alive ==> r.value == f.(draws := r.value.draws)
    ensures r.Some? ==> r.value.draws == f.draws || (f.draws != [] && r.value.draws == f.draws[1..])
  {
    if m.None? then Some(f)
    else
      var f1 := if m.value.potentialDamage == 1.0 then f.(alive := false, reason := 1) else f;
      if m.value.potentialDamage != 0.5 then Some(f1)
      else if f1.draws == [] then None
      else if f1.draws[0] == 0 then Some(f1.(alive := false, reason := 1, draws := f1.draws[1..]))
      else Some(f1.(draws := f1.draws[1..]))
  }

  /**
   * getCumulativeTreasures: how many items of each kind a list holds. The
   * kinds the list lacks are not keys, so a lookup of one of them gives
   * null, which the count getters read as 0.
   */
  method CumulativeTreasures(ts: seq<Treasure>) returns (m: map<Treasure, int>)
    ensures forall t :: t in m <==> t in ts
    ensures forall t :: t in m ==> m[t] == multiset(ts)[t]
  {
    m := map[];
    for i := 0 to |ts|
      invariant forall t :: t in m <==> t in ts[..i]
      invariant forall t :: t in m ==> m[t] == multiset(ts[..i])[t]
    {
      assert ts[..i + 1] == ts[..i] + [ts[i]];
      var t := ts[i];
      if t in m {
        m := m[t := m[t] + 1];
      } else {
        m := m[t := 1];
      }
    }
    assert ts[..|ts|] == ts;
  }

  /**
   * The argument checks of the DungeonGameImpl constructor, in order: the
   * first that fails gives the error, and all pass exactly when nothing is
   * returned.
   */
  function Validate(rows: int, cols: int, interconnectivity: int, treasureArrowPercent: int, difficulty: int,
                    hasPlayer: bool, hasSource: bool): (r: Option<Error>)
    ensures r.None? <==> rows >= 0 && cols >= 0 && interconnectivity >= 0 && 0 <= treasureArrowPercent <= 100
                         && difficulty > 0 && hasPlayer && hasSource
    ensures rows < 0 || cols < 0 ==> r == Some(IllegalArgument(NegativeSize))
    ensures rows >= 0 && cols >= 0 && interconnectivity < 0 ==> r == Some(IllegalArgument(NegativeInterconnectivity))
    ensures rows >= 0 && cols >= 0 && interconnectivity >= 0 && !(0 <= treasureArrowPercent <= 100) ==>
            r == Some(IllegalArgument(PercentOutOfRange))
    ensures rows >= 0 && cols >= 0 && interconnectivity >= 0 && 0 <= treasureArrowPercent <= 100 && difficulty <= 0 ==>
            r == Some(IllegalArgument(NonPositiveDifficulty))
    ensures (rows >= 0 && cols >= 0 && interconnectivity >= 0 && 0 <= treasureArrowPercent <= 100 && difficulty > 0
             && !hasPlayer) ==> r == Some(IllegalArgument(NullPlayer))
    ensures (rows >= 0 && cols >= 0 && interconnectivity >= 0 && 0 <= treasureArrowPercent <= 100 && difficulty > 0
             && hasPlayer && !hasSource) ==> r == Some(IllegalArgument(NullNumberSource))
  {
    if rows < 0 || cols < 0 then Some(IllegalArgument(NegativeSize))
    else if interconnectivity < 0 then Some(IllegalArgument(NegativeInterconnectivity))
    else if treasureArrowPercent < 0 || treasureArrowPercent > 100 then Some(IllegalArgument(PercentOutOfRange))
    else if difficulty <= 0 then Some(IllegalArgument(NonPositiveDifficulty))
    else if !hasPlayer then Some(IllegalArgument(NullPlayer))
    else if !hasSource then Some(IllegalArgument(NullNumberSource))
    else None
  }
}
