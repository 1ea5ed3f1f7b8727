# DungeonMVC dungeon engine, modelled in Dafny

This project models the engine of the DungeonMVC text-adventure game, the
`dungeonmodel` package. A dungeon is a grid of locations. A location with
exactly two links is a tunnel; any other location is a cave.

The engine builds a dungeon from a stream of numbers:

1. It lists the candidate paths between neighbouring cells, plus the wrap-around
   paths when the dungeon wraps.
2. It links a random spanning tree with union-find (Kruskal's algorithm).
3. It adds `interconnectivity` extra paths.
4. It spreads treasure.
5. It picks a start cave and an end cave more than five steps apart, using a
   breadth-first search.
6. It places Otyugh monsters, a full-health one always at the end.
7. It spreads arrows.

The player then moves, picks up treasure and arrows, and shoots crooked arrows,
which bend through tunnels, at the monsters. The variant dungeon adds pits to
caves and thieves to tunnels. A pit can kill the player who enters it. A
thief takes every treasure the player carries.

## How the model is built

- **Point2D**, **LocationMap** and the cell contents are values. A cell is a
  value too: `Cells.Cell` holds its links, treasure, monster, arrows and three
  flags. The dungeon is a field `dungeon: seq<seq<Cell>>`. Wherever the Java
  code changes a `Location` field in place, the model puts the updated cell
  back with `Put`.
- **Otyugh** and **GeneralPlayerImpl** are classes whose methods update their
  fields, so an arrow damages the monster object in place. Health is a `real`
  and takes only the exact values 1.0, 0.5 and 0.0.
- **DungeonGameImpl** is the class `DungeonGames.DungeonGame`. The
  union-find array `parentNodes` is an `array<int>`. The search in
  `findDistance` uses `visited` and `distance` arrays and a queue. Every
  counter-driven placement loop is a `while` loop.
- **PitsThievesDungeonImpl** is a class that holds the plain game and acts on
  its fields. In Java it is a subclass.
- **The number source.** The game reads its numbers from a field
  `draws: seq<int>`, one value per `getIntInRange` call. The bounds passed to
  the call are not checked against the value, as in `PredictiveGeneration`.
  - When the stream is empty, the operation ends with `DrawsExhausted`.
  - A value that is out of range as an index ends with `IndexOutOfBounds`, as
    the Java list access would.
  - Every reroll loop terminates on the length of the stream, so a placement
    the source could never finish ends with `DrawsExhausted`. One example is a
    monster quota of `difficulty - 1 == caves - 1` that must skip the start.
  - `PredictiveGeneration` and `RandomGeneration` are modelled on their own as
    classes. The value of `java.util.Random` is a parameter.
- **Hash map order.** The iteration order of the `HashMap<LocationMap,
  Boolean>` in `buildMst` is a fixed function `hashOrder` that permutes its
  argument. The order of the `HashMap<Directions, …>` returned by
  `getPossibleDirectionMoves` is a fixed sequence `keyOrder` that lists each
  of the four directions exactly once (`EachDirectionOnce`). The constructors
  require this, and `Playable()` carries it, so every `entrySet` loop of the
  model visits every key of the table once.
- **Exceptions.** They are `Result` errors: `IllegalArgument(reason)`,
  `IllegalState(reason)`, `IndexOutOfBounds` and `NullPointer`. A null argument
  is an `Option`. When an error occurs partway through an operation, the state
  reached so far is kept, as in Java.

## Behaviours the proofs pin down

The model keeps these behaviours of the code as written:

- The inner reroll in `incorporateInterConnectivity` is dead code, because no
  path is ever marked used. The model leaves that loop out and proves that
  every extra path comes from the unused list. Duplicate extra paths are
  possible.
- The budget for choosing start and end is `C(n, 2) / 2`. With exactly two
  caves the budget is 0, so construction always fails
  (`GetStartEndLocations`: `|caves| == 2 ==> r.Err?`).
- Treasure cells are drawn from the whole grid, tunnels included. A kind draw
  of 3 adds nothing.
- The arrow's hit cell is the last cell it passed through. When the lookup of a
  missing exit would dereference null, the outcome is `NullPointer`.
- When a monster's health after a hit is neither 0 nor 0.5, `shootArrow`
  returns `null`. The model returns `Ok(None)`.
- The variant move rolls for the pit even when a monster has just killed the
  player. A roll of 0 then overwrites death reason 1 with 2.
- In list mode, `PredictiveGeneration` never returns the last value of its
  list. From then on it returns 0 or 1 and stops advancing.

The three treasure-kind count getters for the player and the three for the
current cell are each modelled as one getter with a treasure parameter.

## Model

| member | source | states |
|---|---|---|
| Points.HashCode | src/dungeonmodel/Point2D.java:57-59 | the hash code is a 32-bit value |
| Points.HashCodeClosedForm | src/dungeonmodel/Point2D.java:57-59 | the hash code is `961 + 31x + y` wrapped to 32 bits, so equal points hash equally |
| Points.EqualsIsValueEquality | src/dungeonmodel/Point2D.java:43-54 | `equals` holds exactly for another Point2D with the same coordinates |
| Points.ToString | src/dungeonmodel/Point2D.java:62-64 | the text is parenthesised, and for non-negative coordinates it is "(", the decimal digits of x, ", ", the digits of y, then ")" |
| Points.NatToStringRoundTrip | src/dungeonmodel/Point2D.java:62-64 | the decimal digits of a coordinate read back as that coordinate |
| Points.ToStringExample | src/dungeonmodel/Point2D.java:62-64 | (2, 1) renders as "(2, 1)" |
| LocationMaps.SameIffSameEnds | src/dungeonmodel/LocationMap.java:26-34 | two paths are equal exactly when they join the same two cells, in either order |
| LocationMaps.SameIsEquivalence | src/dungeonmodel/LocationMap.java:26-34 | path equality is reflexive, symmetric and transitive, and (a, b) equals (b, a) |
| LocationMaps.Canonical | src/dungeonmodel/LocationMap.java:26-34 | every path equals one oriented from its lower end |
| LocationMaps.SameIffSameKey | src/dungeonmodel/LocationMap.java:26-34 | two paths are equal exactly when their oriented forms are identical |
| Monsters.Otyugh.constructor | src/dungeonmodel/Otyugh.java:8-10 | a new monster has potential damage 1.0 |
| Monsters.Otyugh.ReducedDamage | src/dungeonmodel/Otyugh.java:18-20 | potential damage drops by exactly 0.5, with no floor |
| Monsters.Otyugh.AssignDamage | src/dungeonmodel/Otyugh.java:23-25 | potential damage becomes the given value |
| Monsters.TwoArrowsKill | src/dungeonmodel/Otyugh.java:18-20 | two reductions take a new monster to 0.0 |
| Players.Player.constructor | src/dungeonmodel/GeneralPlayerImpl.java:21-27 | a new player has 3 arrows, no treasure, is alive, and has death reason 0 |
| Players.Player.KillPlayer | src/dungeonmodel/GeneralPlayerImpl.java:30-32 | the player is no longer alive |
| Players.Player.SetDeathReason | src/dungeonmodel/GeneralPlayerImpl.java:35-37 | the death reason becomes the value given |
| Players.Player.AddTreasures | src/dungeonmodel/GeneralPlayerImpl.java:61-63 | one treasure is appended |
| Players.Player.AddAllTreasures | src/dungeonmodel/GeneralPlayerImpl.java:66-68 | the list is appended in order |
| Players.Player.AddArrow | src/dungeonmodel/GeneralPlayerImpl.java:71-73 | the arrow count rises by 1 |
| Players.Player.AddAllArrows | src/dungeonmodel/GeneralPlayerImpl.java:76-78 | the arrow count rises by n |
| Players.Player.RemoveArrow | src/dungeonmodel/GeneralPlayerImpl.java:81-83 | the arrow count drops by 1 |
| Players.Player.RemoveTreasures | src/dungeonmodel/GeneralPlayerImpl.java:86-88 | the treasure list becomes empty |
| NumberSources.PredictiveGeneration.FromValues | src/dungeonmodel/PredictiveGeneration.java:21-25 | varargs mode starts at index 0 with no fallback |
| NumberSources.PredictiveGeneration.FromList | src/dungeonmodel/PredictiveGeneration.java:31-35 | list mode starts at index 0 with the fallback on |
| NumberSources.PredictiveGeneration.GetIntInRange | src/dungeonmodel/PredictiveGeneration.java:38-46 | list mode at the last index gives 0 or 1 and does not advance; otherwise it gives the value at the index and advances by 1, unchecked against the bounds; past the end it fails |
| NumberSources.ListModeNeverReachesLast | src/dungeonmodel/PredictiveGeneration.java:38-46 | repeated list-mode calls replay all values but the last, then only 0 or 1 |
| NumberSources.RandomGeneration.constructor | src/dungeonmodel/RandomGeneration.java:18-21 | the log starts empty |
| NumberSources.RandomGeneration.GetIntInRange | src/dungeonmodel/RandomGeneration.java:24-28 | the value lies in [min, max] when the range is positive; a non-positive 32-bit range width fails; each value returned is appended to the log |
| NumberSources.LogRecordsEveryDraw | src/dungeonmodel/RandomGeneration.java:24-32 | after a run of draws the log equals the values returned, in order, one per call |
| Cells.NewLocation | src/dungeonmodel/Location.java:23-35 | a new cell is empty; a null point is refused |
| Cells.HasMonsterOfHealth | src/dungeonmodel/Location.java:100-102 | a cell has a monster exactly when its slot holds one of positive health: at full or half health yes, once killed or with an empty slot no |
| Cells.SameLocationIsSamePoint | src/dungeonmodel/Location.java:110-115 | two cells are equal exactly when they sit at the same point, whatever their contents, and the relation is symmetric |
| Cells.CaveAfterLink | src/dungeonmodel/Location.java:213-215 | a cell is a cave unless it has exactly two links: after one more link it is a cave exactly when it had other than one link before, so a tunnel always becomes a cave |
| Cells.AddArrows | src/dungeonmodel/Location.java:64-66 | the arrow count is overwritten, not added to; nothing else changes |
| Cells.RemoveArrow | src/dungeonmodel/Location.java:69-71 | the arrow count drops by exactly 1 |
| Cells.RemoveAllArrows | src/dungeonmodel/Location.java:74-76 | the arrow count becomes 0 |
| Cells.AddMonster | src/dungeonmodel/Location.java:94-96 | the cell holds the given monster and is otherwise unchanged |
| Cells.UpdateAdjacencies | src/dungeonmodel/Location.java:123-125 | one link is appended |
| Cells.AddTreasure | src/dungeonmodel/Location.java:134-136 | one treasure is appended at the end of the list |
| Cells.RemoveFirst | src/dungeonmodel/Location.java:235-237 | exactly one occurrence of the treasure is removed, or none when absent |
| Cells.RemoveTreasure | src/dungeonmodel/Location.java:235-237 | the cell's treasure multiset loses one t; an absent t changes nothing |
| Cells.RemoveAllTreasures | src/dungeonmodel/Location.java:240-242 | the treasure list becomes empty |
| Cells.SetVisited | src/dungeonmodel/Location.java:53-55 | the visited flag is set and nothing else changes |
| Cells.AddPit | src/dungeonmodel/Location.java:37-39 | the pit flag is set and nothing else changes |
| Cells.AddThief | src/dungeonmodel/Location.java:45-47 | the thief flag is set and nothing else changes |
| Cells.ScanNeighbours | src/dungeonmodel/Location.java:140-152 | the first loop stops at a live neighbour; otherwise it collects, without repeats, every cell two links away |
| Cells.CountLiveIsCardinality | src/dungeonmodel/Location.java:153-159 | the second loop counts the distinct live cells in the collected list |
| Cells.SmellInCaveFollowsRule | src/dungeonmodel/Location.java:139-169 | smell: a live neighbour gives the stronger smell; otherwise one live monster two links away gives the fainter smell, more give the stronger, and none gives no smell |
| Cells.DirectionMovesAreLinks | src/dungeonmodel/Location.java:177-210 | every exit in the direction table is one of the cell's links |
| Cells.PutMoveOfStep | src/dungeonmodel/Location.java:182-207 | on a grid of at least 3 x 3, a link to a compass neighbour adds exactly that direction, across the border included |
| Cells.MovesAfterOfSteps | src/dungeonmodel/Location.java:177-210 | after k links the table holds direction d exactly when the neighbour in direction d is among those links, and leads to it |
| Cells.DirectionMovesAreCompass | src/dungeonmodel/Location.java:177-210 | the table offers d exactly when the cell is linked to its neighbour in direction d, and leads there |
| Cells.WestWrapsAround | src/dungeonmodel/Location.java:177-210 | in a wrapping 5 x 5 dungeon, WEST from (3, 0) reaches (3, 4) |
| Layout.IndexInRange | src/dungeonmodel/DungeonGameImpl.java:747-749 | `row * cols + col` of an inside cell lies in `0 .. rows * cols - 1` |
| Layout.IndexInjective | src/dungeonmodel/DungeonGameImpl.java:747-749 | different cells get different one-dimensional indexes |
| Layout.CellsOfKind | src/dungeonmodel/DungeonGameImpl.java:563-588 | the caves (or tunnels) list holds exactly the cells of that kind |
| Layout.RowMajorMembers | src/dungeonmodel/DungeonGameImpl.java:563-588 | the row-by-row scan visits exactly the cells of the grid |
| DungeonGames.DungeonGame.MakeCells | src/dungeonmodel/DungeonGameImpl.java:97-101 | every cell is a new location at its own coordinates |
| CandidatePaths.AddNew | src/dungeonmodel/DungeonGameImpl.java:769-817 | a path is appended only when no equal path is listed yet |
| CandidatePaths.AddCellPaths | src/dungeonmodel/DungeonGameImpl.java:775-802 | after visiting a cell, every grid neighbour of it is joined by a listed path, with no two equal paths listed; the paths it appends start at that cell and come after every path listed before, so the list stays in row-major order |
| CandidatePaths.AddWrapPaths | src/dungeonmodel/DungeonGameImpl.java:806-815 | when wrapping, one top-bottom path per column and one left-right path per row are appended without deduplication; an empty dimension makes the index out of bounds |
| CandidatePaths.AddRow | src/dungeonmodel/DungeonGameImpl.java:774-803 | after the cells of one row, every cell of that row and the rows above has all its grid paths listed, each start is in those rows, and the list is still distinct and in row-major order |
| CandidatePaths.AddGridPaths | src/dungeonmodel/DungeonGameImpl.java:773-804 | the nested loops list every grid-adjacent pair exactly once, oriented low to high, in strictly increasing row-major order of start cell and then far cell |
| CandidatePaths.InOrderSorted | src/dungeonmodel/DungeonGameImpl.java:773-804 | a list in which each path follows the one before it is strictly increasing throughout |
| CandidatePaths.MakePotentialPaths | src/dungeonmodel/DungeonGameImpl.java:769-817 | every grid-adjacent pair appears exactly once, oriented low to high, in strictly increasing row-major order of start cell and then far cell, followed by the wrap paths exactly when wrapping |
| CandidatePaths.WrapCandidates | src/dungeonmodel/DungeonGameImpl.java:806-815 | the wrap paths join cells inside the grid |
| Forests.Root | src/dungeonmodel/DungeonGameImpl.java:752-757 | following parents ends at a root |
| Forests.UnionForest | src/dungeonmodel/DungeonGameImpl.java:762-766 | linking one root under another keeps a forest |
| Forests.RootAfterUnion | src/dungeonmodel/DungeonGameImpl.java:762-766 | after the union, a member of the first set has the second root; the others keep theirs |
| Forests.RootsAfterUnion | src/dungeonmodel/DungeonGameImpl.java:762-766 | a union removes exactly one root |
| Forests.SingletonsForest | src/dungeonmodel/DungeonGameImpl.java:696-698 | the initial parents form rows * cols singleton sets |
| Forests.OneRoot | src/dungeonmodel/DungeonGameImpl.java:690-732 | with a single root, every two cells are in the same set |
| DungeonGames.DungeonGame.Find | src/dungeonmodel/DungeonGameImpl.java:752-757 | `find` returns the root of i's tree |
| DungeonGames.DungeonGame.Union1 | src/dungeonmodel/DungeonGameImpl.java:762-766 | the parent array becomes the union of the two roots |
| DungeonGames.DungeonGame.ResetParents | src/dungeonmodel/DungeonGameImpl.java:696-698 | every cell becomes its own parent |
| DungeonGames.DungeonGame.DrawUnused | src/dungeonmodel/DungeonGameImpl.java:701-706 | the redraw loop returns a listed path not yet marked used, consuming at least one value |
| DungeonGames.DungeonGame.JoinIfApart | src/dungeonmodel/DungeonGameImpl.java:707-721 | a path whose ends lie in the same set changes nothing; otherwise it is linked at both ends and the tree grows by it |
| DungeonGames.DungeonGame.Kruskal | src/dungeonmodel/DungeonGameImpl.java:700-722 | the loop ends with rows * cols - 1 accepted paths, each a candidate, marked used exactly when accepted |
| DungeonGames.DungeonGame.CollectUnused | src/dungeonmodel/DungeonGameImpl.java:723-731 | the returned list holds each unaccepted candidate exactly once |
| DungeonGames.DungeonGame.BuildMst | src/dungeonmodel/DungeonGameImpl.java:690-732 | the dungeon is the grid linked along the accepted paths; it is acyclic, symmetric and connected, with rows * cols - 1 paths; the result lists exactly the unaccepted candidates |
| UsedPaths.MapFromPaths | src/dungeonmodel/DungeonGameImpl.java:678-687 | every path is a key, marked unused |
| UsedPaths.OrientedSameIdentical | src/dungeonmodel/LocationMap.java:26-42 | two equal paths oriented the same way are the same key |
| UsedPaths.UnusedPaths | src/dungeonmodel/DungeonGameImpl.java:726-730 | the keys still marked false, in map order, each as often as it is listed |
| UsedPaths.ApplyEdgesConnects | src/dungeonmodel/DungeonGameImpl.java:659-675 | extra paths never disconnect two cells |
| SpanningTree.AcceptStep | src/dungeonmodel/DungeonGameImpl.java:715-720 | accepting a path between two different sets keeps the spanning-tree invariant |
| SpanningTree.AcyclicStep | src/dungeonmodel/DungeonGameImpl.java:715-720 | a path between two cells that are not yet connected keeps the tree acyclic |
| SpanningTree.TreeDone | src/dungeonmodel/DungeonGameImpl.java:700 | with rows * cols - 1 accepted paths, every two cells are connected |
| Walks.LinkSymmetric | src/dungeonmodel/DungeonGameImpl.java:718-719 | linking a path at both ends keeps links symmetric |
| Walks.LinkGrows | src/dungeonmodel/DungeonGameImpl.java:718-719 | linking keeps every old link and connects the two ends |
| Walks.ConnectedTransitive | src/dungeonmodel/DungeonGameImpl.java:690-732 | connection by walks along links is transitive |
| Walks.ConnectedBack | src/dungeonmodel/DungeonGameImpl.java:690-732 | on symmetric links, connection is symmetric |
| Walks.ApplyEdgesGrows | src/dungeonmodel/DungeonGameImpl.java:659-675 | linking a list of paths keeps old links and symmetry |
| DungeonGames.DungeonGame.IncorporateInterConnectivity | src/dungeonmodel/DungeonGameImpl.java:659-675 | exactly `interconnectivity` paths from the unused list are linked at both ends |
| DungeonGames.DungeonGame.LayOut | src/dungeonmodel/DungeonGameImpl.java:96-109 | the cells, the spanning tree and the extra paths give a symmetric, connected dungeon; interconnectivity above the unused count is refused |
| Distances.DistanceMeaning | src/dungeonmodel/DungeonGameImpl.java:258-292 | the search gives 0 exactly when the two cells are equal or not connected, and otherwise the length of a shortest walk between them: a walk of that length exists and no walk is shorter |
| Distances.DistanceAtMost | src/dungeonmodel/DungeonGameImpl.java:258-292 | the recorded distance never exceeds the length of any walk between the two cells |
| Distances.RunFrontier | src/dungeonmodel/DungeonGameImpl.java:268-289 | the queue loop keeps the breadth-first layers: the queue spans two adjacent distances in order, and every link of a finished cell is at most one step further |
| Distances.WalkBound | src/dungeonmodel/DungeonGameImpl.java:268-289 | after the loop, the k-th cell of any walk from the source is visited at distance at most k |
| Distances.RunKeeps | src/dungeonmodel/DungeonGameImpl.java:268-289 | the queue loop keeps the search invariant: every visited cell is reached by a walk of its recorded length |
| Distances.DistanceSameLinks | src/dungeonmodel/DungeonGameImpl.java:258-292 | the distance depends only on the links |
| DungeonGames.DungeonGame.FindDistance | src/dungeonmodel/DungeonGameImpl.java:258-292 | the array-and-queue search returns the distance of the search specification |
| DungeonGames.DungeonGame.CellsOfKindIn | src/dungeonmodel/DungeonGameImpl.java:563-588 | the scan lists the caves (or tunnels) in row-major order |
| Placements.TreasureOf | src/dungeonmodel/DungeonGameImpl.java:312-319 | kind draws 0, 1 and 2 name a treasure; any other value names none |
| Placements.KindsCount | src/dungeonmodel/DungeonGameImpl.java:310-321 | each treasure kind is added once per draw that names it |
| Placements.TreasureRoundStep | src/dungeonmodel/DungeonGameImpl.java:302-323 | one round fills one empty cell with the kinds drawn and leaves the others |
| Placements.PercentOf | src/dungeonmodel/DungeonGameImpl.java:299-300 | the quota is floor(n * percent / 100), at most n |
| DungeonGames.DungeonGame.AddDrawnTreasures | src/dungeonmodel/DungeonGameImpl.java:310-321 | the cell gains the kinds of exactly the values drawn |
| DungeonGames.DungeonGame.AddTreasuresToDungeon | src/dungeonmodel/DungeonGameImpl.java:295-324 | exactly the quota of rounds, each into a cell of the whole grid that had no treasure; only treasure lists change |
| Placements.PairBudget | src/dungeonmodel/DungeonGameImpl.java:118-131 | the budget is floor(n(n-1)/2/2), and 0 for two caves |
| DungeonGames.DungeonGame.GetStartEndLocations | src/dungeonmodel/DungeonGameImpl.java:224-253 | on success start and end are caves more than 5 apart and the player stands at start; fewer than two caves, or two, fail |
| Placements.MonsterQuota | src/dungeonmodel/DungeonGameImpl.java:333-341 | difficulty - 1 further monsters, capped at caves - 2 |
| Placements.MonsterStep | src/dungeonmodel/DungeonGameImpl.java:342-352 | a new monster in a monster-free cave other than start keeps the placement invariant |
| Placements.MonsterCells | src/dungeonmodel/DungeonGameImpl.java:327-353 | monsters stand exactly in the cells placed |
| DungeonGames.DungeonGame.AddMonstersToDungeon | src/dungeonmodel/DungeonGameImpl.java:327-353 | end gets a new full-health monster; then the quota of further full-health monsters go to distinct caves other than start |
| Placements.ArrowRoundStep | src/dungeonmodel/DungeonGameImpl.java:361-372 | one round overwrites the count of a cell that had no arrows |
| DungeonGames.DungeonGame.AddArrowsToDungeon | src/dungeonmodel/DungeonGameImpl.java:356-373 | exactly floor(rows * cols * percent / 100) rounds, each into a cell without arrows; only arrow counts change |
| Placements.CellsOfKindSameLinks | src/dungeonmodel/DungeonGameImpl.java:563-588 | placing contents does not change which cells are caves |
| DungeonGames.DungeonGame.CreateDungeon | src/dungeonmodel/DungeonGameImpl.java:95-115 | on success the dungeon is symmetric and connected, start and end are caves more than 5 apart, and the end has a full-health monster while start has none; the possible errors are listed |
| DungeonGames.Validate | src/dungeonmodel/DungeonGameImpl.java:57-75 | the argument checks in order; all pass exactly when the arguments are valid |
| DungeonGames.DungeonGame.New | src/dungeonmodel/DungeonGameImpl.java:52-91 | invalid arguments fail before any generation; on success the game is built, the start is visited, the player stands there, and the direction key order given is kept |
| DungeonGames.EndsApart | src/dungeonmodel/DungeonGameImpl.java:224-253 | in a built dungeon a walk of the search distance joins start and end, and no walk of five links or fewer does |
| DungeonGames.BuiltKept | src/dungeonmodel/PitsThievesDungeonImpl.java:35-38 | adding contents other than monsters keeps the built dungeon |
| DungeonGames.DungeonGame.CheckIfGameOver | src/dungeonmodel/DungeonGameImpl.java:861-870 | an error exactly when the game is over (`isGameOver`: at end or dead); it reads lost when dead and won when alive |
| DungeonGames.DungeonGame.PickTreasure | src/dungeonmodel/DungeonGameImpl.java:376-391 | errors in order: null, empty cell, kind absent, with nothing changed; otherwise one t moves from cell to player |
| DungeonGames.DungeonGame.PickArrow | src/dungeonmodel/DungeonGameImpl.java:394-402 | with no arrows here it fails with nothing changed; otherwise one arrow moves from cell to player |
| DungeonGames.DungeonGame.PickAllArrows | src/dungeonmodel/DungeonGameImpl.java:873-882 | game over first, then no arrows; otherwise all arrows move to the player and the cell is emptied |
| DungeonGames.DungeonGame.PickAllTreasures | src/dungeonmodel/DungeonGameImpl.java:885-895 | game over first, then no treasure; otherwise the whole list moves to the player and the cell is emptied |
| DungeonGames.DungeonGame.MoveTarget | src/dungeonmodel/DungeonGameImpl.java:528-543 | a move happens exactly when the direction is given, the game is not over, and the table has it |
| DungeonGames.DungeonGame.MovePlayer | src/dungeonmodel/DungeonGameImpl.java:528-559 | errors in order: null direction, game over, no such exit, with nothing changed; otherwise the player moves there and marks it visited, and the monster decides the fate |
| DungeonGames.Encounter | src/dungeonmodel/DungeonGameImpl.java:545-558 | a full-health monster kills with reason 1; a half-health one draws and kills on 0; a survivor's state is unchanged but for the draw |
| Shots.Opposite | src/dungeonmodel/DungeonGameImpl.java:508-515 | the opposite is a different direction on the same axis |
| Shots.OppositeTwice | src/dungeonmodel/DungeonGameImpl.java:508-515 | the opposite of the opposite is the direction itself |
| Shots.TunnelExit | src/dungeonmodel/DungeonGameImpl.java:405-412 | the exit is the tunnel's other link when the two differ |
| Shots.LastKeyTo | src/dungeonmodel/DungeonGameImpl.java:451-455 | the last table key leading to the next cell, or the heading unchanged when none does |
| Shots.LastKeyToUnique | src/dungeonmodel/DungeonGameImpl.java:451-455 | with distinct exits, it is the direction of that exit |
| Shots.Fly | src/dungeonmodel/DungeonGameImpl.java:439-478 | the flight lands on a cave of the grid once distance is spent |
| Shots.FlyMoreFuel | src/dungeonmodel/DungeonGameImpl.java:444-468 | more fuel does not change a flight that finished |
| Shots.ShotBounces | src/dungeonmodel/DungeonGameImpl.java:458-466 | between two caves linked on one axis, the arrow bounces: an odd distance hits the first and an even one the second |
| DungeonGames.DungeonGame.TunnelHeading | src/dungeonmodel/DungeonGameImpl.java:451-455 | the entry loop computes `LastKeyTo`; over an order listing every direction it turns to a direction whose exit is the next cell whenever one exists, and keeps the heading only when none does |
| DungeonGames.DungeonGame.ArrowStep | src/dungeonmodel/DungeonGameImpl.java:446-467 | one pass of the loop is one step of the flight |
| DungeonGames.DungeonGame.FollowArrow | src/dungeonmodel/DungeonGameImpl.java:442-468 | the loop computes the flight |
| DungeonGames.DungeonGame.ShotFlight | src/dungeonmodel/DungeonGameImpl.java:432-441 | no flight exactly when the first direction has no exit |
| DungeonGames.DungeonGame.StatusAfterHit | src/dungeonmodel/DungeonGameImpl.java:479-491 | full health hit gives INJURED, half health DEAD |
| DungeonGames.DungeonGame.ShootArrow | src/dungeonmodel/DungeonGameImpl.java:415-493 | guards in order: game over, distance outside 1..4, null direction, no arrows, changing nothing; otherwise one arrow is spent and a live monster in the hit cell loses 0.5, or the result is UNAFFECTED |
| DungeonGames.CumulativeTreasures | src/dungeonmodel/DungeonGameImpl.java:209-221 | the keys are the kinds present, each mapped to its count |
| DungeonGames.DungeonGame.PlayerTreasureCount | src/dungeonmodel/DungeonGameImpl.java:904-931 | the player's count of a kind, 0 when absent |
| DungeonGames.DungeonGame.CurrentLocationTreasureCount | src/dungeonmodel/DungeonGameImpl.java:944-977 | the current cell's count of a kind, 0 when absent |
| DungeonGames.DungeonGame.CurrentLocationArrowCount | src/dungeonmodel/DungeonGameImpl.java:934-941 | the current cell's arrow count, never negative |
| Placements.PitQuota | src/dungeonmodel/PitsThievesDungeonImpl.java:47-52 | difficulty pits, capped at caves - 2 |
| Placements.ThiefQuota | src/dungeonmodel/PitsThievesDungeonImpl.java:70-75 | difficulty thieves, capped at the tunnel count |
| Placements.FlagStep | src/dungeonmodel/PitsThievesDungeonImpl.java:53-62 | flagging a new cell of the pool other than start and end keeps the placement invariant |
| Placements.FlagsExactly | src/dungeonmodel/PitsThievesDungeonImpl.java:43-87 | the flag is set exactly on the cells placed |
| PitsThieves.PitsThievesDungeon.PlaceFlags | src/dungeonmodel/PitsThievesDungeonImpl.java:53-62 | the reroll loop flags the quota of distinct pool cells other than start and end |
| PitsThieves.PitsThievesDungeon.AddPits | src/dungeonmodel/PitsThievesDungeonImpl.java:43-63 | pits go to the quota of distinct caves other than start and end |
| PitsThieves.PitsThievesDungeon.AddThieves | src/dungeonmodel/PitsThievesDungeonImpl.java:66-87 | thieves go to the quota of distinct tunnels |
| PitsThieves.PitsThievesDungeon.HazardsPlaced | src/dungeonmodel/PitsThievesDungeonImpl.java:43-87 | after both placements, a cell has a pit exactly when listed as a pit cave, and a thief exactly when listed as a thief tunnel |
| PitsThieves.HazardsOnly | src/dungeonmodel/PitsThievesDungeonImpl.java:43-87 | when pits and then thieves each change only their own flag, the final grid is the hazard-free one with the pit flag exactly on the pit cells and the thief flag exactly on the thief cells, every other part of every cell unchanged |
| PitsThieves.PitsThievesDungeon.AddHazards | src/dungeonmodel/PitsThievesDungeonImpl.java:35-38 | pits, then thieves, are placed on the built game; on success the grid is the old one with exactly those flags added, the game stays playable, and a failed draw or index is reported |
| PitsThieves.PitsThievesDungeon.New | src/dungeonmodel/PitsThievesDungeonImpl.java:32-39 | the plain game is built with the same checks and errors, keeping the size, interconnectivity, wrapping, percentage, difficulty and direction key order given; its grid, built and hazard-free, then gains exactly the pit and thief flags placed, with treasure, arrows, monsters and links unchanged |
| PitsThieves.PitKeys | src/dungeonmodel/PitsThievesDungeonImpl.java:90-101 | over an order listing every direction, the listed directions are exactly the table directions whose cell has a pit; no repeats when the order has none |
| PitsThieves.PitsThievesDungeon.PitsAround | src/dungeonmodel/PitsThievesDungeonImpl.java:90-101 | the loop lists the pit directions in table order: every exit leading to a pit, each once, and no other |
| PitsThieves.PitFall | src/dungeonmodel/PitsThievesDungeonImpl.java:106-112 | a pit draws once and kills with reason 2 on 0; no pit, no effect |
| PitsThieves.PitsThievesDungeon.EnterHazards | src/dungeonmodel/PitsThievesDungeonImpl.java:106-116 | a pit rolls whatever the monster did; a thief empties the treasure list; arrows are untouched |
| PitsThieves.PitsThievesDungeon.MovePlayer | src/dungeonmodel/PitsThievesDungeonImpl.java:104-117 | the plain move with its errors; on success the monster's fate, then the pit's, then the thief |

## Left out

- Console, GUI and driver: they are I/O and event wiring.
- Message text: `getPlayerCurrLocationInfo`, `getPlayerInfo`, `printGraph` and the `toString` methods other than Point2D's are string formatting.
- `getRandomSeed`: it only casts the number source.
- `Placements.PercentOf`: the percentage quota is the exact integer floor `floor(n * percent / 100)`. Java multiplies in doubles, and for some inputs the product rounds just below an integer, for example 28 instead of 29 for 100 cells at 29%.
- `DungeonGames.DungeonGame.AddTreasuresToDungeon`: its quota is `PercentOf` with n the number of caves (DungeonGameImpl.java:297-300), so it inherits that exact floor.
- `DungeonGames.DungeonGame.AddArrowsToDungeon`: its quota is `PercentOf` with n = rows · cols (DungeonGameImpl.java:358-359), so it inherits that exact floor.
- `Shots.Fly`: the flight carries a fuel bound, `shotFuel`. A flight that would go round a loop of tunnels forever ends as `Exhausted` (an `OutOfFuel` error) after that many steps instead of hanging.
- `DungeonGames.DungeonGame.BuildMst`: it does not state that the accepted paths are pairwise distinct.
- The Java integer width of `rows * cols` and of the indexes is not modelled; integers are unbounded.
- The copy-returning getters and the aliasing of `getBoard`: cells are values here, so no caller can change the dungeon through a getter.
- `LocationMap.hashCode` and `HashMap` order: they stand behind the parameters `hashOrder`, which permutes the keys it is given, and `keyOrder`, which lists each direction once. Which permutation Java's hashing produces is not modelled.
- `PitsThieves.PitsThievesDungeon.PitsAround`: a null location is not accepted; the caller passes a cell of the grid.
- The plain getters (`getRowsInBoard`, `getPlayerName`, `getStartLocation` and the like), `hasPit`, `hasThief`, `getSmellInLocation` and `isPlayerAlive`: they read a field or call a modelled function.
- Health values other than 1.0, 0.5 and 0.0 do not arise in play; `StatusAfterHit` returns `None` for them, as `shootArrow` returns `null`.
