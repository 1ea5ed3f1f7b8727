/**
 * Why the randomized Kruskal loop of DungeonGameImpl.java (buildMst) builds a
 * spanning tree: the facts its loop keeps about the grid of links and the
 * union-find forest, and how one accepted path keeps them.
 */
module SpanningTree {
  import opened Points
  import opened LocationMaps
  import opened Cells
  import opened Layout
  import opened Walks
  import opened Forests

  /** The set of cell x in the forest, or -1 for a cell outside it. */
  function RootAt(p: seq<int>, rank: seq<nat>, cols: int, x: Point2D): int
    requires IsForest(p, rank)
  {
    var i := PointIndex(cols, x);
    if 0 <= i < |p| then Root(p, rank, i) else -1
  }

  /** No cell has any link yet. */
  ghost predicate Unlinked(g: Grid) {
    forall x :: InGrid(g, x) ==> At(g, x).adjacency == []
  }

  /** Every path in tree, when it was linked, joined two cells not yet connected. */
  ghost predicate BuiltAcyclic(g0: Grid, tree: seq<LocationMap>)
    requires EdgesIn(g0, tree)
    decreases |tree|
  {
    tree == []
    || (var before, e := tree[..|tree| - 1], tree[|tree| - 1];
        assert EdgesIn(g0, before) by {
          forall k | 0 <= k < |before| ensures InGrid(g0, before[k].source) && InGrid(g0, before[k].dest) {
            assert before[k] == tree[k];
          }
        }
        BuiltAcyclic(g0, before) && !Connected(ApplyEdges(g0, before), e.source, e.dest))
  }

  /** Every link joins two cells of the same set. */
  ghost predicate LinksRespectSets(g: Grid, cols: int, p: seq<int>, rank: seq<nat>)
    requires IsForest(p, rank)
  {
    forall x, y :: InGrid(g, x) && y in At(g, x).adjacency ==> RootAt(p, rank, cols, x) == RootAt(p, rank, cols, y)
  }

  /** Two cells of the same set are connected. */
  ghost predicate SetsConnected(g: Grid, cols: int, p: seq<int>, rank: seq<nat>)
    requires IsForest(p, rank)
  {
    forall x, y {:trigger Connected(g, x, y)} ::
      InGrid(g, x) && InGrid(g, y) && RootAt(p, rank, cols, x) == RootAt(p, rank, cols, y) ==> Connected(g, x, y)
  }

  /**
   * The loop's state: the grid g is the unlinked grid g0 with the paths of
   * tree linked in, in order, each of which joined two unconnected cells;
   * the sets of the forest p are exactly the connected parts of g; and there
   * are rows * cols - |tree| sets.
   */
  ghost predicate TreeState(g0: Grid, g: Grid, rows: int, cols: int, p: seq<int>, rank: seq<nat>, tree: seq<LocationMap>) {
    0 <= rows && 0 <= cols && Shaped(g0, rows, cols) && Unlinked(g0)
    && |p| == rows * cols && IsForest(p, rank)
    && (forall i :: 0 <= i < |rank| ==> rank[i] <= |tree|)
    && (rows * cols == 0 ==> tree == []) && (rows * cols >= 1 ==> |tree| <= rows * cols - 1)
    && EdgesIn(g0, tree) && g == ApplyEdges(g0, tree) && BuiltAcyclic(g0, tree)
    && |Roots(p)| == rows * cols - |tree|
    && LinksRespectSets(g, cols, p, rank)
    && SetsConnected(g, cols, p, rank)
  }

  /**
   * The state of buildMst's loop as it is handed between its methods: the
   * rank that bounds the forest is the model's own bookkeeping (it makes find
   * terminate) and the code keeps none, so here it is only said to exist.
   */
  ghost predicate Building(g0: Grid, g: Grid, rows: int, cols: int, p: seq<int>, tree: seq<LocationMap>) {
    exists rank :: TreeState(g0, g, rows, cols, p, rank, tree)
  }

  /** What the loop's state says about the grid built so far. */
  lemma TreeStateGrid(g0: Grid, g: Grid, rows: int, cols: int, p: seq<int>, rank: seq<nat>, tree: seq<LocationMap>)
    requires TreeState(g0, g, rows, cols, p, rank, tree)
    ensures EdgesIn(g0, tree) && g == ApplyEdges(g0, tree) && BuiltAcyclic(g0, tree) && Symmetric(g)
  {
    ApplyEdgesGrows(g0, tree);
  }

  /** A walk never leaves the set it starts in. */
  lemma {:induction false} WalkStaysInSet(g: Grid, cols: int, p: seq<int>, rank: seq<nat>, w: seq<Point2D>, k: nat)
    requires IsForest(p, rank) && LinksRespectSets(g, cols, p, rank)
    requires IsWalk(g, w) && k < |w|
    ensures RootAt(p, rank, cols, w[k]) == RootAt(p, rank, cols, w[0])
  {
    if k > 0 {
      WalkStaysInSet(g, cols, p, rank, w, k - 1);
      assert w[k] in At(g, w[k - 1]).adjacency;
    }
  }

  lemma ConnectedSameSet(g: Grid, cols: int, p: seq<int>, rank: seq<nat>, x: Point2D, y: Point2D)
    requires IsForest(p, rank) && LinksRespectSets(g, cols, p, rank) && Connected(g, x, y)
    ensures RootAt(p, rank, cols, x) == RootAt(p, rank, cols, y)
  {
    var w :| IsWalk(g, w) && w[0] == x && w[|w| - 1] == y;
    WalkStaysInSet(g, cols, p, rank, w, |w| - 1);
  }

  /** The loop starts from one set per cell and no paths. */
  lemma {:induction false} TreeStart(g0: Grid, rows: int, cols: int)
    requires 0 <= rows && 0 <= cols && Shaped(g0, rows, cols) && Unlinked(g0)
    ensures TreeState(g0, g0, rows, cols, Singletons(rows * cols), Flat(rows * cols), [])
  {
    var p, rank := Singletons(rows * cols), Flat(rows * cols);
    SingletonsForest(rows * cols);
    GridIndexed(rows, cols);
    assert ApplyEdges(g0, []) == g0;
    forall x, y | InGrid(g0, x) && InGrid(g0, y) && RootAt(p, rank, cols, x) == RootAt(p, rank, cols, y)
      ensures Connected(g0, x, y)
    {
      assert Inside(rows, cols, x) && Inside(rows, cols, y);
      assert x == y;
      ConnectedToItself(g0, x);
    }
  }

  /** The sets after joining the set of s to the set of d. */
  lemma {:induction false} SetsAfterUnion(rows: int, cols: int, p: seq<int>, rank: seq<nat>, a: int, b: int, x: Point2D)
    requires 0 <= rows && 0 <= cols && |p| == rows * cols && IsForest(p, rank)
    requires 0 <= a < |p| && 0 <= b < |p| && p[a] == a && p[b] == b && a != b && rank[a] + 1 < |p|
    ensures IsForest(Union(p, a, b), UnionRank(rank, a, b))
    ensures RootAt(Union(p, a, b), UnionRank(rank, a, b), cols, x) ==
      (if RootAt(p, rank, cols, x) == a then b else RootAt(p, rank, cols, x))
  {
    UnionForest(p, rank, a, b);
    var i := PointIndex(cols, x);
    if 0 <= i < |p| {
      RootAfterUnion(p, rank, a, b, i);
    }
  }

  /**
   * The facts about one accepted path that the two lemmas below use: s and d
   * lie in different sets of a rows x cols forest whose ranks stay below n,
   * with n + 1 < rows * cols.
   */
  ghost predicate Joinable(g: Grid, rows: int, cols: int, p: seq<int>, rank: seq<nat>, n: nat, s: Point2D, d: Point2D) {
    0 <= rows && 0 <= cols && Shaped(g, rows, cols)
    && |p| == rows * cols && IsForest(p, rank)
    && (forall i :: 0 <= i < |rank| ==> rank[i] <= n) && n + 1 < rows * cols
    && InGrid(g, s) && InGrid(g, d)
    && RootAt(p, rank, cols, s) != RootAt(p, rank, cols, d)
  }

  /** The roots of s and d exist, and joining them keeps a forest. */
  lemma {:induction false} JoinedForest(g: Grid, rows: int, cols: int, p: seq<int>, rank: seq<nat>, n: nat, s: Point2D, d: Point2D)
    requires Joinable(g, rows, cols, p, rank, n, s, d)
    ensures 0 <= RootAt(p, rank, cols, s) < |p| && 0 <= RootAt(p, rank, cols, d) < |p|
    ensures IsForest(Union(p, RootAt(p, rank, cols, s), RootAt(p, rank, cols, d)),
                     UnionRank(rank, RootAt(p, rank, cols, s), RootAt(p, rank, cols, d)))
  {
    IndexInRange(rows, cols, s);
    IndexInRange(rows, cols, d);
    var a, b := RootAt(p, rank, cols, s), RootAt(p, rank, cols, d);
    assert rank[a] <= n;
    UnionForest(p, rank, a, b);
  }

  /** After the link, cells of the same joined set are connected. */
  lemma {:induction false} JoinedSetsConnected(g: Grid, rows: int, cols: int, p: seq<int>, rank: seq<nat>, n: nat,
                                               s: Point2D, d: Point2D)
    requires Joinable(g, rows, cols, p, rank, n, s, d) && SetsConnected(g, cols, p, rank)
    ensures 0 <= RootAt(p, rank, cols, s) < |p| && 0 <= RootAt(p, rank, cols, d) < |p|
    ensures IsForest(Union(p, RootAt(p, rank, cols, s), RootAt(p, rank, cols, d)),
                     UnionRank(rank, RootAt(p, rank, cols, s), RootAt(p, rank, cols, d)))
    ensures SetsConnected(Link(g, s, d), cols,
                          Union(p, RootAt(p, rank, cols, s), RootAt(p, rank, cols, d)),
                          UnionRank(rank, RootAt(p, rank, cols, s), RootAt(p, rank, cols, d)))
  {
    JoinedForest(g, rows, cols, p, rank, n, s, d);
    var a, b := RootAt(p, rank, cols, s), RootAt(p, rank, cols, d);
    assert rank[a] <= n;
    var p', rank' := Union(p, a, b), UnionRank(rank, a, b);
    var h := Link(g, s, d);
    LinkGrows(g, s, d);
    forall x, y | InGrid(h, x) && InGrid(h, y) && RootAt(p', rank', cols, x) == RootAt(p', rank', cols, y)
      ensures Connected(h, x, y)
    {
      SetsAfterUnion(rows, cols, p, rank, a, b, x);
      SetsAfterUnion(rows, cols, p, rank, a, b, y);
      var rx, ry := RootAt(p, rank, cols, x), RootAt(p, rank, cols, y);
      if rx == ry {
        ConnectedGrows(g, h, x, y);
      } else if rx == a {
        assert ry == b;
        ConnectedGrows(g, h, x, s);
        ConnectedGrows(g, h, d, y);
        ConnectedTransitive(h, x, s, d);
        ConnectedTransitive(h, x, d, y);
      } else {
        assert rx == b && ry == a;
        ConnectedGrows(g, h, x, d);
        ConnectedGrows(g, h, s, y);
        ConnectedTransitive(h, x, d, s);
        ConnectedTransitive(h, x, s, y);
      }
    }
  }

  /** After the link, every link still joins cells of one set. */
  lemma {:induction false} JoinedLinksRespectSets(g: Grid, rows: int, cols: int, p: seq<int>, rank: seq<nat>, n: nat,
                                                  s: Point2D, d: Point2D)
    requires Joinable(g, rows, cols, p, rank, n, s, d) && LinksRespectSets(g, cols, p, rank)
    ensures 0 <= RootAt(p, rank, cols, s) < |p| && 0 <= RootAt(p, rank, cols, d) < |p|
    ensures IsForest(Union(p, RootAt(p, rank, cols, s), RootAt(p, rank, cols, d)),
                     UnionRank(rank, RootAt(p, rank, cols, s), RootAt(p, rank, cols, d)))
    ensures LinksRespectSets(Link(g, s, d), cols,
                             Union(p, RootAt(p, rank, cols, s), RootAt(p, rank, cols, d)),
                             UnionRank(rank, RootAt(p, rank, cols, s), RootAt(p, rank, cols, d)))
  {
    JoinedForest(g, rows, cols, p, rank, n, s, d);
    var a, b := RootAt(p, rank, cols, s), RootAt(p, rank, cols, d);
    assert rank[a] <= n;
    var p', rank' := Union(p, a, b), UnionRank(rank, a, b);
    var h := Link(g, s, d);
    forall x, y | InGrid(h, x) && y in At(h, x).adjacency
      ensures RootAt(p', rank', cols, x) == RootAt(p', rank', cols, y)
    {
      LinkLinks(g, s, d, x, y);
      SetsAfterUnion(rows, cols, p, rank, a, b, x);
      SetsAfterUnion(rows, cols, p, rank, a, b, y);
    }
  }

  /** Linking a path between unconnected cells keeps the tree acyclic as built. */
  lemma {:induction false} AcyclicStep(g0: Grid, tree: seq<LocationMap>, e: LocationMap)
    requires EdgesIn(g0, tree) && InGrid(g0, e.source) && InGrid(g0, e.dest) && BuiltAcyclic(g0, tree)
    requires !Connected(ApplyEdges(g0, tree), e.source, e.dest)
    ensures EdgesIn(g0, tree + [e]) && BuiltAcyclic(g0, tree + [e])
  {
    var tree' := tree + [e];
    ApplyOneMore(g0, tree, e);
    assert tree'[..|tree|] == tree;
  }

  /** The ranks after a union stay within the number of paths accepted. */
  lemma RankStep(rank: seq<nat>, a: int, b: int, n: nat)
    requires 0 <= a < |rank| && 0 <= b < |rank|
    requires forall i :: 0 <= i < |rank| ==> rank[i] <= n
    ensures forall i :: 0 <= i < |rank| ==> UnionRank(rank, a, b)[i] <= n + 1
  {
  }

  /** Accepting a path between two different sets keeps the loop's state, with one path more. */
  lemma {:induction false} AcceptStep(g0: Grid, g: Grid, rows: int, cols: int, p: seq<int>, rank: seq<nat>,
                                      tree: seq<LocationMap>, e: LocationMap)
    requires TreeState(g0, g, rows, cols, p, rank, tree)
    requires InGrid(g0, e.source) && InGrid(g0, e.dest)
    requires RootAt(p, rank, cols, e.source) != RootAt(p, rank, cols, e.dest) && |tree| < rows * cols - 1
    ensures 0 <= RootAt(p, rank, cols, e.source) < |p| && 0 <= RootAt(p, rank, cols, e.dest) < |p|
    ensures InGrid(g, e.source) && InGrid(g, e.dest)
    ensures TreeState(g0, Link(g, e.source, e.dest), rows, cols,
                      Union(p, RootAt(p, rank, cols, e.source), RootAt(p, rank, cols, e.dest)),
                      UnionRank(rank, RootAt(p, rank, cols, e.source), RootAt(p, rank, cols, e.dest)),
                      tree + [e])
  {
    var s, d := e.source, e.dest;
    assert Shaped(g, rows, cols);
    assert Joinable(g, rows, cols, p, rank, |tree|, s, d);
    JoinedSetsConnected(g, rows, cols, p, rank, |tree|, s, d);
    JoinedLinksRespectSets(g, rows, cols, p, rank, |tree|, s, d);
    var a, b := RootAt(p, rank, cols, s), RootAt(p, rank, cols, d);
    var p', rank' := Union(p, a, b), UnionRank(rank, a, b);
    var tree' := tree + [e];
    ApplyOneMore(g0, tree, e);
    RootsAfterUnion(p, a, b);
    assert a in Roots(p);
    assert |Roots(p')| == rows * cols - |tree'|;
    RankStep(rank, a, b, |tree|);
    assert !Connected(g, s, d) by {
      if Connected(g, s, d) {
        ConnectedSameSet(g, cols, p, rank, s, d);
      }
    }
    AcyclicStep(g0, tree, e);
  }

  /** With rows * cols - 1 paths accepted, one set is left: x and y are connected. */
  lemma TreeDonePair(g0: Grid, g: Grid, rows: int, cols: int, p: seq<int>, rank: seq<nat>, tree: seq<LocationMap>,
                     x: Point2D, y: Point2D)
    requires TreeState(g0, g, rows, cols, p, rank, tree) && rows * cols >= 1 && |tree| == rows * cols - 1
    requires InGrid(g, x) && InGrid(g, y)
    ensures Connected(g, x, y)
  {
    GridIndexed(rows, cols);
    assert Inside(rows, cols, x) && Inside(rows, cols, y);
    OneRoot(p, rank, PointIndex(cols, x), PointIndex(cols, y));
  }

  /** With rows * cols - 1 paths accepted, every two cells are connected. */
  lemma TreeDone(g0: Grid, g: Grid, rows: int, cols: int, p: seq<int>, rank: seq<nat>, tree: seq<LocationMap>)
    requires TreeState(g0, g, rows, cols, p, rank, tree) && rows * cols >= 1 && |tree| == rows * cols - 1
    ensures forall x, y :: InGrid(g, x) && InGrid(g, y) ==> Connected(g, x, y)
  {
    forall x, y | InGrid(g, x) && InGrid(g, y) ensures Connected(g, x, y) {
      TreeDonePair(g0, g, rows, cols, p, rank, tree, x, y);
    }
  }

}
