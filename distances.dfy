/**
 * The breadth-first search of DungeonGameImpl.java (findDistance), stated as
 * functions over the state of the search: the queue, the visited flags and
 * the distances, both arrays indexed by row * cols + col. The search method
 * of the dungeon is proved to compute exactly `Distance` below; the lemmas
 * here say what that number means.
 */
module Distances {
  import opened Points
  import opened Cells
  import opened Layout
  import opened Walks

  datatype Search = Search(queue: seq<Point2D>, visited: seq<bool>, distance: seq<int>)

  /** A rows x cols grid whose links all lead into the grid. */
  ghost predicate Board(g: Grid, rows: int, cols: int) {
    0 <= rows && 0 <= cols && Shaped(g, rows, cols) && Closed(g)
  }

  ghost predicate WellFormed(g: Grid, rows: int, cols: int, s: Search) {
    Board(g, rows, cols)
    && |s.visited| == rows * cols && |s.distance| == rows * cols
    && forall k :: 0 <= k < |s.queue| ==> InGrid(g, s.queue[k])
  }

  function CountFalse(v: seq<bool>): nat {
    if v == [] then 0 else (if v[0] then 0 else 1) + CountFalse(v[1..])
  }

  lemma {:induction false} CountFalseMark(v: seq<bool>, i: int)
    requires 0 <= i < |v| && !v[i]
    ensures CountFalse(v[i := true]) == CountFalse(v) - 1
  {
    if i > 0 {
      CountFalseMark(v[1..], i - 1);
      assert v[i := true][1..] == v[1..][i - 1 := true];
    }
  }

  lemma IndexOf(g: Grid, rows: int, cols: int, p: Point2D)
    requires Board(g, rows, cols) && InGrid(g, p)
    ensures 0 <= PointIndex(cols, p) < rows * cols
  {
    IndexInRange(rows, cols, p);
  }

  /** One link `next` of the dequeued cell u: an unvisited cell is marked, given u's distance plus one and queued. */
  function VisitOne(g: Grid, rows: int, cols: int, s: Search, u: Point2D, next: Point2D): (r: Search)
    requires WellFormed(g, rows, cols, s) && InGrid(g, u) && InGrid(g, next)
    ensures WellFormed(g, rows, cols, r)
    ensures |r.queue| >= |s.queue|
    ensures CountFalse(r.visited) + |r.queue| == CountFalse(s.visited) + |s.queue|
  {
    IndexOf(g, rows, cols, u);
    IndexOf(g, rows, cols, next);
    var i := PointIndex(cols, next);
    if s.visited[i] then s
    else
      CountFalseMark(s.visited, i);
      Search(s.queue + [next], s.visited[i := true], s.distance[i := s.distance[PointIndex(cols, u)] + 1])
  }

  /** The inner loop of findDistance over the links adj of the dequeued cell u. */
  function Visit(g: Grid, rows: int, cols: int, s: Search, u: Point2D, adj: seq<Point2D>): (r: Search)
    requires WellFormed(g, rows, cols, s) && InGrid(g, u)
    requires forall q :: q in adj ==> InGrid(g, q)
    ensures WellFormed(g, rows, cols, r)
    ensures |r.queue| >= |s.queue|
    ensures CountFalse(r.visited) + |r.queue| == CountFalse(s.visited) + |s.queue|
    decreases |adj|
  {
    if adj == [] then s
    else Visit(g, rows, cols, VisitOne(g, rows, cols, s, u, adj[0]), u, adj[1..])
  }

  /** One turn of the outer loop: dequeue a cell and visit its links. */
  function Expand(g: Grid, rows: int, cols: int, s: Search): (r: Search)
    requires WellFormed(g, rows, cols, s) && |s.queue| > 0
    ensures WellFormed(g, rows, cols, r)
    ensures CountFalse(r.visited) < CountFalse(s.visited)
      || (CountFalse(r.visited) == CountFalse(s.visited) && |r.queue| < |s.queue|)
  {
    var u := s.queue[0];
    Visit(g, rows, cols, Search(s.queue[1..], s.visited, s.distance), u, At(g, u).adjacency)
  }

  /** The outer loop, until the queue is empty. */
  function Run(g: Grid, rows: int, cols: int, s: Search): (r: Search)
    requires WellFormed(g, rows, cols, s)
    ensures WellFormed(g, rows, cols, r) && r.queue == []
    decreases CountFalse(s.visited), |s.queue|
  {
    if s.queue == [] then s else Run(g, rows, cols, Expand(g, rows, cols, s))
  }

  /** The search as it starts: only the source visited and queued, every distance 0. */
  function Start(g: Grid, rows: int, cols: int, src: Point2D): (s: Search)
    requires Board(g, rows, cols) && InGrid(g, src)
    ensures WellFormed(g, rows, cols, s)
  {
    IndexOf(g, rows, cols, src);
    var n := rows * cols;
    Search([src], seq(n, _ => false)[PointIndex(cols, src) := true], seq(n, _ => 0))
  }

  /** findDistance(src, dst): the distance the search has recorded for dst. */
  function Distance(g: Grid, rows: int, cols: int, src: Point2D, dst: Point2D): int
    requires Board(g, rows, cols) && InGrid(g, src) && InGrid(g, dst)
  {
    IndexOf(g, rows, cols, dst);
    Run(g, rows, cols, Start(g, rows, cols, src)).distance[PointIndex(cols, dst)]
  }

  // ---------------------------------------------------------------------------
  // What the search keeps true

  /** Whether the search has visited v (false for a cell outside the arrays). */
  function Vis(cols: int, s: Search, v: Point2D): bool {
    var i := PointIndex(cols, v);
    0 <= i < |s.visited| && s.visited[i]
  }

  /** The distance the search has recorded for v. */
  function Dist(cols: int, s: Search, v: Point2D): int {
    var i := PointIndex(cols, v);
    if 0 <= i < |s.distance| then s.distance[i] else 0
  }

  /**
   * The facts the search keeps while it is expanding u (or, with u outside
   * the grid, between two expansions): the source is visited at distance 0,
   * every visited cell has a walk from the source of its recorded length,
   * unvisited cells have distance 0, queued cells are visited, and every
   * visited cell that has left the queue, other than u, has all its links
   * visited.
   */
  ghost predicate Mid(g: Grid, rows: int, cols: int, src: Point2D, s: Search, u: Point2D) {
    WellFormed(g, rows, cols, s) && InGrid(g, src) && Indexed(rows, cols)
    && Vis(cols, s, src) && Dist(cols, s, src) == 0
    && (forall v :: InGrid(g, v) && Vis(cols, s, v) ==>
          Dist(cols, s, v) >= 0 && PathOfLength(g, src, v, Dist(cols, s, v)))
    && (forall v :: InGrid(g, v) && !Vis(cols, s, v) ==> Dist(cols, s, v) == 0)
    && (forall k :: 0 <= k < |s.queue| ==> Vis(cols, s, s.queue[k]))
    && (forall v :: InGrid(g, v) && Vis(cols, s, v) && v !in s.queue && v != u ==>
          forall w :: w in At(g, v).adjacency ==> Vis(cols, s, w))
  }

  /** What one link does to the flags and distances of each cell. */
  lemma {:induction false} VisitOneEffect(g: Grid, rows: int, cols: int, s: Search, u: Point2D, next: Point2D, v: Point2D)
    requires WellFormed(g, rows, cols, s) && Indexed(rows, cols) && InGrid(g, u) && InGrid(g, next) && InGrid(g, v)
    ensures Vis(cols, VisitOne(g, rows, cols, s, u, next), v) == (Vis(cols, s, v) || v == next)
    ensures Dist(cols, VisitOne(g, rows, cols, s, u, next), v) ==
      if v == next && !Vis(cols, s, next) then Dist(cols, s, u) + 1 else Dist(cols, s, v)
    ensures VisitOne(g, rows, cols, s, u, next).queue ==
      s.queue + (if Vis(cols, s, next) then [] else [next])
  {
    assert Inside(rows, cols, v) && Inside(rows, cols, next) && Inside(rows, cols, u);
    if PointIndex(cols, v) == PointIndex(cols, next) {
      assert v == next;
    }
  }

  /** A link to a cell already visited changes nothing. */
  lemma VisitOneSeen(g: Grid, rows: int, cols: int, s: Search, u: Point2D, next: Point2D)
    requires WellFormed(g, rows, cols, s) && Indexed(rows, cols) && InGrid(g, u) && InGrid(g, next)
    requires Vis(cols, s, next)
    ensures VisitOne(g, rows, cols, s, u, next) == s
  {
    IndexOf(g, rows, cols, next);
  }

  /** A link to a cell not yet visited: the cell is reached one step after u, and the facts still hold. */
  lemma {:induction false} VisitOneNew(g: Grid, rows: int, cols: int, src: Point2D, s: Search, u: Point2D, next: Point2D)
    requires Mid(g, rows, cols, src, s, u) && InGrid(g, u) && Vis(cols, s, u)
    requires next in At(g, u).adjacency && InGrid(g, next) && !Vis(cols, s, next)
    ensures Mid(g, rows, cols, src, VisitOne(g, rows, cols, s, u, next), u)
    ensures Vis(cols, VisitOne(g, rows, cols, s, u, next), next)
    ensures forall v :: InGrid(g, v) && Vis(cols, s, v) ==> Vis(cols, VisitOne(g, rows, cols, s, u, next), v)
  {
    var r := VisitOne(g, rows, cols, s, u, next);
    forall v | InGrid(g, v) {
      VisitOneEffect(g, rows, cols, s, u, next, v);
    }
    var du := Dist(cols, s, u);
    PathExtends(g, src, u, next, du);
    assert Dist(cols, r, next) == du + 1;
    assert forall k :: 0 <= k < |r.queue| ==> Vis(cols, r, r.queue[k]) by {
      forall k | 0 <= k < |r.queue| ensures Vis(cols, r, r.queue[k]) {
        if k < |s.queue| { assert r.queue[k] == s.queue[k]; }
      }
    }
    forall v | InGrid(g, v) && Vis(cols, r, v) && v !in r.queue && v != u
      ensures forall w :: w in At(g, v).adjacency ==> Vis(cols, r, w)
    {
      assert v in s.queue ==> v in r.queue;
      assert v != next;
      forall w | w in At(g, v).adjacency ensures Vis(cols, r, w) {
        assert InGrid(g, w);
      }
    }
  }

  lemma VisitOneKeeps(g: Grid, rows: int, cols: int, src: Point2D, s: Search, u: Point2D, next: Point2D)
    requires Mid(g, rows, cols, src, s, u) && InGrid(g, u) && Vis(cols, s, u)
    requires next in At(g, u).adjacency
    ensures InGrid(g, next)
    ensures Mid(g, rows, cols, src, VisitOne(g, rows, cols, s, u, next), u)
    ensures Vis(cols, VisitOne(g, rows, cols, s, u, next), next)
    ensures forall v :: InGrid(g, v) && Vis(cols, s, v) ==> Vis(cols, VisitOne(g, rows, cols, s, u, next), v)
  {
    if Vis(cols, s, next) {
      VisitOneSeen(g, rows, cols, s, u, next);
    } else {
      VisitOneNew(g, rows, cols, src, s, u, next);
    }
  }

  lemma {:induction false} VisitKeeps(g: Grid, rows: int, cols: int, src: Point2D, s: Search, u: Point2D, adj: seq<Point2D>)
    requires Mid(g, rows, cols, src, s, u) && InGrid(g, u) && Vis(cols, s, u)
    requires forall q :: q in adj ==> q in At(g, u).adjacency
    ensures forall q :: q in adj ==> InGrid(g, q)
    ensures Mid(g, rows, cols, src, Visit(g, rows, cols, s, u, adj), u)
    ensures forall q :: q in adj ==> Vis(cols, Visit(g, rows, cols, s, u, adj), q)
    ensures forall v :: InGrid(g, v) && Vis(cols, s, v) ==> Vis(cols, Visit(g, rows, cols, s, u, adj), v)
    decreases |adj|
  {
    if adj != [] {
      VisitOneKeeps(g, rows, cols, src, s, u, adj[0]);
      var s1 := VisitOne(g, rows, cols, s, u, adj[0]);
      VisitKeeps(g, rows, cols, src, s1, u, adj[1..]);
      assert forall q :: q in adj ==> q == adj[0] || q in adj[1..];
    }
  }

  /** Between two expansions: Mid for a u outside the grid. */
  ghost predicate Between(g: Grid, rows: int, cols: int, src: Point2D, s: Search) {
    Mid(g, rows, cols, src, s, Point2D(-1, -1))
  }

  /** Taking u off the queue: the facts hold while u is being expanded. */
  lemma {:induction false} DequeueKeeps(g: Grid, rows: int, cols: int, src: Point2D, s: Search)
    requires Between(g, rows, cols, src, s) && |s.queue| > 0
    ensures InGrid(g, s.queue[0]) && Vis(cols, s, s.queue[0])
    ensures Mid(g, rows, cols, src, Search(s.queue[1..], s.visited, s.distance), s.queue[0])
  {
    var u := s.queue[0];
    var s1 := Search(s.queue[1..], s.visited, s.distance);
    assert forall v :: v in s.queue <==> v == u || v in s1.queue by {
      assert s.queue == [u] + s1.queue;
    }
    assert forall v :: Vis(cols, s1, v) == Vis(cols, s, v) && Dist(cols, s1, v) == Dist(cols, s, v);
    assert forall k :: 0 <= k < |s1.queue| ==> s1.queue[k] == s.queue[k + 1];
    assert WellFormed(g, rows, cols, s1);
    forall v | InGrid(g, v) && Vis(cols, s1, v) && v !in s1.queue && v != u
      ensures forall w :: w in At(g, v).adjacency ==> Vis(cols, s1, w)
    {
      assert v !in s.queue;
    }
  }

  lemma {:induction false} ExpandKeeps(g: Grid, rows: int, cols: int, src: Point2D, s: Search)
    requires Between(g, rows, cols, src, s) && |s.queue| > 0
    ensures Between(g, rows, cols, src, Expand(g, rows, cols, s))
  {
    var u := s.queue[0];
    var s1 := Search(s.queue[1..], s.visited, s.distance);
    DequeueKeeps(g, rows, cols, src, s);
    VisitKeeps(g, rows, cols, src, s1, u, At(g, u).adjacency);
    var r := Expand(g, rows, cols, s);
    assert r == Visit(g, rows, cols, s1, u, At(g, u).adjacency);
    assert Mid(g, rows, cols, src, r, u);
    forall v | InGrid(g, v) && Vis(cols, r, v) && v !in r.queue && v != Point2D(-1, -1)
      ensures forall w :: w in At(g, v).adjacency ==> Vis(cols, r, w)
    {
    }
  }

  lemma {:induction false} RunKeeps(g: Grid, rows: int, cols: int, src: Point2D, s: Search)
    requires Between(g, rows, cols, src, s)
    ensures Between(g, rows, cols, src, Run(g, rows, cols, s))
    decreases CountFalse(s.visited), |s.queue|
  {
    if s.queue != [] {
      ExpandKeeps(g, rows, cols, src, s);
      RunKeeps(g, rows, cols, src, Expand(g, rows, cols, s));
    }
  }

  lemma {:induction false} StartHolds(g: Grid, rows: int, cols: int, src: Point2D)
    requires Board(g, rows, cols) && InGrid(g, src)
    ensures Between(g, rows, cols, src, Start(g, rows, cols, src))
  {
    GridIndexed(rows, cols);
    var s := Start(g, rows, cols, src);
    ConnectedToItself(g, src);
    IndexOf(g, rows, cols, src);
    forall v | InGrid(g, v) && Vis(cols, s, v)
      ensures Dist(cols, s, v) >= 0 && PathOfLength(g, src, v, Dist(cols, s, v))
    {
      assert Inside(rows, cols, v) && Inside(rows, cols, src);
      assert v == src;
    }
  }

  /** Once the queue is empty, every cell a walk from a visited cell reaches is visited. */
  lemma {:induction false} WalkStaysSeen(g: Grid, rows: int, cols: int, src: Point2D, s: Search, w: seq<Point2D>, k: nat)
    requires Between(g, rows, cols, src, s) && s.queue == []
    requires IsWalk(g, w) && k < |w| && Vis(cols, s, w[0])
    ensures Vis(cols, s, w[k])
  {
    if k > 0 {
      WalkStaysSeen(g, rows, cols, src, s, w, k - 1);
      assert w[k] in At(g, w[k - 1]).adjacency;
    }
  }

  // ---------------------------------------------------------------------------
  // The search visits cells in order of distance

  /** Every link of a cell the search has finished with (visited, off the queue, not u) is at most one step further. */
  ghost predicate Settled(g: Grid, cols: int, s: Search, u: Point2D) {
    forall v, w :: InGrid(g, v) && Vis(cols, s, v) && v !in s.queue && v != u && w in At(g, v).adjacency ==>
      Dist(cols, s, w) <= Dist(cols, s, v) + 1
  }

  /** The queue holds distances du and du + 1, in non-decreasing order. */
  ghost predicate QueueLayers(cols: int, s: Search, du: int) {
    (forall k :: 0 <= k < |s.queue| ==> du <= Dist(cols, s, s.queue[k]) <= du + 1)
    && (forall i, j :: 0 <= i < j < |s.queue| ==> Dist(cols, s, s.queue[i]) <= Dist(cols, s, s.queue[j]))
  }

  /** No visited cell is further than bound. */
  ghost predicate Within(g: Grid, cols: int, s: Search, bound: int) {
    forall v :: InGrid(g, v) && Vis(cols, s, v) ==> Dist(cols, s, v) <= bound
  }

  /** The layers while u is expanded. */
  ghost predicate Expanding(g: Grid, cols: int, s: Search, u: Point2D) {
    QueueLayers(cols, s, Dist(cols, s, u)) && Within(g, cols, s, Dist(cols, s, u) + 1) && Settled(g, cols, s, u)
  }

  /** The layers between two expansions: the queue spans two adjacent distances, the first of them at its head. */
  ghost predicate Frontier(g: Grid, cols: int, s: Search) {
    (forall i, j :: 0 <= i < j < |s.queue| ==>
       Dist(cols, s, s.queue[i]) <= Dist(cols, s, s.queue[j]) <= Dist(cols, s, s.queue[i]) + 1)
    && (|s.queue| > 0 ==> forall v :: InGrid(g, v) && Vis(cols, s, v) ==> Dist(cols, s, v) <= Dist(cols, s, s.queue[0]) + 1)
    && Settled(g, cols, s, Point2D(-1, -1))
  }

  lemma {:induction false} StartFrontier(g: Grid, rows: int, cols: int, src: Point2D)
    requires Board(g, rows, cols) && InGrid(g, src)
    ensures Frontier(g, cols, Start(g, rows, cols, src))
  {
    GridIndexed(rows, cols);
    var s := Start(g, rows, cols, src);
    IndexOf(g, rows, cols, src);
    forall v | InGrid(g, v) && Vis(cols, s, v) ensures v == src {
      assert Inside(rows, cols, v) && Inside(rows, cols, src);
    }
    assert s.queue == [src];
  }

  lemma {:induction false} DequeueFrontier(g: Grid, cols: int, s: Search)
    requires Frontier(g, cols, s) && |s.queue| > 0
    ensures Expanding(g, cols, Search(s.queue[1..], s.visited, s.distance), s.queue[0])
  {
    var u := s.queue[0];
    var s1 := Search(s.queue[1..], s.visited, s.distance);
    assert forall v :: Vis(cols, s1, v) == Vis(cols, s, v) && Dist(cols, s1, v) == Dist(cols, s, v);
    assert forall k :: 0 <= k < |s1.queue| ==> s1.queue[k] == s.queue[k + 1];
    forall v | v !in s1.queue && v != u ensures v !in s.queue {
      assert s.queue == [u] + s1.queue;
    }
  }

  /** The facts about a first visit of next from u that the layer lemmas use. */
  ghost predicate FirstVisit(g: Grid, rows: int, cols: int, s: Search, u: Point2D, next: Point2D) {
    WellFormed(g, rows, cols, s) && Indexed(rows, cols) && InGrid(g, u) && Vis(cols, s, u)
    && InGrid(g, next) && !Vis(cols, s, next)
    && forall k :: 0 <= k < |s.queue| ==> Vis(cols, s, s.queue[k])
  }

  lemma {:induction false} VisitOneQueue(g: Grid, rows: int, cols: int, s: Search, u: Point2D, next: Point2D)
    requires FirstVisit(g, rows, cols, s, u, next) && QueueLayers(cols, s, Dist(cols, s, u))
    ensures Dist(cols, VisitOne(g, rows, cols, s, u, next), u) == Dist(cols, s, u)
    ensures QueueLayers(cols, VisitOne(g, rows, cols, s, u, next), Dist(cols, s, u))
  {
    var r := VisitOne(g, rows, cols, s, u, next);
    var du := Dist(cols, s, u);
    VisitOneEffect(g, rows, cols, s, u, next, u);
    VisitOneEffect(g, rows, cols, s, u, next, next);
    assert r.queue == s.queue + [next];
    forall k | 0 <= k < |s.queue| ensures r.queue[k] == s.queue[k] && Dist(cols, r, r.queue[k]) == Dist(cols, s, s.queue[k]) {
      VisitOneEffect(g, rows, cols, s, u, next, s.queue[k]);
    }
    assert Dist(cols, r, r.queue[|s.queue|]) == du + 1;
  }

  lemma {:induction false} VisitOneWithin(g: Grid, rows: int, cols: int, s: Search, u: Point2D, next: Point2D)
    requires FirstVisit(g, rows, cols, s, u, next) && Within(g, cols, s, Dist(cols, s, u) + 1)
    ensures Within(g, cols, VisitOne(g, rows, cols, s, u, next), Dist(cols, s, u) + 1)
  {
    var r := VisitOne(g, rows, cols, s, u, next);
    forall v | InGrid(g, v) && Vis(cols, r, v) ensures Dist(cols, r, v) <= Dist(cols, s, u) + 1 {
      VisitOneEffect(g, rows, cols, s, u, next, v);
    }
  }

  lemma {:induction false} VisitOneSettled(g: Grid, rows: int, cols: int, s: Search, u: Point2D, next: Point2D)
    requires FirstVisit(g, rows, cols, s, u, next) && Settled(g, cols, s, u)
    requires forall v :: InGrid(g, v) && Vis(cols, s, v) && v !in s.queue && v != u ==>
               forall w :: w in At(g, v).adjacency ==> Vis(cols, s, w)
    ensures Settled(g, cols, VisitOne(g, rows, cols, s, u, next), u)
  {
    var r := VisitOne(g, rows, cols, s, u, next);
    VisitOneEffect(g, rows, cols, s, u, next, u);
    assert r.queue == s.queue + [next];
    forall v, w | InGrid(g, v) && Vis(cols, r, v) && v !in r.queue && v != u && w in At(g, v).adjacency
      ensures Dist(cols, r, w) <= Dist(cols, r, v) + 1
    {
      VisitOneEffect(g, rows, cols, s, u, next, v);
      assert v != next && v !in s.queue;
      assert InGrid(g, w) && Vis(cols, s, w);
      VisitOneEffect(g, rows, cols, s, u, next, w);
    }
  }

  /** A link to a cell not yet visited puts it at the back of the queue, one layer below u. */
  lemma {:induction false} VisitOneFrontierNew(g: Grid, rows: int, cols: int, s: Search, u: Point2D, next: Point2D)
    requires FirstVisit(g, rows, cols, s, u, next) && Expanding(g, cols, s, u)
    requires forall v :: InGrid(g, v) && Vis(cols, s, v) && v !in s.queue && v != u ==>
               forall w :: w in At(g, v).adjacency ==> Vis(cols, s, w)
    ensures Expanding(g, cols, VisitOne(g, rows, cols, s, u, next), u)
  {
    VisitOneQueue(g, rows, cols, s, u, next);
    VisitOneWithin(g, rows, cols, s, u, next);
    VisitOneSettled(g, rows, cols, s, u, next);
  }

  lemma {:induction false} VisitFrontier(g: Grid, rows: int, cols: int, src: Point2D, s: Search, u: Point2D, adj: seq<Point2D>)
    requires Mid(g, rows, cols, src, s, u) && InGrid(g, u) && Vis(cols, s, u) && Expanding(g, cols, s, u)
    requires forall q :: q in adj ==> q in At(g, u).adjacency
    ensures Expanding(g, cols, Visit(g, rows, cols, s, u, adj), u)
    decreases |adj|
  {
    if adj != [] {
      VisitOneKeeps(g, rows, cols, src, s, u, adj[0]);
      if !Vis(cols, s, adj[0]) {
        VisitOneFrontierNew(g, rows, cols, s, u, adj[0]);
      } else {
        VisitOneSeen(g, rows, cols, s, u, adj[0]);
      }
      VisitFrontier(g, rows, cols, src, VisitOne(g, rows, cols, s, u, adj[0]), u, adj[1..]);
    }
  }

  /** When every link of u is visited, u is settled, and the queue's head is a layer no earlier than u's. */
  lemma {:induction false} SettleExpanded(g: Grid, cols: int, r: Search, u: Point2D)
    requires Expanding(g, cols, r, u) && InGrid(g, u) && Closed(g)
    requires forall w :: w in At(g, u).adjacency ==> Vis(cols, r, w)
    ensures Frontier(g, cols, r)
  {
    forall v, w | InGrid(g, v) && Vis(cols, r, v) && v !in r.queue && v != Point2D(-1, -1) && w in At(g, v).adjacency
      ensures Dist(cols, r, w) <= Dist(cols, r, v) + 1
    {
      if v == u {
        assert InGrid(g, w) && Vis(cols, r, w);
      }
    }
  }

  lemma {:induction false} ExpandFrontier(g: Grid, rows: int, cols: int, src: Point2D, s: Search)
    requires Between(g, rows, cols, src, s) && Frontier(g, cols, s) && |s.queue| > 0
    ensures Frontier(g, cols, Expand(g, rows, cols, s))
  {
    var u := s.queue[0];
    var s1 := Search(s.queue[1..], s.visited, s.distance);
    DequeueKeeps(g, rows, cols, src, s);
    DequeueFrontier(g, cols, s);
    VisitKeeps(g, rows, cols, src, s1, u, At(g, u).adjacency);
    VisitFrontier(g, rows, cols, src, s1, u, At(g, u).adjacency);
    SettleExpanded(g, cols, Expand(g, rows, cols, s), u);
  }

  lemma {:induction false} RunFrontier(g: Grid, rows: int, cols: int, src: Point2D, s: Search)
    requires Between(g, rows, cols, src, s) && Frontier(g, cols, s)
    ensures Frontier(g, cols, Run(g, rows, cols, s))
    decreases CountFalse(s.visited), |s.queue|
  {
    if s.queue != [] {
      ExpandKeeps(g, rows, cols, src, s);
      ExpandFrontier(g, rows, cols, src, s);
      RunFrontier(g, rows, cols, src, Expand(g, rows, cols, s));
    }
  }

  /** Once the queue is empty, the k-th cell of a walk from the source is visited at distance at most k. */
  lemma {:induction false} WalkBound(g: Grid, rows: int, cols: int, src: Point2D, s: Search, w: seq<Point2D>, k: nat)
    requires Between(g, rows, cols, src, s) && Frontier(g, cols, s) && s.queue == []
    requires IsWalk(g, w) && w[0] == src && k < |w|
    ensures Vis(cols, s, w[k]) && Dist(cols, s, w[k]) <= k
  {
    if k > 0 {
      WalkBound(g, rows, cols, src, s, w, k - 1);
      assert w[k] in At(g, w[k - 1]).adjacency && InGrid(g, w[k - 1]);
    }
  }

  /** findDistance never exceeds the length of any walk between the two cells. */
  lemma DistanceAtMost(g: Grid, rows: int, cols: int, src: Point2D, dst: Point2D, n: nat)
    requires Board(g, rows, cols) && InGrid(g, src) && InGrid(g, dst) && PathOfLength(g, src, dst, n)
    ensures Distance(g, rows, cols, src, dst) <= n
  {
    StartHolds(g, rows, cols, src);
    StartFrontier(g, rows, cols, src);
    RunKeeps(g, rows, cols, src, Start(g, rows, cols, src));
    RunFrontier(g, rows, cols, src, Start(g, rows, cols, src));
    var s := Run(g, rows, cols, Start(g, rows, cols, src));
    IndexOf(g, rows, cols, dst);
    var w :| IsWalk(g, w) && |w| == n + 1 && w[0] == src && w[n] == dst;
    WalkBound(g, rows, cols, src, s, w, n);
  }

  /**
   * What findDistance returns: never negative; a positive distance d means the
   * cells differ and a walk of d steps joins them, and no walk is shorter;
   * zero means the same cell or no walk at all.
   */
  lemma {:induction false} DistanceMeaning(g: Grid, rows: int, cols: int, src: Point2D, dst: Point2D)
    requires Board(g, rows, cols) && InGrid(g, src) && InGrid(g, dst)
    ensures Distance(g, rows, cols, src, dst) >= 0
    ensures Distance(g, rows, cols, src, dst) > 0 ==>
      src != dst && PathOfLength(g, src, dst, Distance(g, rows, cols, src, dst))
    ensures Distance(g, rows, cols, src, dst) == 0 <==> (src == dst || !Connected(g, src, dst))
    ensures forall n: nat :: PathOfLength(g, src, dst, n) ==> Distance(g, rows, cols, src, dst) <= n
  {
    forall n: nat | PathOfLength(g, src, dst, n) ensures Distance(g, rows, cols, src, dst) <= n {
      DistanceAtMost(g, rows, cols, src, dst, n);
    }
    StartHolds(g, rows, cols, src);
    RunKeeps(g, rows, cols, src, Start(g, rows, cols, src));
    var s := Run(g, rows, cols, Start(g, rows, cols, src));
    var d := Distance(g, rows, cols, src, dst);
    IndexOf(g, rows, cols, dst);
    assert d == Dist(cols, s, dst);
    if Vis(cols, s, dst) {
      assert PathOfLength(g, src, dst, d);
      PathIsConnection(g, src, dst, d);
      if d == 0 { PathOfNoSteps(g, src, dst); }
    } else {
      if Connected(g, src, dst) {
        var w :| IsWalk(g, w) && w[0] == src && w[|w| - 1] == dst;
        WalkStaysSeen(g, rows, cols, src, s, w, |w| - 1);
      }
      assert src != dst;
    }
  }

  // ---------------------------------------------------------------------------
  // The search only looks at the links

  lemma SameLinksBoard(g: Grid, h: Grid, rows: int, cols: int)
    requires SameLinks(g, h) && Board(g, rows, cols)
    ensures Board(h, rows, cols) && forall p :: InGrid(g, p) <==> InGrid(h, p)
  {
    assert forall p :: InGrid(g, p) <==> InGrid(h, p);
    forall p, q | InGrid(h, p) && q in At(h, p).adjacency ensures InGrid(h, q) {
      assert q in At(g, p).adjacency;
      assert InGrid(g, q);
    }
  }

  lemma {:induction false} VisitSameLinks(g: Grid, h: Grid, rows: int, cols: int, s: Search, u: Point2D, adj: seq<Point2D>)
    requires SameLinks(g, h) && WellFormed(g, rows, cols, s) && WellFormed(h, rows, cols, s)
    requires InGrid(g, u) && InGrid(h, u)
    requires forall q :: q in adj ==> InGrid(g, q) && InGrid(h, q)
    ensures Visit(g, rows, cols, s, u, adj) == Visit(h, rows, cols, s, u, adj)
    decreases |adj|
  {
    if adj != [] {
      var s' := VisitOne(g, rows, cols, s, u, adj[0]);
      assert s' == VisitOne(h, rows, cols, s, u, adj[0]);
      assert WellFormed(h, rows, cols, s');
      VisitSameLinks(g, h, rows, cols, s', u, adj[1..]);
    }
  }

  lemma {:induction false} RunSameLinks(g: Grid, h: Grid, rows: int, cols: int, s: Search)
    requires SameLinks(g, h) && WellFormed(g, rows, cols, s)
    ensures WellFormed(h, rows, cols, s) && Run(g, rows, cols, s) == Run(h, rows, cols, s)
    decreases CountFalse(s.visited), |s.queue|
  {
    SameLinksBoard(g, h, rows, cols);
    if s.queue != [] {
      var u := s.queue[0];
      var s0 := Search(s.queue[1..], s.visited, s.distance);
      assert WellFormed(g, rows, cols, s0) && WellFormed(h, rows, cols, s0);
      VisitSameLinks(g, h, rows, cols, s0, u, At(g, u).adjacency);
      RunSameLinks(g, h, rows, cols, Expand(g, rows, cols, s));
    }
  }

  /** Two grids with the same links give the same distances. */
  lemma DistanceSameLinks(g: Grid, h: Grid, rows: int, cols: int, src: Point2D, dst: Point2D)
    requires SameLinks(g, h) && Board(g, rows, cols) && InGrid(g, src) && InGrid(g, dst)
    ensures Board(h, rows, cols) && InGrid(h, src) && InGrid(h, dst)
    ensures Distance(g, rows, cols, src, dst) == Distance(h, rows, cols, src, dst)
  {
    SameLinksBoard(g, h, rows, cols);
    assert Start(g, rows, cols, src) == Start(h, rows, cols, src);
    RunSameLinks(g, h, rows, cols, Start(g, rows, cols, src));
  }
}
