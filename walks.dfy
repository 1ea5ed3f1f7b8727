/**
 * Walks through the links of a grid of cells, and the two-way linking of a
 * path into both of its end cells that the dungeon builder performs
 * (DungeonGameImpl.java, buildMst and incorporateInterConnectivity).
 */
module Walks {
  import opened Points
  import opened LocationMaps
  import opened Cells

  /** A walk: a non-empty sequence of cells, each linked to the next. */
  ghost predicate IsWalk(g: Grid, w: seq<Point2D>) {
    |w| >= 1
    && (forall k :: 0 <= k < |w| ==> InGrid(g, w[k]))
    && (forall k :: 0 <= k < |w| - 1 ==> w[k + 1] in At(g, w[k]).adjacency)
  }

  ghost predicate Connected(g: Grid, p: Point2D, q: Point2D) {
    exists w :: IsWalk(g, w) && w[0] == p && w[|w| - 1] == q
  }

  /** There is a walk of n steps from p to q. */
  ghost predicate PathOfLength(g: Grid, p: Point2D, q: Point2D, n: nat) {
    exists w :: IsWalk(g, w) && |w| == n + 1 && w[0] == p && w[n] == q
  }

  lemma PathIsConnection(g: Grid, p: Point2D, q: Point2D, n: nat)
    requires PathOfLength(g, p, q, n)
    ensures Connected(g, p, q)
  {
  }

  /** A walk without steps stays where it started. */
  lemma PathOfNoSteps(g: Grid, p: Point2D, q: Point2D)
    requires PathOfLength(g, p, q, 0)
    ensures p == q
  {
  }

  lemma ConnectedToItself(g: Grid, p: Point2D)
    requires InGrid(g, p)
    ensures Connected(g, p, p) && PathOfLength(g, p, p, 0)
  {
    assert IsWalk(g, [p]);
  }

  /** One more link at the end of a walk gives a walk one step longer. */
  lemma {:induction false} PathExtends(g: Grid, p: Point2D, u: Point2D, v: Point2D, n: nat)
    requires PathOfLength(g, p, u, n) && InGrid(g, u) && InGrid(g, v) && v in At(g, u).adjacency
    ensures PathOfLength(g, p, v, n + 1)
  {
    var w :| IsWalk(g, w) && |w| == n + 1 && w[0] == p && w[n] == u;
    var w' := w + [v];
    assert IsWalk(g, w');
  }

  lemma {:induction false} ConnectedByLink(g: Grid, p: Point2D, q: Point2D)
    requires InGrid(g, p) && InGrid(g, q) && q in At(g, p).adjacency
    ensures Connected(g, p, q)
  {
    assert IsWalk(g, [p, q]);
  }

  lemma {:induction false} ConnectedTransitive(g: Grid, p: Point2D, q: Point2D, r: Point2D)
    requires Connected(g, p, q) && Connected(g, q, r)
    ensures Connected(g, p, r)
  {
    var w1 :| IsWalk(g, w1) && w1[0] == p && w1[|w1| - 1] == q;
    var w2 :| IsWalk(g, w2) && w2[0] == q && w2[|w2| - 1] == r;
    var w := w1 + w2[1..];
    assert forall k :: |w1| <= k < |w| ==> w[k] == w2[k - |w1| + 1];
    assert forall k :: 0 <= k < |w| - 1 ==> w[k + 1] in At(g, w[k]).adjacency by {
      forall k | 0 <= k < |w| - 1 ensures w[k + 1] in At(g, w[k]).adjacency {
        if k < |w1| - 1 {
        } else {
          assert w[k] == w2[k - |w1| + 1];
        }
      }
    }
    assert IsWalk(g, w);
  }

  /** h has the cells of g and at least their links. */
  ghost predicate Grows(g: Grid, h: Grid) {
    (forall p :: InGrid(g, p) <==> InGrid(h, p))
    && forall p, q :: InGrid(g, p) && q in At(g, p).adjacency ==> q in At(h, p).adjacency
  }

  lemma {:induction false} ConnectedGrows(g: Grid, h: Grid, p: Point2D, q: Point2D)
    requires Grows(g, h) && Connected(g, p, q)
    ensures Connected(h, p, q)
  {
    var w :| IsWalk(g, w) && w[0] == p && w[|w| - 1] == q;
    assert IsWalk(h, w);
  }

  lemma {:induction false} PathGrows(g: Grid, h: Grid, p: Point2D, q: Point2D, n: nat)
    requires Grows(g, h) && PathOfLength(g, p, q, n)
    ensures PathOfLength(h, p, q, n)
  {
    var w :| IsWalk(g, w) && |w| == n + 1 && w[0] == p && w[n] == q;
    assert IsWalk(h, w);
  }

  /** Links are two-way and lead into the grid. */
  ghost predicate Symmetric(g: Grid) {
    forall p, q :: InGrid(g, p) && q in At(g, p).adjacency ==> InGrid(g, q) && p in At(g, q).adjacency
  }

  /** Walking back along a two-way walk. */
  lemma {:induction false} WalkBack(g: Grid, w: seq<Point2D>)
    requires Symmetric(g) && IsWalk(g, w)
    ensures Connected(g, w[|w| - 1], w[0])
    decreases |w|
  {
    if |w| == 1 {
      ConnectedToItself(g, w[0]);
    } else {
      var rest := w[1..];
      assert IsWalk(g, rest) by {
        forall k | 0 <= k < |rest| - 1 ensures rest[k + 1] in At(g, rest[k]).adjacency {
          assert rest[k] == w[k + 1] && rest[k + 1] == w[k + 2];
        }
      }
      WalkBack(g, rest);
      assert w[1] in At(g, w[0]).adjacency;
      ConnectedByLink(g, w[1], w[0]);
      ConnectedTransitive(g, w[|w| - 1], w[1], w[0]);
    }
  }

  lemma {:induction false} ConnectedBack(g: Grid, p: Point2D, q: Point2D)
    requires Symmetric(g) && Connected(g, p, q)
    ensures Connected(g, q, p)
  {
    var w :| IsWalk(g, w) && w[0] == p && w[|w| - 1] == q;
    WalkBack(g, w);
  }

  /**
   * Path source-dest linked into both end cells: the source cell gets dest
   * appended to its links, then the dest cell gets source appended (both land
   * in the same cell when the path is a loop).
   */
  function Link(g: Grid, a: Point2D, b: Point2D): (h: Grid)
    requires InGrid(g, a) && InGrid(g, b)
    ensures |h| == |g| && forall i :: 0 <= i < |g| ==> |h[i]| == |g[i]|
    ensures forall p {:trigger At(h, p)} :: InGrid(g, p) ==>
      At(h, p) == At(g, p).(adjacency := At(g, p).adjacency + (if p == a then [b] else []) + (if p == b then [a] else []))
  {
    var g1 := Put(g, a, UpdateAdjacencies(At(g, a), b));
    Put(g1, b, UpdateAdjacencies(At(g1, b), a))
  }

  /** The links of a cell after Link: its old ones and the new one. */
  lemma LinkLinks(g: Grid, a: Point2D, b: Point2D, p: Point2D, q: Point2D)
    requires InGrid(g, a) && InGrid(g, b) && InGrid(g, p)
    ensures q in At(Link(g, a, b), p).adjacency <==>
      q in At(g, p).adjacency || (p == a && q == b) || (p == b && q == a)
  {
  }

  lemma {:induction false} LinkGrows(g: Grid, a: Point2D, b: Point2D)
    requires InGrid(g, a) && InGrid(g, b)
    ensures Grows(g, Link(g, a, b))
    ensures Connected(Link(g, a, b), a, b) && Connected(Link(g, a, b), b, a)
  {
    var h := Link(g, a, b);
    forall p, q | InGrid(g, p) && q in At(g, p).adjacency ensures q in At(h, p).adjacency {
      LinkLinks(g, a, b, p, q);
    }
    LinkLinks(g, a, b, a, b);
    LinkLinks(g, a, b, b, a);
    ConnectedByLink(h, a, b);
    ConnectedByLink(h, b, a);
  }

  lemma {:induction false} LinkSymmetric(g: Grid, a: Point2D, b: Point2D)
    requires InGrid(g, a) && InGrid(g, b) && Symmetric(g)
    ensures Symmetric(Link(g, a, b))
  {
    var h := Link(g, a, b);
    forall p, q | InGrid(h, p) && q in At(h, p).adjacency ensures InGrid(h, q) && p in At(h, q).adjacency {
      LinkLinks(g, a, b, p, q);
      if q in At(g, p).adjacency {
        LinkLinks(g, a, b, q, p);
      } else {
        LinkLinks(g, a, b, q, p);
      }
    }
  }

  ghost predicate EdgesIn(g: Grid, es: seq<LocationMap>) {
    forall k {:trigger InGrid(g, es[k].source)} :: 0 <= k < |es| ==> InGrid(g, es[k].source) && InGrid(g, es[k].dest)
  }

  /** The grid after linking the paths es, in order. */
  function ApplyEdges(g: Grid, es: seq<LocationMap>): (h: Grid)
    requires EdgesIn(g, es)
    ensures |h| == |g| && forall i :: 0 <= i < |g| ==> |h[i]| == |g[i]|
    ensures forall p :: InGrid(h, p) <==> InGrid(g, p)
    decreases |es|
  {
    if es == [] then g
    else
      var e := es[|es| - 1];
      Link(ApplyEdges(g, es[..|es| - 1]), e.source, e.dest)
  }

  lemma ApplyOneMore(g: Grid, es: seq<LocationMap>, e: LocationMap)
    requires EdgesIn(g, es) && InGrid(g, e.source) && InGrid(g, e.dest)
    ensures EdgesIn(g, es + [e])
    ensures ApplyEdges(g, es + [e]) == Link(ApplyEdges(g, es), e.source, e.dest)
  {
    assert (es + [e])[..|es|] == es;
  }

  /** The links of a cell are the same as the links of another grid with the same adjacency. */
  ghost predicate SameLinks(g: Grid, h: Grid) {
    |g| == |h| && (forall i :: 0 <= i < |g| ==> |g[i]| == |h[i]|)
    && forall p :: InGrid(g, p) ==> At(g, p).adjacency == At(h, p).adjacency
  }

  /** Walks only look at the links. */
  lemma {:induction false} ConnectedSameLinks(g: Grid, h: Grid, p: Point2D, q: Point2D)
    requires SameLinks(g, h)
    ensures Connected(g, p, q) <==> Connected(h, p, q)
    ensures forall n: nat :: PathOfLength(g, p, q, n) <==> PathOfLength(h, p, q, n)
  {
    assert Grows(g, h) && Grows(h, g);
    if Connected(g, p, q) { ConnectedGrows(g, h, p, q); }
    if Connected(h, p, q) { ConnectedGrows(h, g, p, q); }
    forall n: nat ensures PathOfLength(g, p, q, n) <==> PathOfLength(h, p, q, n) {
      if PathOfLength(g, p, q, n) { PathGrows(g, h, p, q, n); }
      if PathOfLength(h, p, q, n) { PathGrows(h, g, p, q, n); }
    }
  }

  /** Grows is transitive. */
  lemma GrowsTransitive(f: Grid, g: Grid, h: Grid)
    requires Grows(f, g) && Grows(g, h)
    ensures Grows(f, h)
  {
  }

  /**
   * Linking more paths keeps every link and every connection, and keeps the
   * links two-way.
   */
  lemma {:induction false} ApplyEdgesGrows(g: Grid, es: seq<LocationMap>)
    requires EdgesIn(g, es)
    ensures Grows(g, ApplyEdges(g, es))
    ensures Symmetric(g) ==> Symmetric(ApplyEdges(g, es))
    decreases |es|
  {
    if es != [] {
      var front, e := es[..|es| - 1], es[|es| - 1];
      assert EdgesIn(g, front) by {
        forall k | 0 <= k < |front| ensures InGrid(g, front[k].source) && InGrid(g, front[k].dest) {
          assert front[k] == es[k];
        }
      }
      ApplyEdgesGrows(g, front);
      var h := ApplyEdges(g, front);
      LinkGrows(h, e.source, e.dest);
      GrowsTransitive(g, h, Link(h, e.source, e.dest));
      if Symmetric(g) {
        LinkSymmetric(h, e.source, e.dest);
      }
    }
  }
}
