/**
 * The disjoint sets behind the spanning-tree builder (DungeonGameImpl.java,
 * find and union1): an array of parent pointers, each set named by the root
 * reached by following them. A ghost rank, strictly increasing along every
 * parent pointer, shows that following the pointers ends.
 */
module Forests {

  /** p is a forest over 0..|p|-1 whose ranks grow towards the roots. */
  ghost predicate IsForest(p: seq<int>, rank: seq<nat>) {
    |rank| == |p|
    && (forall i :: 0 <= i < |p| ==> 0 <= p[i] < |p|)
    && (forall i :: 0 <= i < |rank| ==> rank[i] < |p|)
    && (forall i {:trigger rank[p[i]]} :: 0 <= i < |p| && p[i] != i ==> rank[i] < rank[p[i]])
  }

  /** find(i): the root reached from i. */
  function Root(p: seq<int>, rank: seq<nat>, i: int): (r: int)
    requires IsForest(p, rank) && 0 <= i < |p|
    ensures 0 <= r < |p| && p[r] == r
    decreases |p| - rank[i]
  {
    if p[i] == i then i else Root(p, rank, p[i])
  }

  /** The roots of the forest, one per set. */
  function Roots(p: seq<int>): set<int> {
    set i | 0 <= i < |p| && p[i] == i
  }

  /** The parent pointers after union1: the root a now points to the root b. */
  function Union(p: seq<int>, a: int, b: int): seq<int>
    requires 0 <= a < |p|
  {
    p[a := b]
  }

  /** The ranks after union1: b ranks above a. */
  function UnionRank(rank: seq<nat>, a: int, b: int): seq<nat>
    requires 0 <= a < |rank| && 0 <= b < |rank|
  {
    rank[b := if rank[b] > rank[a] then rank[b] else rank[a] + 1]
  }

  /** Joining two different roots keeps a forest, while the ranks stay below |p|. */
  lemma {:induction false} UnionForest(p: seq<int>, rank: seq<nat>, a: int, b: int)
    requires IsForest(p, rank) && 0 <= a < |p| && 0 <= b < |p|
    requires p[a] == a && p[b] == b && a != b && rank[a] + 1 < |p|
    ensures IsForest(Union(p, a, b), UnionRank(rank, a, b))
  {
    var p', rank' := Union(p, a, b), UnionRank(rank, a, b);
    forall i | 0 <= i < |p'| && p'[i] != i ensures rank'[i] < rank'[p'[i]] {
      if i != a {
        assert p'[i] == p[i] && i != b;
      }
    }
  }

  /** After joining root a to root b, everything that reached a reaches b; the rest is unchanged. */
  lemma {:induction false} RootAfterUnion(p: seq<int>, rank: seq<nat>, a: int, b: int, i: int)
    requires IsForest(p, rank) && 0 <= a < |p| && 0 <= b < |p|
    requires p[a] == a && p[b] == b && a != b && rank[a] + 1 < |p|
    requires 0 <= i < |p|
    ensures IsForest(Union(p, a, b), UnionRank(rank, a, b))
    ensures Root(Union(p, a, b), UnionRank(rank, a, b), i) ==
      (if Root(p, rank, i) == a then b else Root(p, rank, i))
    decreases |p| - rank[i]
  {
    UnionForest(p, rank, a, b);
    var p', rank' := Union(p, a, b), UnionRank(rank, a, b);
    if p[i] == i {
      if i == a {
        assert p'[a] == b && p'[b] == b;
        assert Root(p', rank', b) == b;
      } else {
        assert p'[i] == i;
      }
    } else {
      assert i != a && p'[i] == p[i];
      RootAfterUnion(p, rank, a, b, p[i]);
    }
  }

  /** The joined root a stops being a root; no other root changes. */
  lemma RootsAfterUnion(p: seq<int>, a: int, b: int)
    requires 0 <= a < |p| && 0 <= b < |p| && p[a] == a && a != b
    ensures Roots(Union(p, a, b)) == Roots(p) - {a}
  {
  }

  /** The pointers as the builder sets them up: every element its own root. */
  function Singletons(n: nat): (p: seq<int>)
    ensures |p| == n && forall i :: 0 <= i < n ==> p[i] == i
  {
    seq(n, i => i)
  }

  /** Ranks as the builder starts: all zero. */
  function Flat(n: nat): (rank: seq<nat>)
    ensures |rank| == n && forall i :: 0 <= i < n ==> rank[i] == 0
  {
    seq(n, _ => 0)
  }

  lemma {:induction false} SingletonRoots(n: nat)
    ensures |Roots(Singletons(n))| == n
  {
    if n > 0 {
      SingletonRoots(n - 1);
      var p, q := Singletons(n), Singletons(n - 1);
      assert Roots(p) == Roots(q) + {n - 1} by {
        forall i ensures i in Roots(p) <==> i in Roots(q) || i == n - 1 {
          if 0 <= i < n - 1 { assert p[i] == q[i]; }
        }
      }
      assert n - 1 !in Roots(q);
    }
  }

  /** n singletons make a forest with n sets, each element its own root. */
  lemma SingletonsForest(n: nat)
    ensures IsForest(Singletons(n), Flat(n))
    ensures |Roots(Singletons(n))| == n
    ensures forall i :: 0 <= i < n ==> Root(Singletons(n), Flat(n), i) == i
  {
    SingletonRoots(n);
  }

  /** With a single set left, every element reaches the same root. */
  lemma {:induction false} OneRoot(p: seq<int>, rank: seq<nat>, i: int, j: int)
    requires IsForest(p, rank) && |Roots(p)| == 1
    requires 0 <= i < |p| && 0 <= j < |p|
    ensures Root(p, rank, i) == Root(p, rank, j)
  {
    var ri, rj := Root(p, rank, i), Root(p, rank, j);
    assert ri in Roots(p) && rj in Roots(p);
    var others := Roots(p) - {ri};
    assert |others| == 0;
    assert rj !in others;
  }
}
