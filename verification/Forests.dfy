/**
  Containment forests. Both the plan (nodes and scaling groups) and the deployment
  (node instances and group instances) are forests in which each element has at most one
  container. A forest is the map from each contained element to its container.
*/
module Forests {

  /** A rank that drops at each step towards the root. */
  ghost predicate Ranked<T(!new)>(parent: map<T, T>, rank: map<T, nat>) {
    forall x | x in parent :: x in rank && parent[x] in rank && rank[parent[x]] < rank[x]
  }

  /** Containment never loops. */
  ghost predicate Acyclic<T(!new)>(parent: map<T, T>) {
    exists rank: map<T, nat> :: Ranked(parent, rank)
  }

  /** Some rank of `x`: a bound on the number of containers above it. */
  ghost function Rank<T(!new)>(parent: map<T, T>, x: T): (n: nat)
    requires Acyclic(parent)
  {
    var rank: map<T, nat> :| Ranked(parent, rank);
    if x in rank then rank[x] else 0
  }

  lemma RankDrops<T(!new)>(parent: map<T, T>, x: T)
    requires Acyclic(parent) && x in parent
    ensures Rank(parent, parent[x]) < Rank(parent, x)
  {
  }

  /** The containers of `x`, innermost first. */
  function Chain<T(!new, ==)>(parent: map<T, T>, x: T): (c: seq<T>)
    requires Acyclic(parent)
    decreases Rank(parent, x)
  {
    if x in parent then
      RankDrops(parent, x);
      [parent[x]] + Chain(parent, parent[x])
    else
      []
  }

  /** `x` and its containers: everything that walking up from `x` visits. */
  function Path<T(!new, ==)>(parent: map<T, T>, x: T): (c: seq<T>)
    requires Acyclic(parent)
    ensures c != [] && c[0] == x
  {
    [x] + Chain(parent, x)
  }

  /** What lies above a container of `x` is the rest of the chain of `x`. */
  lemma {:induction false} ChainSuffix<T(!new)>(parent: map<T, T>, x: T, k: nat)
    requires Acyclic(parent) && k < |Chain(parent, x)|
    ensures Chain(parent, x)[k + 1..] == Chain(parent, Chain(parent, x)[k])
    decreases k
  {
    if k > 0 {
      ChainSuffix(parent, parent[x], k - 1);
      assert Chain(parent, x)[k + 1..] == Chain(parent, parent[x])[k..];
    }
  }

  lemma {:induction false} ChainTransitive<T(!new)>(parent: map<T, T>, x: T, y: T, z: T)
    requires Acyclic(parent) && y in Chain(parent, x) && z in Chain(parent, y)
    ensures z in Chain(parent, x)
  {
    var k :| 0 <= k < |Chain(parent, x)| && Chain(parent, x)[k] == y;
    ChainSuffix(parent, x, k);
  }

  lemma {:induction false} ChainRanks<T(!new)>(parent: map<T, T>, x: T, y: T)
    requires Acyclic(parent) && y in Chain(parent, x)
    ensures Rank(parent, y) < Rank(parent, x)
    ensures y != x
    decreases Rank(parent, x)
  {
    RankDrops(parent, x);
    if y != parent[x] {
      ChainRanks(parent, parent[x], y);
    }
  }

  /** No container occurs twice on the way up. */
  lemma {:induction false} ChainDistinct<T(!new)>(parent: map<T, T>, x: T, i: nat, j: nat)
    requires Acyclic(parent) && i < j < |Chain(parent, x)|
    ensures Chain(parent, x)[i] != Chain(parent, x)[j]
  {
    var c := Chain(parent, x);
    ChainSuffix(parent, x, i);
    assert c[j] == c[i + 1..][j - i - 1];
    ChainRanks(parent, c[i], c[j]);
  }

  /** Two containers of the same element: one contains the other. */
  lemma {:induction false} ChainComparable<T(!new)>(parent: map<T, T>, x: T, y: T, z: T)
    requires Acyclic(parent) && y in Chain(parent, x) && z in Chain(parent, x)
    ensures y == z || y in Chain(parent, z) || z in Chain(parent, y)
  {
    var c := Chain(parent, x);
    var i :| 0 <= i < |c| && c[i] == y;
    var j :| 0 <= j < |c| && c[j] == z;
    if i < j {
      ChainSuffix(parent, x, i);
      assert c[j] == c[i + 1..][j - i - 1];
    } else if j < i {
      ChainSuffix(parent, x, j);
      assert c[i] == c[j + 1..][i - j - 1];
    }
  }

  /** Only containers of something are found on a chain. */
  lemma {:induction false} ChainWithin<T(!new)>(parent: map<T, T>, x: T, y: T)
    requires Acyclic(parent) && y in Chain(parent, x)
    ensures x in parent && y in parent.Values
    decreases Rank(parent, x)
  {
    RankDrops(parent, x);
    if y != parent[x] {
      ChainWithin(parent, parent[x], y);
    }
  }

  /** The elements of `all` contained, directly or not, in `x`, and `x` itself. */
  ghost function Subtree<T(!new)>(all: set<T>, parent: map<T, T>, x: T): (s: set<T>)
    requires Acyclic(parent)
  {
    set y | y in all && (y == x || x in Chain(parent, y))
  }

  /** A child's subtree is a proper part of the subtree of its container. */
  lemma {:induction false} SubtreeShrinks<T(!new)>(all: set<T>, parent: map<T, T>, x: T)
    requires Acyclic(parent) && x in parent && parent[x] in all
    ensures Subtree(all, parent, x) < Subtree(all, parent, parent[x])
  {
    var p := parent[x];
    forall y | y in Subtree(all, parent, x)
      ensures y in Subtree(all, parent, p) && y != p
    {
      if y != x {
        ChainTransitive(parent, y, x, p);
        ChainRanks(parent, y, x);
      }
      RankDrops(parent, x);
    }
    assert p in Subtree(all, parent, p);
  }
}
