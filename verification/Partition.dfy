/**
  Which instances of two plan nodes belong together: those in the same instance of the lowest
  group that contains both nodes.
*/
module Partition {
  import opened Names
  import opened Forests
  import opened Growth
  import opened Deployments

  /** The instances of a fresh deployment. */
  ghost predicate Grown(w: World, s: Inst) {
    ValidPlan(w) && FreshWorld(w) && Sound(w, s) && Complete(w, s) && Acyclic(s.cont)
  }

  /** The containers of an instance instantiate the containers of its plan node, in order. */
  lemma {:induction false} ChainNames(w: World, s: Inst, i: Id)
    requires ValidPlan(w) && WellPlaced(w, s) && Acyclic(s.cont) && i in s.node
    ensures |Chain(s.cont, i)| == |Chain(w.parent, s.node[i])|
    ensures forall k :: 0 <= k < |Chain(s.cont, i)| ==>
              Chain(s.cont, i)[k] in s.node && s.node[Chain(s.cont, i)[k]] == Chain(w.parent, s.node[i])[k]
    decreases Rank(s.cont, i)
  {
    if i in s.cont {
      RankDrops(s.cont, i);
      RankDrops(w.parent, s.node[i]);
      ChainNames(w, s, s.cont[i]);
    }
  }

  /** The instance of the containing group `group` that holds `i`. */
  ghost predicate InGroupInstance(s: Inst, i: Id, group: Name, q: Id)
    requires Acyclic(s.cont)
  {
    q in Chain(s.cont, i) && q in s.node && s.node[q] == group
  }

  /** Each instance is in exactly one instance of each group that contains its node. */
  lemma {:induction false} OneGroupInstance(w: World, s: Inst, i: Id, group: Name) returns (q: Id)
    requires ValidPlan(w) && WellPlaced(w, s) && Acyclic(s.cont) && i in s.node
    requires group in Chain(w.parent, s.node[i])
    ensures InGroupInstance(s, i, group, q)
    ensures forall r :: InGroupInstance(s, i, group, r) ==> r == q
  {
    ChainNames(w, s, i);
    var c, names := Chain(s.cont, i), Chain(w.parent, s.node[i]);
    var k :| 0 <= k < |names| && names[k] == group;
    q := c[k];
    forall r | InGroupInstance(s, i, group, r)
      ensures r == q
    {
      var m :| 0 <= m < |c| && c[m] == r;
      assert names[m] == group;
      if m < k {
        ChainDistinct(w.parent, s.node[i], m, k);
      } else if k < m {
        ChainDistinct(w.parent, s.node[i], k, m);
      }
    }
  }

  lemma NoGroupInstance(w: World, s: Inst, i: Id, group: Name, q: Id)
    requires ValidPlan(w) && WellPlaced(w, s) && Acyclic(s.cont) && i in s.node
    requires InGroupInstance(s, i, group, q)
    ensures group in Chain(w.parent, s.node[i])
  {
    ChainNames(w, s, i);
  }

  /** If `a` has instances at all, every instance of what contains `a` holds one. */
  lemma {:induction false} EveryContainerHolds(w: World, s: Inst, a: Name, group: Name, q: Id) returns (i: Id)
    requires Grown(w, s) && a in w.nodes && InstancesOf(s, a) != {}
    requires group in Chain(w.parent, a) && q in s.node && s.node[q] == group
    ensures i in InstancesOf(s, a) && q in Chain(s.cont, i)
    decreases Rank(w.parent, a)
  {
    ChainWithin(w.parent, a, group);
    RankDrops(w.parent, a);
    var some :| some in InstancesOf(s, a);
    var holder := s.cont[some];
    FreshKids(w, s, a, holder);
    assert some in Kids(s, a, Some(holder));
    var j := q;
    if w.parent[a] != group {
      assert holder in InstancesOf(s, w.parent[a]);
      j := EveryContainerHolds(w, s, w.parent[a], group, q);
    }
    FreshKids(w, s, a, j);
    i :| i in Kids(s, a, Some(j));
    assert Chain(s.cont, i) == [j] + Chain(s.cont, j);
  }

  /** The group instances that hold instances of `a`. */
  ghost function Holders(s: Inst, a: Name, group: Name): set<Id>
    requires Acyclic(s.cont)
  {
    set q | q in s.node && exists i :: i in InstancesOf(s, a) && InGroupInstance(s, i, group, q)
  }

  /** All of them do, as soon as `a` has instances: so both nodes have the same keys in the partition. */
  lemma HoldersAreAll(w: World, s: Inst, a: Name, group: Name)
    requires Grown(w, s) && a in w.nodes && InstancesOf(s, a) != {}
    requires group in Chain(w.parent, a)
    ensures Holders(s, a, group) == InstancesOf(s, group)
  {
    forall q | q in InstancesOf(s, group)
      ensures q in Holders(s, a, group)
    {
      var i := EveryContainerHolds(w, s, a, group, q);
      assert InGroupInstance(s, i, group, q);
    }
  }

  /** `i` and `j` are in the same instance of `group`. */
  ghost predicate Together(s: Inst, i: Id, j: Id, group: Name)
    requires Acyclic(s.cont)
  {
    exists q :: InGroupInstance(s, i, group, q) && InGroupInstance(s, j, group, q)
  }

  /** Instances together in a group are together in every group that contains it. */
  lemma TogetherAbove(w: World, s: Inst, i: Id, j: Id, group: Name, above: Name)
    requires ValidPlan(w) && WellPlaced(w, s) && Acyclic(s.cont) && i in s.node && j in s.node
    requires Together(s, i, j, group) && above in Chain(w.parent, group)
    ensures Together(s, i, j, above)
  {
    var q :| InGroupInstance(s, i, group, q) && InGroupInstance(s, j, group, q);
    var r := OneGroupInstance(w, s, q, above);
    ChainTransitive(s.cont, i, q, r);
    ChainTransitive(s.cont, j, q, r);
    assert InGroupInstance(s, i, above, r) && InGroupInstance(s, j, above, r);
  }
}
