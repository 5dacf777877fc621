/**
  What the parser's handling of group members means for the graph of the plan that it hands on.
*/
module PlanValidation {
  import opened Names
  import opened Forests
  import opened Graphs
  import opened PlanBuilder
  import opened MemberCheck

  // ---------- members of one outermost group ----------

  lemma {:induction false} TopOnChain(gof: map<Name, Name>, x: Name, group: Name)
    requires Acyclic(gof) && group in Chain(gof, x)
    ensures Top(gof, x) in Chain(gof, x) && Top(gof, group) == Top(gof, x)
    decreases Rank(gof, x)
  {
    RankDrops(gof, x);
    var up := gof[x];
    assert Path(gof, x) == [x] + Path(gof, up);
    assert Top(gof, x) == Top(gof, up);
    assert Path(gof, up) == [up] + Chain(gof, up) && Chain(gof, x) == [up] + Chain(gof, up);
    if group != up {
      TopOnChain(gof, up, group);
    }
  }

  /** Nodes share a group exactly if their outermost groups are the same. */
  lemma SameTop(gof: map<Name, Name>, a: Name, b: Name)
    requires Acyclic(gof) && ShareGroup(gof, a, b)
    ensures Top(gof, a) == Top(gof, b) && a in gof && b in gof
  {
    var group :| group in Chain(gof, a) && group in Chain(gof, b);
    TopOnChain(gof, a, group);
    TopOnChain(gof, b, group);
  }

  lemma TopShared(gof: map<Name, Name>, a: Name, b: Name)
    requires Acyclic(gof) && a in gof && b in gof && Top(gof, a) == Top(gof, b)
    ensures ShareGroup(gof, a, b)
  {
    RankDrops(gof, a);
    RankDrops(gof, b);
    assert gof[a] in Chain(gof, a) && gof[b] in Chain(gof, b);
    TopOnChain(gof, a, gof[a]);
    TopOnChain(gof, b, gof[b]);
  }

  /** What the parser lets through without taking anything out. */
  ghost predicate Untouched(ns: seq<NodeDef>, groups: seq<GroupDef>) {
    Accepted(ns, groups) && NoneToRemove(ns, GroupOf(groups))
  }

  lemma NotAbove(ns: seq<NodeDef>, groups: seq<GroupDef>, a: Name, x: Name)
    requires Untouched(ns, groups) && IsNode(ns, a) && ShareGroup(GroupOf(groups), a, x)
    ensures x !in Chain(Containers(ns), a)
  {
  }

  /** The pair was accepted by the time the first `n` problematic pairs had been. */
  ghost predicate AcceptedBy(ns: seq<NodeDef>, gof: map<Name, Name>, order: seq<Pair>, n: nat, p: Pair)
    requires Acyclic(gof) && Acyclic(Containers(ns)) && n <= |order|
  {
    p in OkPairs(ns, gof) || p in Elements(order[..n])
  }

  lemma PairSharesGroup(ns: seq<NodeDef>, gof: map<Name, Name>, a: Name, b: Name)
    requires Acyclic(gof) && {a, b} in Pairs(ns, gof)
    ensures IsNode(ns, a) && IsNode(ns, b) && ShareGroup(gof, a, b)
  {
    var c, d :| IsNode(ns, c) && IsNode(ns, d) && ShareGroup(gof, c, d) && {c, d} == {a, b};
    assert c in {a, b} && d in {a, b} && a in {c, d} && b in {c, d};
  }

  /**
    If nothing is taken out, of two nodes that share a group either both declare a container or neither
    does: the pair check would have found nothing for them to lean on.
  */
  lemma {:induction false} NoMixedPair(ns: seq<NodeDef>, groups: seq<GroupDef>, order: seq<Pair>, n: nat, a: Name,
                                       b: Name)
    requires Untouched(ns, groups) && AcceptedInOrder(ns, GroupOf(groups), order) && n <= |order|
    requires AcceptedBy(ns, GroupOf(groups), order, n, {a, b})
    requires {a, b} in Pairs(ns, GroupOf(groups))
    ensures a in Containers(ns) <==> b in Containers(ns)
    decreases n
  {
    var gof, containers := GroupOf(groups), Containers(ns);
    PairSharesGroup(ns, gof, a, b);
    if {a, b} in OkPairs(ns, gof) {
      PairOkIs(containers, a, b);
      NotAbove(ns, groups, a, b);
      NotAbove(ns, groups, b, a);
    } else {
      var k :| 0 <= k < n && order[..n][k] == {a, b};
      LeaningPair(ns, groups, order, k, a, b);
      NoMixedPair(ns, groups, order, k, a, b);
    }
  }

  /** All that a pair could lean on is the pair itself. */
  lemma LeaningPair(ns: seq<NodeDef>, groups: seq<GroupDef>, order: seq<Pair>, k: nat, a: Name, b: Name)
    requires Untouched(ns, groups) && AcceptedInOrder(ns, GroupOf(groups), order) && k < |order|
    requires order[k] == {a, b} && {a, b} in Pairs(ns, GroupOf(groups))
    ensures AcceptedBy(ns, GroupOf(groups), order, k, {a, b})
  {
    var gof, containers := GroupOf(groups), Containers(ns);
    var ok := OkPairs(ns, gof) + Elements(order[..k]);
    var c, d, x := LeansAt(containers, ok, order, OkPairs(ns, gof), k);
    InPairs(ns, gof, order, k, {d, x});
    LeansOnOne(ns, groups, c, d, x);
  }

  lemma LeansOnOne(ns: seq<NodeDef>, groups: seq<GroupDef>, c: Name, d: Name, x: Name)
    requires Untouched(ns, groups) && x in Path(Containers(ns), c)
    requires {c, d} in Pairs(ns, GroupOf(groups)) && {d, x} in Pairs(ns, GroupOf(groups))
    ensures {d, x} == {c, d}
  {
    PairSharesGroup(ns, GroupOf(groups), c, d);
    PairSharesGroup(ns, GroupOf(groups), d, x);
    LeansOnItself(ns, groups, c, d, x);
  }

  lemma LeansAt(containers: map<Name, Name>, ok: set<Pair>, order: seq<Pair>, passed: set<Pair>, k: nat)
    returns (c: Name, d: Name, x: Name)
    requires Acyclic(containers) && LeaningInTurn(containers, passed, order) && k < |order|
    requires ok == passed + Elements(order[..k])
    ensures order[k] == {c, d} && x in Path(containers, c) && {d, x} in ok
  {
    assert Leans(containers, ok, order[k]);
    c, d :| c in order[k] && d in order[k] && order[k] == {c, d} && LeansOn(containers, ok, c, d);
    x :| x in Path(containers, c) && {d, x} in ok;
  }

  lemma InPairs(ns: seq<NodeDef>, gof: map<Name, Name>, order: seq<Pair>, k: nat, p: Pair)
    requires Acyclic(gof) && Acyclic(Containers(ns)) && Ordering(ns, gof, order) && k <= |order|
    requires p in OkPairs(ns, gof) + Elements(order[..k])
    ensures p in Pairs(ns, gof)
  {
    if p in order[..k] {
      assert p in Elements(order);
    }
  }

  /** A node that is `a` or contains it, and that shares a group with what `a` shares one with, is `a`. */
  lemma LeansOnItself(ns: seq<NodeDef>, groups: seq<GroupDef>, a: Name, b: Name, x: Name)
    requires Untouched(ns, groups) && IsNode(ns, a) && x in Path(Containers(ns), a)
    requires ShareGroup(GroupOf(groups), a, b) && ShareGroup(GroupOf(groups), b, x)
    ensures x == a
  {
    var gof := GroupOf(groups);
    SameTop(gof, a, b);
    SameTop(gof, b, x);
    TopShared(gof, a, x);
    NotAbove(ns, groups, a, x);
  }

  // ---------- no loops ----------

  lemma SharedIsSame(ns: seq<NodeDef>, groups: seq<GroupDef>, a: Name, b: Name)
    requires Validated(ns, groups) && SharedContainer(ns, GroupOf(groups))
    requires IsNode(ns, a) && IsNode(ns, b) && a in GroupOf(groups) && b in GroupOf(groups)
    requires Top(GroupOf(groups), a) == Top(GroupOf(groups), b) && a in Containers(ns) && b in Containers(ns)
    ensures Containers(ns)[a] == Containers(ns)[b]
  {
    var gof := GroupOf(groups);
    var i :| 0 <= i < |ns| && ns[i].id == a;
    var j :| 0 <= j < |ns| && ns[j].id == b;
    var k := ContainedRelationship(ns, groups, i);
    var m := ContainedRelationship(ns, groups, j);
    LiftedTop(ns, gof, i, k);
    LiftedTop(ns, gof, j, m);
  }

  lemma AcceptedInTheEnd(ns: seq<NodeDef>, gof: map<Name, Name>, order: seq<Pair>, a: Name, b: Name)
    requires Acyclic(gof) && Acyclic(Containers(ns)) && Ordering(ns, gof, order)
    requires IsNode(ns, a) && IsNode(ns, b) && ShareGroup(gof, a, b)
    ensures {a, b} in Pairs(ns, gof) && AcceptedBy(ns, gof, order, |order|, {a, b})
  {
    assert order[..|order|] == order;
    if !PairOk(Containers(ns), {a, b}) {
      assert {a, b} in Elements(order);
    }
  }

  /** The members of one outermost group have the same container, if the plan's groups share theirs. */
  lemma SameContainer(ns: seq<NodeDef>, groups: seq<GroupDef>, a: Name, b: Name)
    requires Untouched(ns, groups) && SharedContainer(ns, GroupOf(groups))
    requires IsNode(ns, a) && IsNode(ns, b) && Top(GroupOf(groups), a) == Top(GroupOf(groups), b)
    ensures a in Containers(ns) <==> b in Containers(ns)
    ensures a in Containers(ns) ==> Containers(ns)[a] == Containers(ns)[b]
  {
    var gof := GroupOf(groups);
    ValidatedSeparate(ns, groups);
    TopIsOutside(ns, gof, a);
    TopIsOutside(ns, gof, b);
    if a != b {
      TopShared(gof, a, b);
      var order :| AcceptedInOrder(ns, gof, order);
      AcceptedInTheEnd(ns, gof, order, a, b);
      NoMixedPair(ns, groups, order, |order|, a, b);
      if a in Containers(ns) {
        SharedIsSame(ns, groups, a, b);
      }
    }
  }

  /** The outermost group of a node that is in one is not a node; a node in none is its own. */
  lemma TopIsOutside(ns: seq<NodeDef>, gof: map<Name, Name>, a: Name)
    requires Separate(ns, gof)
    ensures if a in gof then !IsNode(ns, Top(gof, a)) else Top(gof, a) == a
  {
    if a in gof {
      RankDrops(gof, a);
      assert Path(gof, a) == [a] + Path(gof, gof[a]);
      TopIs(gof, gof[a]);
    }
  }

  lemma LiftedTop(ns: seq<NodeDef>, gof: map<Name, Name>, a: int, b: int)
    requires Acyclic(gof) && Lifts(ns, gof, a, b)
    ensures Lifted(ns, gof, a, b) == (Top(gof, ns[a].id), ns[a].relationships[b].target)
  {
    RankDrops(gof, ns[a].id);
    assert Path(gof, ns[a].id) == [ns[a].id] + Path(gof, gof[ns[a].id]);
  }

  /** How deep the members of the outermost group `u` (or `u` itself, outside any group) are contained. */
  ghost function Depth(ns: seq<NodeDef>, gof: map<Name, Name>, u: Name): nat
    requires Acyclic(gof) && Acyclic(Containers(ns))
  {
    if a :| IsNode(ns, a) && Top(gof, a) == u then |Chain(Containers(ns), a)| else 0
  }

  lemma DepthIs(ns: seq<NodeDef>, groups: seq<GroupDef>, a: Name)
    requires Untouched(ns, groups) && SharedContainer(ns, GroupOf(groups)) && IsNode(ns, a)
    ensures Depth(ns, GroupOf(groups), Top(GroupOf(groups), a)) == |Chain(Containers(ns), a)|
  {
    forall b | IsNode(ns, b) && Top(GroupOf(groups), b) == Top(GroupOf(groups), a)
      ensures |Chain(Containers(ns), a)| == |Chain(Containers(ns), b)|
    {
      SameContainer(ns, groups, a, b);
    }
  }

  /** How the outermost groups are nested in each other by the containers of their members, step by step. */
  ghost predicate Nests(ns: seq<NodeDef>, gof: map<Name, Name>, rank: map<Name, nat>)
    requires Acyclic(gof)
  {
    forall a, b :: Rel(ns, a, b) && IsContained(ns[a].relationships[b]) ==> NestsAt(ns, gof, rank, a, b)
  }

  ghost predicate NestsAt(ns: seq<NodeDef>, gof: map<Name, Name>, rank: map<Name, nat>, a: int, b: int)
    requires Acyclic(gof) && Rel(ns, a, b)
  {
    var inner, outer := Top(gof, ns[a].id), Top(gof, ns[a].relationships[b].target);
    inner in rank && outer in rank && rank[outer] < rank[inner]
  }

  /** No outermost group is, over the containers of members and the groups around these, contained in itself. */
  ghost predicate NestsWell(ns: seq<NodeDef>, gof: map<Name, Name>)
    requires Acyclic(gof)
  {
    exists rank: map<Name, nat> :: Nests(ns, gof, rank)
  }

  /** Going up: the nesting of the outermost groups counts first, then how many groups are around. */
  ghost function Height(gof: map<Name, Name>, rank: map<Name, nat>, x: Name): nat
    requires Acyclic(gof)
  {
    var top := Top(gof, x);
    Tall(if top in rank then rank[top] else 0, |gof.Values| + 1, Around(gof, x))
  }

  /** The number of groups around `x`. */
  ghost function Around(gof: map<Name, Name>, x: Name): nat
    requires Acyclic(gof)
  {
    |Chain(gof, x)|
  }

  lemma ChainShort(gof: map<Name, Name>, x: Name)
    requires Acyclic(gof)
    ensures |Chain(gof, x)| <= |gof.Values|
  {
    var chain := Chain(gof, x);
    forall i, j | 0 <= i < j < |chain| ensures chain[i] != chain[j] {
      ChainDistinct(gof, x, i, j);
    }
    DistinctCardinality(chain);
    forall y | y in chain ensures y in gof.Values {
      ChainWithin(gof, x, y);
      OnChain(gof, x, y);
    }
    CardinalityAtMost(Elements(chain), gof.Values);
  }

  lemma {:induction false} OnChain(gof: map<Name, Name>, x: Name, y: Name)
    requires Acyclic(gof) && y in Chain(gof, x)
    ensures y in gof.Values
    decreases Rank(gof, x)
  {
    RankDrops(gof, x);
    if y != gof[x] {
      OnChain(gof, gof[x], y);
    }
  }

  lemma {:induction false} CardinalityAtMost(a: set<Name>, b: set<Name>)
    requires a <= b
    ensures |a| <= |b|
  {
    if a != {} {
      var x :| x in a;
      CardinalityAtMost(a - {x}, b - {x});
    }
  }

  /** `d` times `k`, and `n` more. */
  function Tall(d: nat, k: nat, n: nat): nat {
    if d == 0 then n else k + Tall(d - 1, k, n)
  }

  lemma {:induction false} MoreDepth(d: nat, k: nat, n: nat, m: nat)
    requires n < k
    ensures Tall(d, k, n) < Tall(d + 1, k, m)
  {
    if d > 0 {
      MoreDepth(d - 1, k, n, m);
    }
  }

  lemma {:induction false} MoreAround(d: nat, k: nat, n: nat, m: nat)
    requires n < m
    ensures Tall(d, k, n) < Tall(d, k, m)
  {
    if d > 0 {
      MoreAround(d - 1, k, n, m);
    }
  }

  lemma {:induction false} MuchHigher(d: nat, e: nat, k: nat, n: nat, m: nat)
    requires n < k && d < e
    ensures Tall(d, k, n) < Tall(e, k, m)
  {
    if e == d + 1 {
      MoreDepth(d, k, n, m);
    } else {
      MuchHigher(d, e - 1, k, n, m);
      assert Tall(e, k, m) == k + Tall(e - 1, k, m);
    }
  }

  lemma {:induction false} TopOfTop(gof: map<Name, Name>, x: Name)
    requires Acyclic(gof)
    ensures Top(gof, Top(gof, x)) == Top(gof, x)
    decreases Rank(gof, x)
  {
    if x in gof {
      RankDrops(gof, x);
      assert Path(gof, x) == [x] + Path(gof, gof[x]);
      TopOfTop(gof, gof[x]);
    }
  }

  /** A container is lower than the outermost group around what it contains. */
  lemma ContainerBelow(ns: seq<NodeDef>, gof: map<Name, Name>, rank: map<Name, nat>, a: int, b: int)
    requires Acyclic(gof) && Nests(ns, gof, rank) && Rel(ns, a, b) && IsContained(ns[a].relationships[b])
    ensures Height(gof, rank, ns[a].relationships[b].target) < Height(gof, rank, Top(gof, ns[a].id))
  {
    assert NestsAt(ns, gof, rank, a, b);
    TopOfTop(gof, ns[a].id);
    HeightDrops(gof, rank, Top(gof, ns[a].id), ns[a].relationships[b].target);
  }

  lemma HeightDrops(gof: map<Name, Name>, rank: map<Name, nat>, s: Name, t: Name)
    requires Acyclic(gof) && Top(gof, s) in rank && Top(gof, t) in rank && rank[Top(gof, t)] < rank[Top(gof, s)]
    ensures Height(gof, rank, t) < Height(gof, rank, s)
  {
    ChainShort(gof, t);
    HeightIs(gof, rank, s);
    HeightIs(gof, rank, t);
    MuchHigher(rank[Top(gof, t)], rank[Top(gof, s)], |gof.Values| + 1, Around(gof, t), Around(gof, s));
  }

  lemma HeightIs(gof: map<Name, Name>, rank: map<Name, nat>, x: Name)
    requires Acyclic(gof) && Top(gof, x) in rank
    ensures Height(gof, rank, x) == Tall(rank[Top(gof, x)], |gof.Values| + 1, Around(gof, x))
  {
  }

  lemma StepsDown(ns: seq<NodeDef>, gof: map<Name, Name>, rank: map<Name, nat>, s: Name, t: Name)
    requires Separate(ns, gof) && Nests(ns, gof, rank) && PlanContainer(ns, gof, s, t)
    ensures Height(gof, rank, t) < Height(gof, rank, s)
  {
    if GroupPair(gof, (s, t)) {
      RankDrops(gof, s);
      assert Path(gof, s) == [s] + Path(gof, t);
      assert Top(gof, s) == Top(gof, t);
      MoreAround(if Top(gof, s) in rank then rank[Top(gof, s)] else 0, |gof.Values| + 1, |Chain(gof, t)|,
                 |Chain(gof, s)|);
    } else if a, b :| Lifts(ns, gof, a, b) && (s, t) == Lifted(ns, gof, a, b) {
      LiftedTop(ns, gof, a, b);
      ContainerBelow(ns, gof, rank, a, b);
    } else {
      var a, b :| Uncovered(ns, gof, a, b) && (s, t) == Primary(ns, gof, a, b);
      TopIsOutside(ns, gof, s);
      ContainerBelow(ns, gof, rank, a, b);
    }
  }

  ghost function AllNames(ns: seq<NodeDef>, groups: seq<GroupDef>): set<Name> {
    (set i | 0 <= i < |ns| :: ns[i].id) + (set j | 0 <= j < |groups| :: groups[j].name)
  }

  lemma KnownNames(ns: seq<NodeDef>, groups: seq<GroupDef>, s: Name, t: Name)
    requires Validated(ns, groups) && PlanContainer(ns, GroupOf(groups), s, t)
    ensures s in AllNames(ns, groups) && t in AllNames(ns, groups)
  {
    var gof := GroupOf(groups);
    if GroupPair(gof, (s, t)) {
      MemberOf(ns, groups, s);
    } else {
      var a, b :| Rel(ns, a, b) &&
        ((Uncovered(ns, gof, a, b) && (s, t) == Primary(ns, gof, a, b)) ||
          (Lifts(ns, gof, a, b) && (s, t) == Lifted(ns, gof, a, b)));
      assert ValidatedNode(ns, ns[a]) && ValidatedTarget(ns, ns[a].relationships[b]);
      if Lifts(ns, gof, a, b) {
        MemberOf(ns, groups, ns[a].id);
        TopIs(gof, gof[ns[a].id]);
        var x :| x in gof && gof[x] == Top(gof, gof[ns[a].id]);
        MemberOf(ns, groups, x);
      }
    }
  }

  /** Containment through groups goes down no further than it goes down from the outermost group. */
  lemma {:induction false} TopBelow(ns: seq<NodeDef>, gof: map<Name, Name>, rank: map<Name, nat>, x: Name)
    requires Acyclic(gof) && RanksPlan(ns, gof, rank) && x in rank
    ensures Top(gof, x) in rank && rank[Top(gof, x)] <= rank[x]
    decreases Rank(gof, x)
  {
    if x in gof {
      RankDrops(gof, x);
      assert Path(gof, x) == [x] + Path(gof, gof[x]);
      assert PlanContainer(ns, gof, x, gof[x]);
      TopBelow(ns, gof, rank, gof[x]);
    }
  }

  lemma RankedNests(ns: seq<NodeDef>, gof: map<Name, Name>, rank: map<Name, nat>, a: int, b: int)
    requires Separate(ns, gof) && RanksPlan(ns, gof, rank) && Rel(ns, a, b) && IsContained(ns[a].relationships[b])
    ensures NestsAt(ns, gof, rank, a, b)
  {
    var t := ns[a].relationships[b].target;
    if ns[a].id in gof {
      LiftedTop(ns, gof, a, b);
      assert PlanContainer(ns, gof, Top(gof, ns[a].id), t);
    } else {
      assert Uncovered(ns, gof, a, b) && PlanContainer(ns, gof, ns[a].id, t);
      TopIsOutside(ns, gof, ns[a].id);
    }
    TopBelow(ns, gof, rank, t);
  }

  /** The containment with groups in between loops exactly if the outermost groups are nested in a loop. */
  lemma LoopsExactly(ns: seq<NodeDef>, groups: seq<GroupDef>)
    requires Validated(ns, groups)
    ensures NoLoops(ns, GroupOf(groups)) <==> NestsWell(ns, GroupOf(groups))
  {
    var gof := GroupOf(groups);
    ValidatedSeparate(ns, groups);
    if rank: map<Name, nat> :| Nests(ns, gof, rank) {
      var heights: map<Name, nat> := map x | x in AllNames(ns, groups) :: Height(gof, rank, x);
      forall s, t | PlanContainer(ns, gof, s, t) ensures s in heights && t in heights && heights[t] < heights[s] {
        KnownNames(ns, groups, s, t);
        StepsDown(ns, gof, rank, s, t);
      }
      assert RanksPlan(ns, gof, heights);
    }
    if NoLoops(ns, gof) {
      var rank: map<Name, nat> :| RanksPlan(ns, gof, rank);
      forall a, b | Rel(ns, a, b) && IsContained(ns[a].relationships[b]) ensures NestsAt(ns, gof, rank, a, b) {
        RankedNests(ns, gof, rank, a, b);
      }
      assert Nests(ns, gof, rank);
    }
  }

  // ---------- plans from which nothing is taken ----------

  lemma DepthDrops(ns: seq<NodeDef>, groups: seq<GroupDef>, a: int, b: int)
    requires Untouched(ns, groups) && SharedContainer(ns, GroupOf(groups))
    requires Rel(ns, a, b) && IsContained(ns[a].relationships[b])
    ensures var gof := GroupOf(groups);
      Depth(ns, gof, Top(gof, ns[a].relationships[b].target)) < Depth(ns, gof, Top(gof, ns[a].id))
  {
    var t := ns[a].relationships[b].target;
    ContainerExactly(ns, groups, a, b);
    assert ValidatedNode(ns, ns[a]) && ValidatedTarget(ns, ns[a].relationships[b]);
    assert IsNode(ns, ns[a].id);
    DepthIs(ns, groups, ns[a].id);
    DepthIs(ns, groups, t);
    RankDrops(Containers(ns), ns[a].id);
  }

  /** If nothing is taken out and members share their containers, the nesting is that of the containers. */
  lemma UntouchedNests(ns: seq<NodeDef>, groups: seq<GroupDef>)
    requires Untouched(ns, groups) && SharedContainer(ns, GroupOf(groups))
    ensures NestsWell(ns, GroupOf(groups))
  {
    var gof := GroupOf(groups);
    var tops := set x | x in NodeNames(ns) :: Top(gof, x);
    var rank: map<Name, nat> := map u | u in tops :: Depth(ns, gof, u);
    forall a, b | Rel(ns, a, b) && IsContained(ns[a].relationships[b]) ensures NestsAt(ns, gof, rank, a, b) {
      DepthDrops(ns, groups, a, b);
      assert ValidatedNode(ns, ns[a]) && ValidatedTarget(ns, ns[a].relationships[b]);
      assert IsNode(ns, ns[a].id);
    }
    assert Nests(ns, gof, rank);
  }

  // ---------- the plan graph ----------

  /**
    The graph of the plan that the parser hands on is one that the expansion can work on exactly if the
    members of each outermost group share their container and the outermost groups are not nested in a loop.
  */
  lemma HandedOnIsValid(ns: seq<NodeDef>, groups: seq<GroupDef>, g: PlanGraph)
    requires Accepted(ns, groups)
    requires var gof := GroupOf(HandedOn(ns, groups)); Acyclic(gof) && Built(ns, gof, g.edges, |ns|, 0)
    requires forall x :: x in g.nodes <==> IsNode(ns, x) || IsGroup(HandedOn(ns, groups), x)
    ensures var gof := GroupOf(HandedOn(ns, groups));
      ValidGraph(g) <==> SharedContainer(ns, gof) && NestsWell(ns, gof)
  {
    var handed := HandedOn(ns, groups);
    HandedValidated(ns, groups, Taken(ns, GroupOf(groups)));
    BuiltIsValid(ns, handed, g);
    LoopsExactly(ns, handed);
  }

  /** If nothing is taken out, which can be seen from the plan as it is written, the first of these is enough. */
  lemma UntouchedIsValid(ns: seq<NodeDef>, groups: seq<GroupDef>, g: PlanGraph)
    requires Accepted(ns, groups) && HandedOn(ns, groups) == groups
    requires Built(ns, GroupOf(groups), g.edges, |ns|, 0)
    requires forall x :: x in g.nodes <==> IsNode(ns, x) || IsGroup(groups, x)
    ensures ValidGraph(g) <==> SharedContainer(ns, GroupOf(groups))
  {
    HandedUnchangedExactly(ns, groups);
    HandedOnIsValid(ns, groups, g);
    if SharedContainer(ns, GroupOf(groups)) {
      UntouchedNests(ns, groups);
    }
  }
}
