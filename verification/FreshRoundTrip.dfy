/**
  Building a fresh deployment back from its stored instances: it never raises, and the plan tells
  whether all of the containment comes back.
*/
module FreshRoundTrip {
  import opened Names
  import opened Forests
  import opened Graphs
  import opened Growth
  import opened Expansion
  import opened PlanGroups
  import opened PlanBuilder
  import opened Deployments
  import opened Partition
  import opened Connections
  import opened Wiring
  import opened Extraction
  import opened Transparency
  import opened MultiInstance
  import opened RoundTrip

  // ---------- groups in the plan and around instances ----------

  /** What holds something that is in no group is a node. */
  lemma HolderIsNode(ns: seq<NodeDef>, groups: seq<GroupDef>, plan: PlanGraph, x: Name)
    requires PlanOf(ns, groups, plan) && ValidGraph(plan) && x in ContainedGraph(plan) && x !in GroupOf(groups)
    ensures ContainedGraph(plan)[x] !in GroupNames(plan)
  {
    var gof, t := GroupOf(groups), ContainedGraph(plan)[x];
    ValidatedSeparate(ns, groups);
    GraphMapsPlan(ns, gof, plan);
    assert PlanContainer(ns, gof, x, t);
    if a, b :| Lifts(ns, gof, a, b) && (x, t) == Lifted(ns, gof, a, b) {
      assert ValidatedNode(ns, ns[a]) && ValidatedTarget(ns, ns[a].relationships[b]);
    } else {
      var a, b :| Uncovered(ns, gof, a, b) && (x, t) == Primary(ns, gof, a, b);
      assert ValidatedNode(ns, ns[a]) && ValidatedTarget(ns, ns[a].relationships[b]);
    }
    TargetNotGroup(ns, groups, plan, t);
  }

  lemma MemberHolder(ns: seq<NodeDef>, groups: seq<GroupDef>, plan: PlanGraph, x: Name)
    requires PlanOf(ns, groups, plan) && ValidGraph(plan) && x in GroupOf(groups)
    ensures x in ContainedGraph(plan) && ContainedGraph(plan)[x] == GroupOf(groups)[x]
    ensures GroupOf(groups)[x] in GroupNames(plan)
  {
    ValidatedSeparate(ns, groups);
    GraphMapsPlan(ns, GroupOf(groups), plan);
    assert PlanContainer(ns, GroupOf(groups), x, GroupOf(groups)[x]);
    MemberOf(ns, groups, x);
  }

  /** The groups that the containers of `x` start with are those that it is in through groups. */
  lemma {:induction false} LeadingAreMemberships(ns: seq<NodeDef>, groups: seq<GroupDef>, plan: PlanGraph, x: Name)
    requires PlanOf(ns, groups, plan) && ValidGraph(plan)
    ensures LeadingGroups(Chain(ContainedGraph(plan), x), GroupNames(plan)) == Chain(GroupOf(groups), x)
    decreases Rank(GroupOf(groups), x)
  {
    var gof, parent := GroupOf(groups), ContainedGraph(plan);
    if x in gof {
      MemberHolder(ns, groups, plan, x);
      RankDrops(gof, x);
      RankDrops(parent, x);
      LeadingAreMemberships(ns, groups, plan, gof[x]);
      LeadingCons(parent[x], Chain(parent, parent[x]), GroupNames(plan));
    } else if x in parent {
      HolderIsNode(ns, groups, plan, x);
    }
  }

  /** At the places of two lists without repetitions, `q` and its name are both among the first `n` or neither is. */
  lemma SamePlace(ids: seq<Id>, names: seq<Name>, node: map<Id, Name>, n: nat, q: Id)
    requires |ids| == |names| && n <= |ids| && Distinct(names) && q in node
    requires forall k :: 0 <= k < |ids| ==> ids[k] in node && node[ids[k]] == names[k]
    ensures q in ids[..n] <==> q in ids && node[q] in names[..n]
  {
    if q in ids[..n] {
      var k :| 0 <= k < n && ids[..n][k] == q;
      assert names[..n][k] == node[q];
    }
    if q in ids && node[q] in names[..n] {
      var k :| 0 <= k < |ids| && ids[k] == q;
      var m :| 0 <= m < n && names[..n][m] == node[q];
      assert names[k] == names[m];
      assert k == m && ids[..n][k] == q;
    }
  }

  lemma ChainOnce(parent: map<Name, Name>, x: Name)
    requires Acyclic(parent)
    ensures Distinct(Chain(parent, x))
  {
    var chain := Chain(parent, x);
    forall i, j | 0 <= i < j < |chain| ensures chain[i] != chain[j] {
      ChainDistinct(parent, x, i, j);
    }
  }

  /** An instance that holds `i` is a leading group of it exactly if its element is one of the node's. */
  lemma LeadingAt(plan: PlanGraph, c: InstanceGraph, w: World, s: Inst, i: Id, q: Id)
    requires ValidPlan(w) && WellPlaced(w, s) && Acyclic(s.cont) && Represents(c, s) && i in s.node
    requires forall x :: x in c.nodes ==> GroupMarked(plan, c.nodes[x])
    requires q in s.node
    ensures q in LeadingGroups(Chain(s.cont, i), GroupInstances(c)) <==>
      q in Chain(s.cont, i) && s.node[q] in LeadingGroups(Chain(w.parent, s.node[i]), GroupNames(plan))
  {
    ChainFlags(plan, c, w, s, i);
    var ids, names := Chain(s.cont, i), Chain(w.parent, s.node[i]);
    AfterGroupsMap(ids, names, s.node, GroupInstances(c), GroupNames(plan));
    LeadingWithin(ids, GroupInstances(c));
    LeadingWithin(names, GroupNames(plan));
    ChainOnce(w.parent, s.node[i]);
    SamePlace(ids, names, s.node, |LeadingGroups(ids, GroupInstances(c))|, q);
  }

  // ---------- which group instances come back ----------

  /** The node `n` declares a container although it is in a group. */
  ghost predicate DeclaresHolder(ns: seq<NodeDef>, gof: map<Name, Name>, n: Name) {
    exists a, b :: Lifts(ns, gof, a, b) && ns[a].id == n
  }

  /** An instance has a redirected relationship exactly if its node declares a container from within a group. */
  lemma RedirectsExactly(ns: seq<NodeDef>, groups: seq<GroupDef>, plan: PlanGraph,
                         c: InstanceGraph, g: InstanceGraph, w: World, s: Inst, i: Id)
    requires PlanOf(ns, groups, plan) && FreshOf(plan, c, g, w, s) && Unmixed(plan) && i in s.node &&
      IsNode(ns, s.node[i])
    ensures (exists t :: Redirects(g, i, t)) <==> DeclaresHolder(ns, GroupOf(groups), s.node[i])
  {
    var gof := GroupOf(groups);
    if t :| Redirects(g, i, t) {
      EdgeCopies(plan, c, g, w, s, i, t);
      var e := (s.node[i], s.node[t]);
      TargetNotGroup(ns, groups, plan, e.0);
      EdgeKind(ns, groups, plan, e);
      var a, b :| Stands(ns, gof, plan.edges[e], e, a, b) && Lifts(ns, gof, a, b);
    }
    if a, b :| Lifts(ns, gof, a, b) && ns[a].id == s.node[i] {
      RedirectedEdge(ns, groups, plan, c, g, w, s, i, a, b);
    }
  }

  lemma RedirectedEdge(ns: seq<NodeDef>, groups: seq<GroupDef>, plan: PlanGraph,
                       c: InstanceGraph, g: InstanceGraph, w: World, s: Inst, i: Id, a: int, b: int)
    requires PlanOf(ns, groups, plan) && FreshOf(plan, c, g, w, s) && i in s.node
    requires Lifts(ns, GroupOf(groups), a, b) && ns[a].id == s.node[i]
    ensures i in s.cont && Redirects(g, i, s.cont[i])
  {
    var gof, n := GroupOf(groups), s.node[i];
    MemberHolder(ns, groups, plan, n);
    assert Before(ns, |ns|, 0, a, b);
    assert RelationshipIn(ns, gof, plan.edges, a, b);
    var t := s.cont[i];
    assert (i, t) in c.edges && EdgeLabelled(plan, map[], c, (i, t));
    assert (n, gof[n]) == Primary(ns, gof, a, b);
  }

  /** A node in `group`, through groups, that has instances and, if need be, declares a container. */
  ghost predicate Witness(ns: seq<NodeDef>, gof: map<Name, Name>, group: Name, n: Name)
    requires Acyclic(gof)
  {
    IsNode(ns, n) && group in Chain(gof, n) && (group in gof || DeclaresHolder(ns, gof, n))
  }

  lemma GroupHolder(ns: seq<NodeDef>, groups: seq<GroupDef>, plan: PlanGraph,
                    c: InstanceGraph, g: InstanceGraph, w: World, s: Inst, q: Id)
    requires PlanOf(ns, groups, plan) && FreshOf(plan, c, g, w, s) && q in s.cont
    ensures s.cont[q] in GroupInstances(c) <==> s.node[q] in GroupOf(groups)
  {
    var up := s.cont[q];
    assert GroupMarked(plan, c.nodes[up]);
    if s.node[q] in GroupOf(groups) {
      MemberHolder(ns, groups, plan, s.node[q]);
    } else {
      HolderIsNode(ns, groups, plan, s.node[q]);
    }
  }

  /** A contained group instance comes back exactly if its group has such a node. */
  lemma ComesBackExactly(ns: seq<NodeDef>, groups: seq<GroupDef>, plan: PlanGraph,
                         c: InstanceGraph, g: InstanceGraph, w: World, s: Inst, q: Id)
    requires PlanOf(ns, groups, plan) && FreshOf(plan, c, g, w, s) && Unmixed(plan)
    requires q in s.cont && q in c.nodes && c.nodes[q].group
    ensures ComesBack(c, g, s, q) <==>
      exists n :: Witness(ns, GroupOf(groups), s.node[q], n) && InstancesOf(s, n) != {}
  {
    var gof, group := GroupOf(groups), s.node[q];
    GroupHolder(ns, groups, plan, c, g, w, s, q);
    if i :| Carries(c, g, s, i, q) {
      CarrierIsWitness(ns, groups, plan, c, g, w, s, q, i);
      assert i in InstancesOf(s, s.node[i]);
    }
    if n :| Witness(ns, gof, group, n) && InstancesOf(s, n) != {} {
      var i := WitnessCarries(ns, groups, plan, c, g, w, s, q, n);
    }
  }

  lemma CarrierIsWitness(ns: seq<NodeDef>, groups: seq<GroupDef>, plan: PlanGraph,
                         c: InstanceGraph, g: InstanceGraph, w: World, s: Inst, q: Id, i: Id)
    requires PlanOf(ns, groups, plan) && FreshOf(plan, c, g, w, s) && Unmixed(plan)
    requires Carries(c, g, s, i, q)
    ensures i in s.node && q in s.node && Witness(ns, GroupOf(groups), s.node[q], s.node[i])
  {
    var n := s.node[i];
    assert GroupMarked(plan, c.nodes[i]);
    LeadingWithin(Chain(s.cont, i), GroupInstances(c));
    assert q in s.node;
    LeadingAt(plan, c, w, s, i, q);
    LeadingAreMemberships(ns, groups, plan, n);
    GroupHolder(ns, groups, plan, c, g, w, s, q);
    RedirectsExactly(ns, groups, plan, c, g, w, s, i);
  }

  lemma WitnessCarries(ns: seq<NodeDef>, groups: seq<GroupDef>, plan: PlanGraph,
                       c: InstanceGraph, g: InstanceGraph, w: World, s: Inst, q: Id, n: Name)
    returns (i: Id)
    requires PlanOf(ns, groups, plan) && FreshOf(plan, c, g, w, s) && Unmixed(plan)
    requires q in s.cont && q in s.node && Witness(ns, GroupOf(groups), s.node[q], n) && InstancesOf(s, n) != {}
    ensures Carries(c, g, s, i, q)
  {
    var group := s.node[q];
    LeadingAreMemberships(ns, groups, plan, n);
    LeadingWithin(Chain(w.parent, n), GroupNames(plan));
    TargetNotGroup(ns, groups, plan, n);
    i := EveryContainerHolds(w, s, n, group, q);
    assert GroupMarked(plan, c.nodes[i]);
    LeadingAt(plan, c, w, s, i, q);
    GroupHolder(ns, groups, plan, c, g, w, s, q);
    RedirectsExactly(ns, groups, plan, c, g, w, s, i);
  }

  // ---------- the whole deployment ----------

  /**
    Every contained group that has instances has a member, through groups, that has some as well, and,
    if the group is an outermost one, that declares a container.
  */
  ghost predicate AllRecorded(ns: seq<NodeDef>, groups: seq<GroupDef>, parent: map<Name, Name>)
    requires Acyclic(parent) && Acyclic(GroupOf(groups)) && ParentsKnownTo(ns, groups, parent)
  {
    forall group :: group in parent && IsGroup(groups, group) && DeclaredProduct(ns, groups, parent, group) > 0 ==>
      HasRecorder(ns, groups, parent, group)
  }

  ghost predicate HasRecorder(ns: seq<NodeDef>, groups: seq<GroupDef>, parent: map<Name, Name>, group: Name)
    requires Acyclic(parent) && Acyclic(GroupOf(groups)) && ParentsKnownTo(ns, groups, parent)
  {
    exists n :: Witness(ns, GroupOf(groups), group, n) && DeclaredProduct(ns, groups, parent, n) > 0
  }

  /** There are instances exactly if the declared numbers are all positive. */
  lemma HasInstances(ns: seq<NodeDef>, groups: seq<GroupDef>, plan: PlanGraph,
                     c: InstanceGraph, g: InstanceGraph, w: World, s: Inst, n: Name)
    requires PlanOf(ns, groups, plan) && FreshOf(plan, c, g, w, s) && n in plan.nodes
    ensures ParentsKnownTo(ns, groups, w.parent)
    ensures InstancesOf(s, n) != {} <==> DeclaredProduct(ns, groups, w.parent, n) > 0
  {
    ParentsKnown(ns, groups, plan);
    ProductDeclared(ns, groups, plan, w, n);
    FreshCount(w, s, n);
  }

  lemma RecorderExactly(ns: seq<NodeDef>, groups: seq<GroupDef>, plan: PlanGraph,
                        c: InstanceGraph, g: InstanceGraph, w: World, s: Inst, q: Id)
    requires PlanOf(ns, groups, plan) && FreshOf(plan, c, g, w, s) && Unmixed(plan) &&
      ParentsKnownTo(ns, groups, w.parent)
    requires q in s.cont && q in c.nodes && c.nodes[q].group
    ensures ComesBack(c, g, s, q) <==> HasRecorder(ns, groups, w.parent, s.node[q])
  {
    ComesBackExactly(ns, groups, plan, c, g, w, s, q);
    forall n | Witness(ns, GroupOf(groups), s.node[q], n)
      ensures InstancesOf(s, n) != {} <==> DeclaredProduct(ns, groups, w.parent, n) > 0
    {
      TargetNotGroup(ns, groups, plan, n);
      HasInstances(ns, groups, plan, c, g, w, s, n);
    }
  }

  /** All of the containment comes back exactly if the plan is such. */
  lemma AllRecordedExactly(ns: seq<NodeDef>, groups: seq<GroupDef>, plan: PlanGraph,
                           c: InstanceGraph, g: InstanceGraph, w: World, s: Inst)
    requires PlanOf(ns, groups, plan) && FreshOf(plan, c, g, w, s) && Unmixed(plan)
    ensures ParentsKnownTo(ns, groups, w.parent)
    ensures (forall q :: q in s.cont ==> ComesBack(c, g, s, q)) <==> AllRecorded(ns, groups, w.parent)
  {
    ParentsKnown(ns, groups, plan);
    if AllRecorded(ns, groups, w.parent) {
      forall q | q in s.cont ensures ComesBack(c, g, s, q) {
        assert GroupMarked(plan, c.nodes[q]);
        if c.nodes[q].group {
          HasInstances(ns, groups, plan, c, g, w, s, s.node[q]);
          assert q in InstancesOf(s, s.node[q]);
          RecorderExactly(ns, groups, plan, c, g, w, s, q);
        }
      }
    }
    if forall q :: q in s.cont ==> ComesBack(c, g, s, q) {
      forall group | group in w.parent && IsGroup(groups, group) && DeclaredProduct(ns, groups, w.parent, group) > 0
        ensures HasRecorder(ns, groups, w.parent, group)
      {
        HasInstances(ns, groups, plan, c, g, w, s, group);
        var q :| q in InstancesOf(s, group);
        assert GroupMarked(plan, c.nodes[q]);
        RecorderExactly(ns, groups, plan, c, g, w, s, q);
      }
    }
  }

  /**
    The instances of a fresh deployment, built back: nothing raises, and the containment is the same
    exactly if every contained group with instances has a member with instances to record it.
  */
  lemma FreshRoundTrip(ns: seq<NodeDef>, groups: seq<GroupDef>, plan: PlanGraph,
                       c: InstanceGraph, g: InstanceGraph, w: World, s: Inst, instances: seq<Stored>)
    returns (parts: seq<Rebuilt>)
    requires DeploymentOf(ns, groups, plan, c, g, w, s, instances)
    ensures forall k :: 0 <= k < |instances| ==> !Raises(plan, instances[k])
    ensures PartsOf(plan, instances, parts)
    ensures ParentsKnownTo(ns, groups, w.parent)
    ensures JoinAll(parts).contained == c.edges.Keys <==> AllRecorded(ns, groups, w.parent)
  {
    PlanUnmixed(ns, groups, plan);
    FreshRecognizable(ns, groups, plan, c, g, w, s);
    forall k | 0 <= k < |instances| ensures !Raises(plan, instances[k]) {
      NeverRaises(plan, c, g, s, instances, k);
    }
    parts := PartsExist(plan, instances);
    AllContainmentBack(plan, c, g, s, instances, parts);
    AllRecordedExactly(ns, groups, plan, c, g, w, s);
  }

  /** The edge that is built back for a group instance is the one that it had, with its record. */
  lemma GroupEdgeBack(ns: seq<NodeDef>, groups: seq<GroupDef>, plan: PlanGraph, c: InstanceGraph, g: InstanceGraph,
                      w: World, s: Inst, q: Id)
    requires PlanOf(ns, groups, plan) && FreshOf(plan, c, g, w, s)
    requires q in s.cont && q in c.nodes && c.nodes[q].group
    ensures (q, s.cont[q]) in c.edges && s.cont[q] in c.nodes
    ensures c.edges[(q, s.cont[q])] == RoundTrip.GroupStep(c.nodes[s.cont[q]].name, s.cont[q])
  {
    var e := (q, s.cont[q]);
    assert EdgeLabelled(plan, map[], c, e) && GroupMarked(plan, c.nodes[q]);
    var pe := (c.nodes[q].name, c.nodes[s.cont[q]].name);
    GroupsOwnEdge(ns, groups, plan, pe);
  }

  lemma GroupsOwnEdge(ns: seq<NodeDef>, groups: seq<GroupDef>, plan: PlanGraph, e: (Name, Name))
    requires PlanOf(ns, groups, plan) && e in plan.edges && IsGroup(groups, e.0)
    ensures plan.edges[e] == GroupEdge(e.1)
  {
    var gof := GroupOf(groups);
    ValidatedSeparate(ns, groups);
    forall a, b | Rel(ns, a, b) ensures Primary(ns, gof, a, b) != e {
      assert IsNode(ns, ns[a].id);
    }
    if GroupPair(gof, e) {
      assert MemberEdge(ns, gof, plan.edges[e], |ns|, 0, e);
    } else {
      var a, b :| Before(ns, |ns|, 0, a, b) &&
        (e == Primary(ns, gof, a, b) || (Lifts(ns, gof, a, b) && e == Lifted(ns, gof, a, b)));
      assert RelationshipIn(ns, gof, plan.edges, a, b);
    }
  }
}
