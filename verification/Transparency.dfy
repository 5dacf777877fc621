/**
  Scaling groups are transparent: what a fresh deployment hands out speaks of the relationships
  that the plan declared, and of the instances that really hold each instance.
*/
module Transparency {
  import opened Names
  import opened Forests
  import opened Graphs
  import opened Growth
  import opened Expansion
  import opened PlanGroups
  import opened PlanBuilder
  import opened Deployments
  import opened Partition
  import opened Connections
  import opened Wiring
  import opened Extraction

  /** A validated plan, and the graph built from it. */
  ghost predicate PlanOf(ns: seq<NodeDef>, groups: seq<GroupDef>, plan: PlanGraph) {
    && Validated(ns, groups) && SharedContainer(ns, GroupOf(groups)) && NoLoops(ns, GroupOf(groups))
    && Built(ns, GroupOf(groups), plan.edges, |ns|, 0)
    && (forall x :: x in plan.nodes <==> IsNode(ns, x) || IsGroup(groups, x))
    && (forall x :: x in plan.nodes ==> (plan.nodes[x].group <==> IsGroup(groups, x)))
    && Shows(RedirectedNodes(GroupOf(groups), ns), groups, plan.nodes)
  }

  /** The edge `e` of a node stands for its relationship `b`, or only for its membership in a group. */
  ghost predicate Stands(ns: seq<NodeDef>, gof: map<Name, Name>, d: PlanEdge, e: (Name, Name), a: int, b: int) {
    && Rel(ns, a, b) && e == Primary(ns, gof, a, b)
    && d == PlanEdge(Redirected(gof, ns[a].id, ns[a].relationships[b]), b)
  }

  lemma EdgeStands(ns: seq<NodeDef>, groups: seq<GroupDef>, plan: PlanGraph, e: (Name, Name))
    requires PlanOf(ns, groups, plan) && e in plan.edges && !IsGroup(groups, e.0)
    ensures plan.edges[e] != GroupEdge(e.1) || !GroupPair(GroupOf(groups), e) ==>
              exists a, b :: Stands(ns, GroupOf(groups), plan.edges[e], e, a, b)
  {
    var gof := GroupOf(groups);
    if !GroupPair(gof, e) {
      var a, b :| Before(ns, |ns|, 0, a, b) &&
        (e == Primary(ns, gof, a, b) || (Lifts(ns, gof, a, b) && e == Lifted(ns, gof, a, b)));
      assert RelationshipIn(ns, gof, plan.edges, a, b);
      if Lifts(ns, gof, a, b) && e == Lifted(ns, gof, a, b) {
        TopIs(gof, gof[ns[a].id]);
        var x :| x in gof && gof[x] == e.0;
        MemberOf(ns, groups, x);
        assert false;
      }
      assert Stands(ns, gof, plan.edges[e], e, a, b);
    } else if plan.edges[e] != GroupEdge(e.1) {
      var a, b :| Before(ns, |ns|, 0, a, b) && Lifts(ns, gof, a, b) && e == Primary(ns, gof, a, b)
        && plan.edges[e] == PlanEdge(Redirected(gof, ns[a].id, ns[a].relationships[b]), b);
      assert Stands(ns, gof, plan.edges[e], e, a, b);
    }
  }

  /** What the edge of a node carries tells whether it leads into a group. */
  lemma EdgeKind(ns: seq<NodeDef>, groups: seq<GroupDef>, plan: PlanGraph, e: (Name, Name))
    requires PlanOf(ns, groups, plan) && e in plan.edges && !IsGroup(groups, e.0)
    ensures plan.edges[e].relationship.target == e.1
    ensures var r := plan.edges[e].relationship;
            && (IsGroup(groups, e.1) <==> r.replaced.Some? || r.typeName == GROUP_CONTAINED_IN)
            && !(r.replaced.Some? && r.typeName == GROUP_CONTAINED_IN)
    ensures IsGroup(groups, e.1) ==> GroupPair(GroupOf(groups), e)
    ensures plan.edges[e].relationship.replaced.Some? ==>
              exists a, b :: Stands(ns, GroupOf(groups), plan.edges[e], e, a, b) && Lifts(ns, GroupOf(groups), a, b)
  {
    var gof := GroupOf(groups);
    EdgeStands(ns, groups, plan, e);
    if plan.edges[e] == GroupEdge(e.1) && GroupPair(gof, e) {
      MemberOf(ns, groups, e.0);
    } else {
      var a, b :| Stands(ns, gof, plan.edges[e], e, a, b);
      assert ValidatedNode(ns, ns[a]);
      assert ValidatedTarget(ns, ns[a].relationships[b]);
      if Lifts(ns, gof, a, b) {
        MemberOf(ns, groups, ns[a].id);
      } else {
        var x :| 0 <= x < |ns| && ns[x].id == e.1;
      }
    }
  }

  /** One step up past a group leaves what comes after the groups the same. */
  lemma AfterGroupsStep(parent: map<Name, Name>, groups: set<Name>, x: Name)
    requires Acyclic(parent) && x in parent
    ensures AfterGroups(Chain(parent, x), groups) ==
            if parent[x] in groups then AfterGroups(Chain(parent, parent[x]), groups) else Some(parent[x])
  {
    RankDrops(parent, x);
    LeadingCons(parent[x], Chain(parent, parent[x]), groups);
  }

  lemma TopStep(gof: map<Name, Name>, g: Name)
    requires Acyclic(gof)
    ensures Top(gof, g) == if g in gof then Top(gof, gof[g]) else g
  {
    if g in gof {
      RankDrops(gof, g);
      assert Path(gof, g) == [g] + Path(gof, gof[g]);
    }
  }

  /** The containers of the plan graph, at a member and at the outermost group. */
  lemma PlanSteps(ns: seq<NodeDef>, groups: seq<GroupDef>, plan: PlanGraph, a: int, b: int, x: Name)
    requires PlanOf(ns, groups, plan) && ValidGraph(plan)
    ensures var gof, parent := GroupOf(groups), ContainedGraph(plan);
            x in gof ==> x in parent && parent[x] == gof[x] && gof[x] in GroupNames(plan)
    ensures var gof, parent := GroupOf(groups), ContainedGraph(plan);
            Lifts(ns, gof, a, b) && x == Lifted(ns, gof, a, b).0 ==>
              && x in parent && parent[x] == ns[a].relationships[b].target
              && parent[x] !in GroupNames(plan)
  {
    var gof, parent := GroupOf(groups), ContainedGraph(plan);
    ValidatedSeparate(ns, groups);
    GraphMapsPlan(ns, gof, plan);
    if x in gof {
      assert PlanContainer(ns, gof, x, gof[x]);
      MemberOf(ns, groups, x);
    }
    if Lifts(ns, gof, a, b) && x == Lifted(ns, gof, a, b).0 {
      var target := ns[a].relationships[b].target;
      assert PlanContainer(ns, gof, x, target);
      assert ValidatedNode(ns, ns[a]) && ValidatedTarget(ns, ns[a].relationships[b]);
      TargetNotGroup(ns, groups, plan, target);
    }
  }

  /** Right above the groups of a redirected relationship's node is the container that it declared. */
  lemma {:induction false} DeclaredAbove(ns: seq<NodeDef>, groups: seq<GroupDef>, plan: PlanGraph, a: int, b: int,
                                         x: Name)
    requires PlanOf(ns, groups, plan) && ValidGraph(plan) && Lifts(ns, GroupOf(groups), a, b)
    requires Top(GroupOf(groups), x) == Lifted(ns, GroupOf(groups), a, b).0
    ensures AfterGroups(Chain(ContainedGraph(plan), x), GroupNames(plan)) == Some(ns[a].relationships[b].target)
    decreases Rank(GroupOf(groups), x)
  {
    var gof, parent := GroupOf(groups), ContainedGraph(plan);
    TopStep(gof, x);
    PlanSteps(ns, groups, plan, a, b, x);
    AfterGroupsStep(parent, GroupNames(plan), x);
    if x in gof {
      RankDrops(gof, x);
      DeclaredAbove(ns, groups, plan, a, b, gof[x]);
    }
  }

  lemma TargetNotGroup(ns: seq<NodeDef>, groups: seq<GroupDef>, plan: PlanGraph, x: Name)
    requires PlanOf(ns, groups, plan) && IsNode(ns, x)
    ensures x in plan.nodes && x !in GroupNames(plan)
  {
    var a :| 0 <= a < |ns| && ns[a].id == x;
  }

  /** Instances and their plan elements start with the same groups. */
  lemma {:induction false} AfterGroupsMap(ids: seq<Id>, names: seq<Name>, node: map<Id, Name>, gi: set<Id>,
                                          gn: set<Name>)
    requires |ids| == |names|
    requires forall k :: 0 <= k < |ids| ==>
      ids[k] in node && node[ids[k]] == names[k] && (ids[k] in gi <==> names[k] in gn)
    ensures |LeadingGroups(ids, gi)| == |LeadingGroups(names, gn)|
    ensures forall k :: 0 <= k < |LeadingGroups(ids, gi)| ==>
              LeadingGroups(ids, gi)[k] in node && node[LeadingGroups(ids, gi)[k]] == LeadingGroups(names, gn)[k]
    ensures AfterGroups(ids, gi).Some? <==> AfterGroups(names, gn).Some?
    ensures AfterGroups(ids, gi).Some? ==>
              AfterGroups(ids, gi).value in node && node[AfterGroups(ids, gi).value] == AfterGroups(names, gn).value
  {
    if ids != [] && ids[0] in gi {
      AfterGroupsMap(ids[1..], names[1..], node, gi, gn);
    }
  }

  /** A fresh deployment of the plan. */
  ghost predicate FreshOf(plan: PlanGraph, c: InstanceGraph, g: InstanceGraph, w: World, s: Inst) {
    && ValidGraph(plan) && w == WorldOf(plan, None, map[]) && Grown(w, s)
    && Represents(c, s) && FreshLabelled(plan, c)
    && Connected(plan, c, g, s, map[], ConnectionEdges(plan))
  }

  /** The containers of an instance and of its node are groups at the same places. */
  lemma ChainFlags(plan: PlanGraph, c: InstanceGraph, w: World, s: Inst, i: Id)
    requires ValidPlan(w) && WellPlaced(w, s) && Acyclic(s.cont) && Represents(c, s) && i in s.node
    requires forall q :: q in c.nodes ==> GroupMarked(plan, c.nodes[q])
    ensures var ids, names := Chain(s.cont, i), Chain(w.parent, s.node[i]);
            |ids| == |names| && forall k :: 0 <= k < |ids| ==>
              ids[k] in s.node && s.node[ids[k]] == names[k] &&
                (ids[k] in GroupInstances(c) <==> names[k] in GroupNames(plan))
  {
    ChainNames(w, s, i);
  }

  /** What holds the groups around an instance instantiates what holds the groups around its node. */
  lemma HolderOf(plan: PlanGraph, c: InstanceGraph, g: InstanceGraph, w: World, s: Inst, i: Id)
    requires FreshOf(plan, c, g, w, s) && i in s.node
    ensures var q := AfterGroups(Chain(s.cont, i), GroupInstances(c));
            var n := AfterGroups(Chain(w.parent, s.node[i]), GroupNames(plan));
            && (q.Some? <==> n.Some?)
            && (q.Some? ==> q.value in Chain(s.cont, i) && q.value in s.node && s.node[q.value] == n.value)
  {
    ChainFlags(plan, c, w, s, i);
    var ids, names := Chain(s.cont, i), Chain(w.parent, s.node[i]);
    AfterGroupsMap(ids, names, s.node, GroupInstances(c), GroupNames(plan));
    LeadingWithin(ids, GroupInstances(c));
  }

  /** The edges of a fresh deployment are copies of the plan edges between the nodes of their ends. */
  ghost predicate CopiesPlan(plan: PlanGraph, g: InstanceGraph, s: Inst, i: Id, t: Id)
    requires (i, t) in g.edges
  {
    && i in s.node && t in s.node && (s.node[i], s.node[t]) in plan.edges
    && g.edges[(i, t)] == Label(plan.edges[(s.node[i], s.node[t])], t)
  }

  lemma ContainedCopies(plan: PlanGraph, c: InstanceGraph, w: World, s: Inst, i: Id, t: Id)
    requires ValidGraph(plan) && w.parent == ContainedGraph(plan) && WellPlaced(w, s)
    requires Represents(c, s) && FreshLabelled(plan, c) && (i, t) in c.edges
    ensures CopiesPlan(plan, c, s, i, t) && i in s.cont && s.cont[i] == t
  {
    assert EdgeLabelled(plan, map[], c, (i, t));
  }

  lemma FreshConnects(plan: PlanGraph, s: Inst, e: (Name, Name), i: Id, t: Id)
    requires ValidGraph(plan) && Acyclic(s.cont) && ConnectedBy(plan, s, map[], e, i, t)
    ensures i in s.node && t in s.node && e == (s.node[i], s.node[t])
  {
  }

  lemma ConnectedCopies(plan: PlanGraph, c: InstanceGraph, g: InstanceGraph, s: Inst, i: Id, t: Id)
    requires ValidGraph(plan) && Acyclic(s.cont) && Connected(plan, c, g, s, map[], ConnectionEdges(plan))
    requires (i, t) in g.edges && (i, t) !in c.edges
    ensures CopiesPlan(plan, g, s, i, t) && ConnectionEdge(plan, (s.node[i], s.node[t]))
  {
    var e :| e in ConnectionEdges(plan) && ConnectedBy(plan, s, map[], e, i, t);
    FreshConnects(plan, s, e, i, t);
  }

  lemma EdgeCopies(plan: PlanGraph, c: InstanceGraph, g: InstanceGraph, w: World, s: Inst, i: Id, t: Id)
    requires FreshOf(plan, c, g, w, s) && (i, t) in g.edges && Unmixed(plan)
    ensures CopiesPlan(plan, g, s, i, t)
    ensures ContainmentEdge(plan, s.node[i], s.node[t]) ==> i in s.cont && s.cont[i] == t
  {
    if (i, t) in c.edges {
      ContainedCopies(plan, c, w, s, i, t);
    } else {
      ConnectedCopies(plan, c, g, s, i, t);
    }
  }

  /** What the plan says about the edges of a node. */
  lemma PlanUnmixed(ns: seq<NodeDef>, groups: seq<GroupDef>, plan: PlanGraph)
    requires PlanOf(ns, groups, plan)
    ensures ValidGraph(plan) && Unmixed(plan)
  {
    BuiltIsValid(ns, groups, plan);
    ValidatedSeparate(ns, groups);
    forall e | e in plan.edges
      ensures !(IsContainment(plan.edges[e].relationship) && IsConnection(plan.edges[e].relationship))
    {
      BuiltUnmixed(ns, GroupOf(groups), plan.edges, e);
    }
  }

  lemma FreshEdgeRecord(ns: seq<NodeDef>, groups: seq<GroupDef>, plan: PlanGraph,
                        c: InstanceGraph, g: InstanceGraph, w: World, s: Inst, i: Id, t: Id)
    requires PlanOf(ns, groups, plan) && FreshOf(plan, c, g, w, s) && Unmixed(plan)
    requires (i, t) in g.edges && i in c.nodes && !c.nodes[i].group
    ensures EdgeRecord(c, g, s, i, t)
  {
    var gof := GroupOf(groups);
    EdgeCopies(plan, c, g, w, s, i, t);
    assert GroupMarked(plan, c.nodes[i]) && GroupMarked(plan, c.nodes[t]);
    var e := (s.node[i], s.node[t]);
    EdgeKind(ns, groups, plan, e);
    if IsGroup(groups, e.1) {
      ValidatedSeparate(ns, groups);
      assert PlanContainer(ns, gof, e.0, e.1);
      ContainmentIsPlan(ns, gof, plan, e.0, e.1);
    }
    if plan.edges[e].relationship.replaced.Some? {
      var a, b :| Stands(ns, gof, plan.edges[e], e, a, b) && Lifts(ns, gof, a, b);
      TopStep(gof, e.0);
      DeclaredAbove(ns, groups, plan, a, b, e.0);
      HolderOf(plan, c, g, w, s, i);
    }
  }

  lemma FreshShape(c: InstanceGraph, g: InstanceGraph, w: World, s: Inst)
    requires ValidPlan(w) && WellPlaced(w, s) && Represents(c, s) && Acyclic(s.cont) && g.nodes == c.nodes
    requires forall p :: p in c.edges ==> p in g.edges
    requires forall i, t :: (i, t) in g.edges && i in c.nodes && !c.nodes[i].group ==> EdgeRecord(c, g, s, i, t)
    ensures Extractable(c, g, s)
  {
    forall i | i in s.cont && !c.nodes[i].group
      ensures (i, s.cont[i]) in g.edges
    {
      assert (i, s.cont[i]) in c.edges;
    }
  }

  lemma FreshExtractable(ns: seq<NodeDef>, groups: seq<GroupDef>, plan: PlanGraph,
                         c: InstanceGraph, g: InstanceGraph, w: World, s: Inst)
    requires PlanOf(ns, groups, plan) && FreshOf(plan, c, g, w, s) && Unmixed(plan)
    ensures Extractable(c, g, s)
  {
    forall i, t | (i, t) in g.edges && i in c.nodes && !c.nodes[i].group
      ensures EdgeRecord(c, g, s, i, t)
    {
      FreshEdgeRecord(ns, groups, plan, c, g, w, s, i, t);
    }
    FreshShape(c, g, w, s);
  }

  /**
    The handed out relationship `r` is the relationship `b` that the plan node `a` declared, between
    real instances.
  */
  ghost predicate AsDeclared(ns: seq<NodeDef>, s: Inst, i: Id, r: RelationshipInstance, a: int, b: int)
    requires Acyclic(s.cont)
  {
    && Rel(ns, a, b) && i in s.node && ns[a].id == s.node[i]
    && r.typeName == ns[a].relationships[b].typeName && r.targetName == ns[a].relationships[b].target
    && !r.replaced
    && r.targetId in s.node && s.node[r.targetId] == r.targetName
    && (IsContained(ns[a].relationships[b]) ==> r.targetId in Chain(s.cont, i))
  }

  /** The target that a redirected relationship is handed out with. */
  lemma HandedLifted(ns: seq<NodeDef>, groups: seq<GroupDef>, plan: PlanGraph,
                     c: InstanceGraph, g: InstanceGraph, w: World, s: Inst, i: Id, a: int, b: int)
    requires PlanOf(ns, groups, plan) && FreshOf(plan, c, g, w, s)
    requires i in s.node && Lifts(ns, GroupOf(groups), a, b) && ns[a].id == s.node[i]
    ensures var q := AfterGroups(Chain(s.cont, i), GroupInstances(c));
            && q.Some? && q.value in Chain(s.cont, i) && q.value in s.node
            && s.node[q.value] == ns[a].relationships[b].target
  {
    ValidatedSeparate(ns, groups);
    TopStep(GroupOf(groups), s.node[i]);
    DeclaredAbove(ns, groups, plan, a, b, s.node[i]);
    HolderOf(plan, c, g, w, s, i);
  }

  /** The plan relationship that the edge of a handed out relationship stands for. */
  lemma EdgeDeclared(ns: seq<NodeDef>, groups: seq<GroupDef>, plan: PlanGraph,
                     c: InstanceGraph, g: InstanceGraph, w: World, s: Inst, i: Id, t: Id)
    returns (a: int, b: int)
    requires PlanOf(ns, groups, plan) && FreshOf(plan, c, g, w, s) && Unmixed(plan)
    requires (i, t) in g.edges && i in c.nodes && !c.nodes[i].group && !IsGroupEdge(g.edges[(i, t)])
    ensures CopiesPlan(plan, g, s, i, t) && Rel(ns, a, b)
    ensures Stands(ns, GroupOf(groups), plan.edges[(s.node[i], s.node[t])], (s.node[i], s.node[t]), a, b)
    ensures ContainmentEdge(plan, s.node[i], s.node[t]) ==> i in s.cont && s.cont[i] == t
  {
    EdgeCopies(plan, c, g, w, s, i, t);
    assert GroupMarked(plan, c.nodes[i]);
    var e := (s.node[i], s.node[t]);
    EdgeKind(ns, groups, plan, e);
    EdgeStands(ns, groups, plan, e);
    a, b :| Stands(ns, GroupOf(groups), plan.edges[e], e, a, b);
  }

  lemma FirstOnChain(cont: map<Id, Id>, i: Id, t: Id)
    requires Acyclic(cont) && i in cont && cont[i] == t
    ensures t in Chain(cont, i)
  {
  }

  /** A copy of a redirected relationship is handed out as the declared one. */
  lemma CopyAsDeclared(ns: seq<NodeDef>, gof: map<Name, Name>, c: InstanceGraph, s: Inst, i: Id, t: Id,
                       r: RelationshipInstance, a: int, b: int)
    requires Acyclic(s.cont) && Represents(c, s) && Rel(ns, a, b) && ns[a].relationships[b].replaced.None?
    requires i in s.node && t in s.node && Primary(ns, gof, a, b) == (s.node[i], s.node[t])
    requires r == RelationshipCopy(Redirected(gof, ns[a].id, ns[a].relationships[b]), t)
    requires !Lifts(ns, gof, a, b) && IsContained(ns[a].relationships[b]) ==> t in Chain(s.cont, i)
    requires Lifts(ns, gof, a, b) ==>
      var q := AfterGroups(Chain(s.cont, i), GroupInstances(c));
      && q.Some? && q.value in Chain(s.cont, i) && q.value in s.node
      && s.node[q.value] == ns[a].relationships[b].target
    ensures AsDeclared(ns, s, i, Handed(c, s, i, r), a, b)
  {
  }

  /**
    Whatever groups stand in between, each relationship handed out for an instance names what the plan
    declared, and a contained_in points at the instance that really holds it.
  */
  lemma HandedAsDeclared(ns: seq<NodeDef>, groups: seq<GroupDef>, plan: PlanGraph,
                         c: InstanceGraph, g: InstanceGraph, w: World, s: Inst, i: Id, t: Id)
    requires PlanOf(ns, groups, plan) && FreshOf(plan, c, g, w, s) && Unmixed(plan)
    requires (i, t) in g.edges && i in c.nodes && !c.nodes[i].group && !IsGroupEdge(g.edges[(i, t)])
    requires g.edges[(i, t)].relationship.Some?
    ensures exists a, b :: b == g.edges[(i, t)].index &&
              AsDeclared(ns, s, i, Handed(c, s, i, g.edges[(i, t)].relationship.value), a, b)
  {
    var a, b := EdgeDeclared(ns, groups, plan, c, g, w, s, i, t);
    assert ValidatedNode(ns, ns[a]) && ValidatedTarget(ns, ns[a].relationships[b]);
    if Lifts(ns, GroupOf(groups), a, b) {
      HandedLifted(ns, groups, plan, c, g, w, s, i, a, b);
    } else if IsContained(ns[a].relationships[b]) {
      PlainContainment(ns, a, b);
      FirstOnChain(s.cont, i, t);
    }
    CopyAsDeclared(ns, GroupOf(groups), c, s, i, t, g.edges[(i, t)].relationship.value, a, b);
  }
}
