/**
  Creating a deployment: from the plan's nodes and scaling groups to its node instances.
*/
module MultiInstance {
  import opened Names
  import opened Forests
  import opened Graphs
  import opened Growth
  import opened Expansion
  import opened PlanBuilder
  import opened Deployments
  import opened Partition
  import opened Connections
  import opened Wiring
  import opened Extraction
  import opened Transparency

  /** The node instances handed out for a fresh deployment of the plan. */
  ghost predicate DeploymentOf(ns: seq<NodeDef>, groups: seq<GroupDef>, plan: PlanGraph, c: InstanceGraph,
                               g: InstanceGraph, w: World, s: Inst, instances: seq<Stored>)
  {
    && PlanOf(ns, groups, plan) && FreshOf(plan, c, g, w, s) && Extractable(c, g, s)
    && (forall k :: 0 <= k < |instances| ==> Extracted(c, g, s, instances[k]))
    && (forall k, m :: 0 <= k < m < |instances| ==> instances[k].id != instances[m].id)
    && (forall i :: i in c.nodes && !c.nodes[i].group ==> exists k :: 0 <= k < |instances| && instances[k].id == i)
  }

  /** Redirection keeps the names, so the graph's nodes are those of the plan and its groups. */
  lemma RedirectedNames(ns: seq<NodeDef>, groups: seq<GroupDef>, m: map<Name, PlanNode>)
    requires OwnNames(ns, groups) && Shows(RedirectedNodes(GroupOf(groups), ns), groups, m)
    ensures forall x :: x in m <==> IsNode(ns, x) || IsGroup(groups, x)
    ensures forall x :: x in m ==> (m[x].group <==> IsGroup(groups, x))
  {
    var redirected := RedirectedNodes(GroupOf(groups), ns);
    forall x ensures IsNode(redirected, x) <==> IsNode(ns, x) {
      if i :| 0 <= i < |ns| && ns[i].id == x {
        assert redirected[i].id == x;
      }
    }
    forall x | x in m ensures m[x].group <==> IsGroup(groups, x) {
      if i :| 0 <= i < |redirected| && redirected[i].id == x {
        assert m[x] == NodeOf(redirected[i]) && redirected[i].id == ns[i].id;
      }
    }
  }

  /** The plan graph; the nodes it was built from are the builder's, with relationships redirected. */
  method BuildPlan(nodes: seq<NodeDef>, groups: seq<GroupDef>) returns (builder: Builder)
    requires Validated(nodes, groups) && SharedContainer(nodes, GroupOf(groups)) && NoLoops(nodes, GroupOf(groups))
    ensures fresh(builder) && builder.groups == groups && builder.nodes == RedirectedNodes(GroupOf(groups), nodes)
    ensures OwnNames(builder.nodes, groups) && Shows(builder.nodes, groups, builder.graph.nodes)
    ensures PlanOf(nodes, groups, builder.graph) && ValidGraph(builder.graph) && Unmixed(builder.graph)
  {
    builder := new Builder(nodes, groups);
    builder.BuildNodeGraph();
    RedirectedNames(nodes, groups, builder.graph.nodes);
    PlanUnmixed(nodes, groups, builder.graph);
  }

  /**
    Expands a validated plan into node instances. The plan's nodes come back as they were, whatever
    the expansion did to their relationships in between.
  */
  method CreateDeploymentPlan(nodes: seq<NodeDef>, groups: seq<GroupDef>)
    returns (fault: Option<Fault>, restored: seq<NodeDef>, instances: seq<Stored>,
             ghost plan: PlanGraph, ghost c: InstanceGraph, ghost g: InstanceGraph, ghost w: World, ghost s: Inst)
    requires Validated(nodes, groups) && SharedContainer(nodes, GroupOf(groups)) && NoLoops(nodes, GroupOf(groups))
    requires forall i, k :: Rel(nodes, i, k) ==> nodes[i].relationships[k].target != ""
    ensures PlanOf(nodes, groups, plan) && ValidGraph(plan) && Acyclic(s.cont)
    ensures fault.None? <==> Supported(plan) && NoFault(plan, s, map[], ConnectionEdges(plan))
    ensures fault.None? ==> restored == nodes
    ensures fault.None? ==> DeploymentOf(nodes, groups, plan, c, g, w, s, instances)
    ensures MapsPlan(nodes, GroupOf(groups), ContainedGraph(plan))
    ensures fault.None? ==> CountsAsDeclared(nodes, groups, ContainedGraph(plan), instances)
  {
    var builder := BuildPlan(nodes, groups);
    plan := builder.graph;
    var graph, contained;
    fault, graph, contained, w, s := BuildFreshDeployment(builder.graph);
    g, c := graph, contained;
    instances := [];
    restored := builder.nodes;
    ValidatedSeparate(nodes, groups);
    GraphMapsPlan(nodes, GroupOf(groups), plan);
    if fault.None? {
      builder.RestorePlanNodeGraph();
      restored := builder.nodes;
      RestoredPlan(nodes, groups, restored);
      assert FreshOf(plan, c, g, w, s);
      FreshExtractable(nodes, groups, plan, c, g, w, s);
      instances := ExtractNodeInstances(contained, graph, s);
      AllCounted(nodes, groups, plan, c, g, w, s, instances);
    }
  }

  lemma RestoredPlan(nodes: seq<NodeDef>, groups: seq<GroupDef>, restored: seq<NodeDef>)
    requires Validated(nodes, groups) && |restored| == |nodes|
    requires forall i, k :: Rel(nodes, i, k) ==> nodes[i].relationships[k].target != ""
    requires forall i :: 0 <= i < |nodes| ==> restored[i] == RestoredNode(RedirectedNodes(GroupOf(groups), nodes)[i])
    ensures restored == nodes
  {
    forall i | 0 <= i < |nodes|
      ensures restored[i] == nodes[i]
    {
      forall k | 0 <= k < |nodes[i].relationships|
        ensures nodes[i].relationships[k].replaced.None? && nodes[i].relationships[k].target != ""
      {
        assert Rel(nodes, i, k) && ValidatedNode(nodes, nodes[i]) && ValidatedTarget(nodes, nodes[i].relationships[k]);
      }
      RestoreUndoesAll(GroupOf(groups), nodes, i);
    }
  }

  // ---------- how many instances are handed out ----------

  /** The number of instances that the plan declares for a node or group. */
  ghost function DeclaredCount(ns: seq<NodeDef>, groups: seq<GroupDef>, x: Name): int
    requires IsNode(ns, x) || IsGroup(groups, x)
  {
    if IsNode(ns, x) then
      var i :| 0 <= i < |ns| && ns[i].id == x;
      ns[i].current
    else
      var j :| 0 <= j < |groups| && groups[j].name == x;
      groups[j].current
  }

  /** The product of the declared numbers over `x` and everything that contains it; a negative number counts as none. */
  ghost function DeclaredProduct(ns: seq<NodeDef>, groups: seq<GroupDef>, parent: map<Name, Name>, x: Name): nat
    requires Acyclic(parent) && (IsNode(ns, x) || IsGroup(groups, x))
    requires ParentsKnownTo(ns, groups, parent)
    decreases Rank(parent, x)
  {
    var own := NonNegative(DeclaredCount(ns, groups, x));
    if x in parent then
      RankDrops(parent, x);
      DeclaredProduct(ns, groups, parent, parent[x]) * own
    else
      own
  }

  ghost predicate ParentsKnownTo(ns: seq<NodeDef>, groups: seq<GroupDef>, parent: map<Name, Name>) {
    forall y :: y in parent ==> IsNode(ns, parent[y]) || IsGroup(groups, parent[y])
  }

  /** As many instances are handed out for each node as the numbers declared on its path multiply to. */
  ghost predicate CountsAsDeclared(ns: seq<NodeDef>, groups: seq<GroupDef>, parent: map<Name, Name>,
                                   instances: seq<Stored>) {
    && Acyclic(parent) && ParentsKnownTo(ns, groups, parent)
    && forall n :: IsNode(ns, n) ==> |InstancesFor(instances, n)| == DeclaredProduct(ns, groups, parent, n)
  }

  lemma ShownCount(ns: seq<NodeDef>, groups: seq<GroupDef>, plan: PlanGraph, x: Name)
    requires PlanOf(ns, groups, plan) && x in plan.nodes
    ensures plan.nodes[x].current == DeclaredCount(ns, groups, x)
  {
    var redirected := RedirectedNodes(GroupOf(groups), ns);
    if i :| 0 <= i < |ns| && ns[i].id == x {
      assert plan.nodes[redirected[i].id] == NodeOf(redirected[i]);
    } else {
      var j :| 0 <= j < |groups| && groups[j].name == x;
      assert plan.nodes[groups[j].name] == GroupNodeOf(groups[j]);
    }
  }

  lemma ParentsKnown(ns: seq<NodeDef>, groups: seq<GroupDef>, plan: PlanGraph)
    requires PlanOf(ns, groups, plan) && ValidGraph(plan)
    ensures ParentsKnownTo(ns, groups, ContainedGraph(plan))
  {
    forall y | y in ContainedGraph(plan) ensures ContainedGraph(plan)[y] in plan.nodes {
      assert ContainmentEdge(plan, y, ContainedGraph(plan)[y]);
    }
  }

  lemma {:induction false} ProductDeclared(ns: seq<NodeDef>, groups: seq<GroupDef>, plan: PlanGraph, w: World, n: Name)
    requires PlanOf(ns, groups, plan) && ValidGraph(plan) && w == WorldOf(plan, None, map[]) && ValidPlan(w)
    requires n in plan.nodes
    requires ParentsKnownTo(ns, groups, w.parent)
    ensures Product(w, n) == DeclaredProduct(ns, groups, w.parent, n)
    decreases Rank(w.parent, n)
  {
    ShownCount(ns, groups, plan, n);
    if n in w.parent {
      RankDrops(w.parent, n);
      ProductDeclared(ns, groups, plan, w, w.parent[n]);
    }
  }

  /** The places of the instances of `n` among those handed out. */
  ghost function InstancesFor(instances: seq<Stored>, n: Name): set<nat> {
    set k: nat | k < |instances| && instances[k].name == n
  }

  lemma {:induction false} SameSize(instances: seq<Stored>, ks: set<nat>, ids: set<Id>)
    requires forall k: nat :: k in ks ==> k < |instances| && instances[k].id in ids
    requires forall k: nat, m: nat :: k in ks && m in ks && k != m ==> instances[k].id != instances[m].id
    requires forall i :: i in ids ==> exists k: nat :: k in ks && instances[k].id == i
    ensures |ks| == |ids|
    decreases ks
  {
    if ks == {} {
      assert ids == {};
    } else {
      var k: nat :| k in ks;
      SameSize(instances, ks - {k}, ids - {instances[k].id});
    }
  }

  /** Each of the instances instantiates the node that it names, and each instance of `n` is among them once. */
  ghost predicate ListsAll(instances: seq<Stored>, s: Inst, n: Name) {
    && (forall k :: 0 <= k < |instances| ==> instances[k].id in s.node && s.node[instances[k].id] == instances[k].name)
    && (forall k, m :: 0 <= k < m < |instances| ==> instances[k].id != instances[m].id)
    && (forall i :: i in InstancesOf(s, n) ==> exists k :: 0 <= k < |instances| && instances[k].id == i)
  }

  lemma ListedCount(instances: seq<Stored>, s: Inst, n: Name)
    requires ListsAll(instances, s, n)
    ensures |InstancesFor(instances, n)| == |InstancesOf(s, n)|
  {
    SameSize(instances, InstancesFor(instances, n), InstancesOf(s, n));
  }

  /** Each instance of a node is handed out once. */
  lemma EachHandedOnce(ns: seq<NodeDef>, groups: seq<GroupDef>, plan: PlanGraph, c: InstanceGraph, g: InstanceGraph,
                       w: World, s: Inst, instances: seq<Stored>, n: Name)
    requires DeploymentOf(ns, groups, plan, c, g, w, s, instances) && n in plan.nodes && !plan.nodes[n].group
    ensures ListsAll(instances, s, n)
  {
    forall i | i in InstancesOf(s, n) ensures exists k :: 0 <= k < |instances| && instances[k].id == i {
      assert GroupMarked(plan, c.nodes[i]);
    }
    assert forall k :: 0 <= k < |instances| ==> Extracted(c, g, s, instances[k]);
  }

  /** So as many are handed out as the plan declares. */
  lemma HandedCount(ns: seq<NodeDef>, groups: seq<GroupDef>, plan: PlanGraph, c: InstanceGraph, g: InstanceGraph,
                    w: World, s: Inst, instances: seq<Stored>, n: Name)
    requires DeploymentOf(ns, groups, plan, c, g, w, s, instances) && IsNode(ns, n)
    ensures ParentsKnownTo(ns, groups, ContainedGraph(plan))
    ensures |InstancesFor(instances, n)| == DeclaredProduct(ns, groups, ContainedGraph(plan), n)
  {
    ParentsKnown(ns, groups, plan);
    TargetNotGroup(ns, groups, plan, n);
    EachHandedOnce(ns, groups, plan, c, g, w, s, instances, n);
    ListedCount(instances, s, n);
    ProductDeclared(ns, groups, plan, w, n);
    FreshCount(w, s, n);
  }

  lemma AllCounted(ns: seq<NodeDef>, groups: seq<GroupDef>, plan: PlanGraph, c: InstanceGraph, g: InstanceGraph,
                   w: World, s: Inst, instances: seq<Stored>)
    requires DeploymentOf(ns, groups, plan, c, g, w, s, instances)
    ensures CountsAsDeclared(ns, groups, ContainedGraph(plan), instances)
  {
    ParentsKnown(ns, groups, plan);
    forall n | IsNode(ns, n)
      ensures |InstancesFor(instances, n)| == DeclaredProduct(ns, groups, ContainedGraph(plan), n)
    {
      HandedCount(ns, groups, plan, c, g, w, s, instances, n);
    }
  }
}
