/**
  Modifying a stored deployment: its graph is built back from the stored instances, expanded and
  wired anew, and compared with what was there before.
*/
module Redeployment {
  import opened Names
  import opened Forests
  import opened Graphs
  import opened Growth
  import opened Expansion
  import opened PlanBuilder
  import opened Deployments
  import opened Connections
  import opened Wiring
  import opened Modifications
  import opened Extraction
  import opened Transparency
  import opened MultiInstance
  import opened RoundTrip
  import GraphDiff

  /** `instances` are the stored node instances of the deployment with the graph `g`. */
  ghost predicate StoredDeployment(plan: PlanGraph, c: InstanceGraph, g: InstanceGraph, s: Inst,
                                   instances: seq<Stored>) {
    Recognizable(plan, c, g, s) && HandsOut(c, g, s, instances) && forall e :: e in c.edges ==> e in g.edges
  }

  /** In the new plan groups are still groups, and nothing is contained in what it was only connected to. */
  ghost predicate CarriesOver(plan: PlanGraph, c: InstanceGraph, g: InstanceGraph) {
    && (forall i :: i in c.nodes && c.nodes[i].name in plan.nodes ==> GroupMarked(plan, c.nodes[i]))
    && (forall i: Id, t: Id :: (i, t) in g.edges && (i, t) !in c.edges && i in c.nodes && t in c.nodes ==>
          !ContainmentEdge(plan, c.nodes[i].name, c.nodes[t].name))
  }

  /** What is built back from the stored instances: the parts of all of them, with their records. */
  ghost predicate BuiltBack(plan: PlanGraph, instances: seq<Stored>, parts: seq<Rebuilt>, b: Previous) {
    PartsOf(plan, instances, parts) && Outline(b) == JoinAll(parts)
    && FromInstances(plan, instances, |instances|, b.graph)
  }

  // ---------- the graph that is built back ----------

  lemma GroupsAt(c: InstanceGraph, s: Inst, x: Id, k: nat)
    requires Acyclic(s.cont) && (forall i :: i in s.cont ==> s.cont[i] in c.nodes) && k < |GroupsOf(c, s, x)|
    ensures var q := GroupsOf(c, s, x)[k].1;
      q in c.nodes && c.nodes[q].group && GroupsOf(c, s, x)[k].0 == c.nodes[q].name
  {
    var ids := LeadingGroups(Chain(s.cont, x), GroupInstances(c));
    LeadingWithin(Chain(s.cont, x), GroupInstances(c));
    assert ids[k] in ids;
  }

  lemma NodeAlike(plan: PlanGraph, c: InstanceGraph, s: Inst, x: Stored, q: Id, node: InstanceNode)
    requires Acyclic(s.cont) && (forall i :: i in s.cont ==> s.cont[i] in c.nodes)
    requires x.id in c.nodes && !c.nodes[x.id].group && x.name == c.nodes[x.id].name && x.groups == GroupsOf(c, s, x.id)
    requires NodeFrom(plan, x, q, node)
    ensures q in c.nodes && node.name == c.nodes[q].name && node.group == c.nodes[q].group
  {
    if m :| 0 <= m < |x.groups| && x.groups[m].1 == q && node == GroupBack(x.groups[m].0) {
      GroupsAt(c, s, x.id, m);
    }
  }

  /** Its nodes are those of the deployment. */
  lemma NodesAlike(plan: PlanGraph, c: InstanceGraph, g: InstanceGraph, s: Inst, instances: seq<Stored>,
                   parts: seq<Rebuilt>, b: Previous, q: Id)
    requires StoredDeployment(plan, c, g, s, instances) && BuiltBack(plan, instances, parts, b) && q in b.graph.nodes
    ensures q in c.nodes && b.graph.nodes[q].name == c.nodes[q].name && b.graph.nodes[q].group == c.nodes[q].group
  {
    assert NodeFromAny(plan, instances, |instances|, q, b.graph.nodes[q]);
    var k :| 0 <= k < |instances| && NodeFrom(plan, instances[k], q, b.graph.nodes[q]);
    assert Extracted(c, g, s, instances[k]);
    NodeAlike(plan, c, s, instances[k], q, b.graph.nodes[q]);
  }

  /** What a group instance recorded on `i` is held by is there as well. */
  lemma HolderRecorded(c: InstanceGraph, g: InstanceGraph, s: Inst, i: Id, q: Id)
    requires Extractable(c, g, s) && i in c.nodes && !c.nodes[i].group
    requires q == i || q in LeadingGroups(Chain(s.cont, i), GroupInstances(c))
    requires q in s.cont
    ensures exists j :: Records(c, s, j, s.cont[q])
  {
    var up, t := LeadingGroups(Chain(s.cont, i), GroupInstances(c)), s.cont[q];
    if !c.nodes[t].group {
      assert Records(c, s, t, t);
    } else {
      if q == i {
        LeadingStep(c, s, i);
      } else {
        NextGroup(s.cont, GroupInstances(c), i, q);
        var k :| 0 <= k < |up| - 1 && up[..|up| - 1][k] == q;
        LeadingWithin(Chain(s.cont, i), GroupInstances(c));
        ChainNext(s.cont, i, k);
        assert up[k + 1] == t;
      }
      assert Records(c, s, i, t);
    }
  }

  /** Both ends of an edge of the deployment come back if the edge does. */
  lemma EndsRecorded(plan: PlanGraph, c: InstanceGraph, g: InstanceGraph, s: Inst, instances: seq<Stored>, a: Id, b: Id)
    requires StoredDeployment(plan, c, g, s, instances)
    requires ((a, b) in g.edges && a in c.nodes && !c.nodes[a].group) ||
             (a in s.cont && s.cont[a] == b && exists i :: Carries(c, g, s, i, a))
    ensures (exists i :: Records(c, s, i, a)) && (exists i :: Records(c, s, i, b))
  {
    if (a, b) in g.edges && a in c.nodes && !c.nodes[a].group {
      assert Records(c, s, a, a);
      assert EdgeRecord(c, g, s, a, b);
      if c.nodes[b].group {
        HolderRecorded(c, g, s, a, a);
      } else {
        assert Records(c, s, b, b);
      }
    } else {
      var i :| Carries(c, g, s, i, a);
      assert Records(c, s, i, a);
      HolderRecorded(c, g, s, i, a);
    }
  }

  /** Its edges are edges of the deployment, between nodes that come back, each with its record. */
  lemma EdgesAlike(plan: PlanGraph, c: InstanceGraph, g: InstanceGraph, s: Inst, instances: seq<Stored>,
                   parts: seq<Rebuilt>, b: Previous, e: (Id, Id))
    requires StoredDeployment(plan, c, g, s, instances) && BuiltBack(plan, instances, parts, b) && e in b.graph.edges
    ensures e.0 in b.graph.nodes && e.1 in b.graph.nodes
    ensures e in c.edges || (e in g.edges && e.0 in c.nodes && !c.nodes[e.0].group)
  {
    assert e == (e.0, e.1);
    assert e in JoinAll(parts).edges;
    RebuiltExactly(plan, c, g, s, instances, parts, e.0, e.1);
    EndsRecorded(plan, c, g, s, instances, e.0, e.1);
    NodesBack(plan, c, g, s, instances, parts, e.0);
    NodesBack(plan, c, g, s, instances, parts, e.1);
    assert JoinAll(parts).nodes == b.graph.nodes.Keys;
  }

  lemma RecordAlike(plan: PlanGraph, instances: seq<Stored>, parts: seq<Rebuilt>, b: Previous, e: (Id, Id))
    requires BuiltBack(plan, instances, parts, b) && e in b.graph.edges
    ensures b.graph.edges[e].relationship.Some? && b.graph.edges[e].relationship.value.targetId == e.1
  {
    assert EdgeFromAny(plan, instances, |instances|, e, b.graph.edges[e]);
  }

  lemma BackRecorded(plan: PlanGraph, c: InstanceGraph, g: InstanceGraph, s: Inst, instances: seq<Stored>,
                     parts: seq<Rebuilt>, b: Previous)
    requires StoredDeployment(plan, c, g, s, instances) && BuiltBack(plan, instances, parts, b)
    ensures WellRecorded(b.graph)
  {
    forall e | e in b.graph.edges
      ensures EdgeRecorded(b.graph, e)
    {
      EdgesAlike(plan, c, g, s, instances, parts, b, e);
      RecordAlike(plan, instances, parts, b, e);
    }
  }

  /** What a previous instance is placed in, by the new plan, is what held it. */
  lemma BackPlaced(plan: PlanGraph, next: PlanGraph, modified: map<Name, Modification>,
                   c: InstanceGraph, g: InstanceGraph, s: Inst, instances: seq<Stored>,
                   parts: seq<Rebuilt>, b: Previous, i: Id, p: Id)
    requires StoredDeployment(plan, c, g, s, instances) && BuiltBack(plan, instances, parts, b)
    requires ValidGraph(next) && CarriesOver(next, c, g)
    requires PlacedIn(WorldOf(next, Some(b.graph), modified), i, p)
    ensures i in s.cont && s.cont[i] == p
  {
    EdgesAlike(plan, c, g, s, instances, parts, b, (i, p));
    NodesAlike(plan, c, g, s, instances, parts, b, i);
    NodesAlike(plan, c, g, s, instances, parts, b, p);
    assert ContainmentEdge(next, c.nodes[i].name, c.nodes[p].name);
  }

  /** The graph that is built back is one that a modification can start from. */
  lemma BackIsPrevious(plan: PlanGraph, next: PlanGraph, modified: map<Name, Modification>,
                       c: InstanceGraph, g: InstanceGraph, s: Inst, instances: seq<Stored>,
                       parts: seq<Rebuilt>, b: Previous)
    requires StoredDeployment(plan, c, g, s, instances) && BuiltBack(plan, instances, parts, b)
    requires ValidGraph(next) && CarriesOver(next, c, g)
    ensures ValidPrevious(WorldOf(next, Some(b.graph), modified))
    ensures WellRecorded(b.graph) && MarkedAlike(next, b.graph)
  {
    var w := WorldOf(next, Some(b.graph), modified);
    BackRecorded(plan, c, g, s, instances, parts, b);
    forall e | e in w.prevEdges
      ensures e.0 in w.prevNode && e.1 in w.prevNode
    {
      assert EdgeRecorded(b.graph, e);
    }
    forall i, p, q | PlacedIn(w, i, p) && PlacedIn(w, i, q)
      ensures p == q
    {
      BackPlaced(plan, next, modified, c, g, s, instances, parts, b, i, p);
      BackPlaced(plan, next, modified, c, g, s, instances, parts, b, i, q);
    }
    forall i | i in b.graph.nodes && b.graph.nodes[i].name in next.nodes
      ensures GroupMarked(next, b.graph.nodes[i])
    {
      NodesAlike(plan, c, g, s, instances, parts, b, i);
      assert GroupMarked(next, c.nodes[i]);
    }
  }

  /** Its node instances record the group instances that are really around them, and nothing else does record any. */
  lemma MembersBack(plan: PlanGraph, c: InstanceGraph, g: InstanceGraph, s: Inst, instances: seq<Stored>,
                    parts: seq<Rebuilt>, b: Previous, h: Id, q: Id)
    requires StoredDeployment(plan, c, g, s, instances) && BuiltBack(plan, instances, parts, b)
    requires h in b.graph.nodes
    ensures h in c.nodes
    ensures (exists k :: 0 <= k < |b.graph.nodes[h].groups| && b.graph.nodes[h].groups[k].1 == q) <==>
      !c.nodes[h].group && q in LeadingGroups(Chain(s.cont, h), GroupInstances(c))
  {
    NodesAlike(plan, c, g, s, instances, parts, b, h);
    assert NodeFromAny(plan, instances, |instances|, h, b.graph.nodes[h]);
    var m :| 0 <= m < |instances| && NodeFrom(plan, instances[m], h, b.graph.nodes[h]);
    assert Extracted(c, g, s, instances[m]);
    RecordedGroups(plan, c, s, instances[m], h, b.graph.nodes[h], q);
  }

  lemma RecordedGroups(plan: PlanGraph, c: InstanceGraph, s: Inst, x: Stored, h: Id, node: InstanceNode, q: Id)
    requires Acyclic(s.cont) && (forall i :: i in s.cont ==> s.cont[i] in c.nodes)
    requires x.id in c.nodes && !c.nodes[x.id].group && x.groups == GroupsOf(c, s, x.id)
    requires NodeFrom(plan, x, h, node)
    ensures h in c.nodes
    ensures (exists k :: 0 <= k < |node.groups| && node.groups[k].1 == q) <==>
      !c.nodes[h].group && q in LeadingGroups(Chain(s.cont, h), GroupInstances(c))
  {
    var ids := LeadingGroups(Chain(s.cont, x.id), GroupInstances(c));
    if h == x.id && node == InstanceBack(plan, x) {
      if q in ids {
        var k :| 0 <= k < |ids| && ids[k] == q;
        assert x.groups[k].1 == q;
      }
    } else {
      var k :| 0 <= k < |x.groups| && x.groups[k].1 == h && node == GroupBack(x.groups[k].0);
      GroupsAt(c, s, x.id, k);
    }
  }

  // ---------- the modification ----------

  /** A graph as the comparison sees it: an edge brings its ends along, even if they are not instances any more. */
  ghost predicate Shown(g: InstanceGraph, d: GraphDiff.Digraph) {
    && d.nodes.Keys == g.nodes.Keys + GraphDiff.Ends(g.edges.Keys)
    && d.edges == g.edges.Keys && GraphDiff.Unmarked(d)
  }

  method AsDigraph(g: InstanceGraph) returns (d: GraphDiff.Digraph)
    ensures Shown(g, d)
  {
    var ends := (set e | e in g.edges :: e.0) + (set e | e in g.edges :: e.1);
    assert ends == GraphDiff.Ends(g.edges.Keys);
    d := GraphDiff.Digraph(map n | n in g.nodes.Keys + ends :: None, g.edges.Keys);
  }

  /** The report says exactly what changed between the two graphs. */
  ghost predicate Reports(before: InstanceGraph, after: InstanceGraph, r: GraphDiff.Report) {
    exists d, d' :: Shown(before, d) && Shown(after, d') && GraphDiff.ExactMarks(d, d', r)
      && GraphDiff.ExactEdges(d, d', r) && GraphDiff.PatchedNodes(d, r) == d'.nodes.Keys &&
        GraphDiff.PatchedEdges(d, r) == d'.edges
  }

  method Compare(before: InstanceGraph, after: InstanceGraph) returns (r: GraphDiff.Report)
    ensures Reports(before, after, r)
  {
    var d := AsDigraph(before);
    var d' := AsDigraph(after);
    r := GraphDiff.ModifyDeployment(d, d');
  }

  /** All nodes of the parts that show what `g` has and `h` has not are instances of `g`, and have their data. */
  ghost predicate Readable(g: InstanceGraph, h: InstanceGraph) {
    exists d, d' :: Shown(g, d) && Shown(h, d') && GraphDiff.PartNodes(d, d') <= g.nodes.Keys
  }

  /** No edge that `g` has and `h` has not ends where there is no instance. */
  ghost predicate NewEdgesEnd(g: InstanceGraph, h: InstanceGraph) {
    forall e :: e in g.edges && e !in h.edges ==> e.0 in g.nodes && e.1 in g.nodes
  }

  lemma ReadableAs(g: InstanceGraph, h: InstanceGraph, d: GraphDiff.Digraph, d': GraphDiff.Digraph)
    requires Shown(g, d) && Shown(h, d')
    ensures GraphDiff.PartNodes(d, d') <= g.nodes.Keys <==> NewEdgesEnd(g, h)
  {
    GraphDiff.PartNodesAre(d, d');
    if NewEdgesEnd(g, h) {
      forall n | n in GraphDiff.PartNodes(d, d') ensures n in g.nodes {
        GraphDiff.InEnds(d.edges - d'.edges, n);
        GraphDiff.InEnds(d.edges, n);
        GraphDiff.InEnds(d'.edges, n);
      }
    } else {
      var e :| e in g.edges && e !in h.edges && !(e.0 in g.nodes && e.1 in g.nodes);
      GraphDiff.InEnds(d.edges - d'.edges, e.0);
      GraphDiff.InEnds(d.edges - d'.edges, e.1);
    }
  }

  /**
    So these parts of a report can be read exactly if the edges that are new lead from instances to
    instances: the first of them that does not makes reading fail for lack of the instance's data.
  */
  lemma ReadableExactly(g: InstanceGraph, h: InstanceGraph)
    ensures Readable(g, h) <==> NewEdgesEnd(g, h)
  {
    var d, d' := DigraphOf(g), DigraphOf(h);
    ReadableAs(g, h, d, d');
    if Readable(g, h) {
      var a, b :| Shown(g, a) && Shown(h, b) && GraphDiff.PartNodes(a, b) <= g.nodes.Keys;
      ReadableAs(g, h, a, b);
    }
  }

  ghost function DigraphOf(g: InstanceGraph): (d: GraphDiff.Digraph)
    ensures Shown(g, d)
  {
    GraphDiff.Digraph(map n | n in g.nodes.Keys + GraphDiff.Ends(g.edges.Keys) :: None, g.edges.Keys)
  }

  /** Building back the stored instances of a deployment. */
  method BuildBack(plan: PlanGraph, instances: seq<Stored>, ghost c: InstanceGraph, ghost g: InstanceGraph,
                   ghost s: Inst)
    returns (b: Previous)
    requires StoredDeployment(plan, c, g, s, instances)
    ensures exists parts :: BuiltBack(plan, instances, parts, b)
  {
    var r;
    ghost var parts;
    r, parts := BuildPreviousDeploymentNodeGraph(plan, instances);
    if r.None? {
      NeverRaises(plan, c, g, s, instances, |parts|);
    }
    b := r.value;
    assert BuiltBack(plan, instances, parts, b);
  }

  /** The report of the differences, if the modification ends with a graph. */
  ghost predicate ReportsOutcome(before: InstanceGraph, outcome: Outcome, report: Option<GraphDiff.Report>) {
    if outcome.Built? then report.Some? && Reports(before, outcome.graph, report.value) else report.None?
  }

  method ReportOf(before: InstanceGraph, outcome: Outcome) returns (report: Option<GraphDiff.Report>)
    ensures ReportsOutcome(before, outcome, report)
  {
    report := None;
    if outcome.Built? {
      var r := Compare(before, outcome.graph);
      report := Some(r);
    }
  }

  /**
    From the stored instances, the plan graph they were handed out under and the new one, to what is built
    back, the new graph, and the report.
  */
  ghost predicate Redeployed(plan: PlanGraph, next: PlanGraph, instances: seq<Stored>,
                             modified: map<Name, Modification>,
                             b: Previous, outcome: Outcome, report: Option<GraphDiff.Report>, targets: Targets)
    requires ValidGraph(next)
  {
    && (exists parts :: BuiltBack(plan, instances, parts, b))
    && (exists after :: Modifies(next, b.graph, modified, targets, after, outcome))
    && ReportsOutcome(b.graph, outcome, report)
  }

  /**
    The modification of a stored deployment: from the stored instances, the plan graph they were
    handed out under and the new one, to the new graph and the report of the differences.
  */
  method ModifyDeployment(plan: PlanGraph, next: PlanGraph, instances: seq<Stored>, modified: map<Name, Modification>,
                          ghost c: InstanceGraph, ghost g: InstanceGraph, ghost s: Inst)
    returns (b: Previous, outcome: Outcome, report: Option<GraphDiff.Report>, targets: Targets)
    requires StoredDeployment(plan, c, g, s, instances)
    requires ValidGraph(next) && Unmixed(next) && CarriesOver(next, c, g)
    ensures Redeployed(plan, next, instances, modified, b, outcome, report, targets)
  {
    b := BuildBack(plan, instances, c, g, s);
    ghost var parts :| BuiltBack(plan, instances, parts, b);
    BackIsPrevious(plan, next, modified, c, g, s, instances, parts, b);
    outcome, targets := BuildModifiedDeployment(next, b.graph, modified);
    report := ReportOf(b.graph, outcome);
  }

  // ---------- the plans ----------

  lemma PlanUnique(ns: seq<NodeDef>, groups: seq<GroupDef>, plan: PlanGraph, other: PlanGraph)
    requires PlanOf(ns, groups, plan) && PlanOf(ns, groups, other)
    ensures plan == other
  {
    EdgesUnique(ns, GroupOf(groups), plan.edges, other.edges);
    var redirected := RedirectedNodes(GroupOf(groups), ns);
    forall x | x in plan.nodes ensures plan.nodes[x] == other.nodes[x] {
      if i :| 0 <= i < |ns| && ns[i].id == x {
        assert redirected[i].id == x;
      } else {
        var j :| 0 <= j < |groups| && groups[j].name == x;
      }
    }
    assert plan.nodes.Keys == other.nodes.Keys;
  }

  /** A plan that can be deployed. */
  ghost predicate Deployable(ns: seq<NodeDef>, groups: seq<GroupDef>) {
    && Validated(ns, groups) && SharedContainer(ns, GroupOf(groups)) && NoLoops(ns, GroupOf(groups))
    && forall i, k :: Rel(ns, i, k) ==> ns[i].relationships[k].target != ""
  }

  /** The one graph of the plan. */
  method BuildOf(nodes: seq<NodeDef>, groups: seq<GroupDef>, ghost plan: PlanGraph) returns (builder: Builder)
    requires Deployable(nodes, groups) && PlanOf(nodes, groups, plan)
    ensures fresh(builder) && builder.groups == groups && builder.nodes == RedirectedNodes(GroupOf(groups), nodes)
    ensures OwnNames(builder.nodes, groups) && Shows(builder.nodes, groups, builder.graph.nodes)
    ensures builder.graph == plan && ValidGraph(plan) && Unmixed(plan)
  {
    builder := BuildPlan(nodes, groups);
    PlanUnique(nodes, groups, builder.graph, plan);
  }

  method Restore(builder: Builder, ghost nodes: seq<NodeDef>)
    requires Deployable(nodes, builder.groups) && builder.nodes == RedirectedNodes(GroupOf(builder.groups), nodes)
    requires OwnNames(builder.nodes, builder.groups) && Shows(builder.nodes, builder.groups, builder.graph.nodes)
    modifies builder
    ensures builder.nodes == nodes
  {
    builder.RestorePlanNodeGraph();
    RestoredPlan(nodes, builder.groups, builder.nodes);
  }

  /**
    The same from the nodes of both plans: `previous` are those that the instances were handed out under.
    Building a graph redirects the relationships of its nodes. Those of the new nodes are restored if the
    modification ends with a graph, those of the old ones never.
  */
  method ModifyNodes(nodes: seq<NodeDef>, previous: seq<NodeDef>, groups: seq<GroupDef>, instances: seq<Stored>,
                     modified: map<Name, Modification>, ghost plan: PlanGraph, ghost next: PlanGraph,
                     ghost c: InstanceGraph, ghost g: InstanceGraph, ghost s: Inst)
    returns (newNodes: seq<NodeDef>, oldNodes: seq<NodeDef>, b: Previous, outcome: Outcome,
             report: Option<GraphDiff.Report>, targets: Targets)
    requires Deployable(nodes, groups) && Deployable(previous, groups)
    requires PlanOf(previous, groups, plan) && StoredDeployment(plan, c, g, s, instances)
    requires PlanOf(nodes, groups, next) && ValidGraph(next) && CarriesOver(next, c, g)
    ensures Redeployed(plan, next, instances, modified, b, outcome, report, targets)
    ensures newNodes == if outcome.Built? then nodes else RedirectedNodes(GroupOf(groups), nodes)
    ensures oldNodes == RedirectedNodes(GroupOf(groups), previous)
    ensures oldNodes == previous <==> forall a, k :: !Lifts(previous, GroupOf(groups), a, k)
  {
    var builder := BuildOf(nodes, groups, next);
    var before := BuildOf(previous, groups, plan);
    b, outcome, report, targets := ModifyDeployment(before.graph, builder.graph, instances, modified, c, g, s);
    oldNodes := before.nodes;
    if outcome.Built? {
      Restore(builder, nodes);
    }
    newNodes := builder.nodes;
    NothingReplaced(previous, groups);
    RedirectedUnchangedExactly(GroupOf(groups), previous);
  }

  lemma NothingReplaced(ns: seq<NodeDef>, groups: seq<GroupDef>)
    requires Validated(ns, groups)
    ensures forall a, k :: Rel(ns, a, k) ==> ns[a].relationships[k].replaced.None?
  {
    forall a, k | Rel(ns, a, k) ensures ns[a].relationships[k].replaced.None? {
      assert ValidatedNode(ns, ns[a]) && ValidatedTarget(ns, ns[a].relationships[k]);
    }
  }

  // ---------- a fresh deployment ----------

  /** What was created from a validated plan can be modified under any plan that it carries over to. */
  lemma FreshStored(ns: seq<NodeDef>, groups: seq<GroupDef>, plan: PlanGraph,
                    c: InstanceGraph, g: InstanceGraph, w: World, s: Inst, instances: seq<Stored>)
    requires DeploymentOf(ns, groups, plan, c, g, w, s, instances)
    ensures StoredDeployment(plan, c, g, s, instances)
  {
    PlanUnmixed(ns, groups, plan);
    FreshRecognizable(ns, groups, plan, c, g, w, s);
    FreshHandsOut(ns, groups, plan, c, g, w, s, instances);
  }

  lemma FreshHandsOut(ns: seq<NodeDef>, groups: seq<GroupDef>, plan: PlanGraph,
                      c: InstanceGraph, g: InstanceGraph, w: World, s: Inst, instances: seq<Stored>)
    requires DeploymentOf(ns, groups, plan, c, g, w, s, instances)
    ensures Acyclic(s.cont) && (forall i :: i in s.cont ==> s.cont[i] in c.nodes) && HandsOut(c, g, s, instances)
    ensures forall e :: e in c.edges ==> e in g.edges
  {
  }

  /** In particular under its own plan graph, with other counts. */
  lemma CarriesOverItself(ns: seq<NodeDef>, groups: seq<GroupDef>, plan: PlanGraph,
                          c: InstanceGraph, g: InstanceGraph, w: World, s: Inst, instances: seq<Stored>)
    requires DeploymentOf(ns, groups, plan, c, g, w, s, instances)
    ensures ValidGraph(plan) && Unmixed(plan) && CarriesOver(plan, c, g)
  {
    PlanUnmixed(ns, groups, plan);
    forall i: Id, t: Id | (i, t) in g.edges && (i, t) !in c.edges
      ensures i in s.node && t in s.node && !ContainmentEdge(plan, s.node[i], s.node[t])
    {
      ConnectedCopies(plan, c, g, s, i, t);
    }
  }
}
