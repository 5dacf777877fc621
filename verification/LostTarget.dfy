/**
  A modification that removes the one target of an all_to_one relationship: the relationship is then
  wired to an instance that is gone.
*/
module LostTarget {
  import opened Names
  import opened Forests
  import opened Graphs
  import opened Growth
  import opened Expansion
  import opened PlanGroups
  import opened Deployments
  import opened Survival
  import opened Outcomes
  import opened Connections
  import opened Wiring
  import opened Modifications
  import opened SharedTargets
  import opened Redeployment
  import GraphDiff

  /** One instance of `a`, connected to one of the two instances of `b`. */
  const LINK := Relationship(CONNECTED_TO, [DEPENDS_ON, CONNECTED_TO], "b", Some(ALL_TO_ONE), None)
  const PLAN := PlanGraph(map["a" := PlanNode(false, 1, [LINK]), "b" := PlanNode(false, 2, [])],
                          map[("a", "b") := PlanEdge(LINK, 0)])

  const RECORD := RelationshipInstance(CONNECTED_TO, "b", 1, false)
  const BEFORE := InstanceGraph(
    map[0 := InstanceNode("a", false, [], [RECORD]), 1 := InstanceNode("b", false, [], []),
        2 := InstanceNode("b", false, [], [])],
    map[(0, 1) := InstanceEdge(Some(RECORD), 0)])

  /** One `b` fewer: the target. */
  const SCALED := map["b" := Modification(1, [1], [])]

  lemma LinkConnects()
    ensures IsConnection(LINK) && !IsContainment(LINK)
    ensures IncludesOneOf(LINK, {DEPENDS_ON, CONTAINED_IN, CONNECTED_TO, GROUP_CONTAINED_IN})
  {
    assert LINK.hierarchy[0] == DEPENDS_ON;
  }

  /** The plan connects its two nodes, and contains neither. */
  ghost predicate Flat(plan: PlanGraph, link: Relationship) {
    && plan.nodes.Keys == {"a", "b"} && plan.edges == map[("a", "b") := PlanEdge(link, 0)]
    && IsConnection(link) && !IsContainment(link) && link.connection == Some(ALL_TO_ONE)
    && IncludesOneOf(link, {DEPENDS_ON, CONTAINED_IN, CONNECTED_TO, GROUP_CONTAINED_IN})
  }

  lemma FlatValid(plan: PlanGraph, link: Relationship)
    requires Flat(plan, link)
    ensures ValidGraph(plan) && ContainedGraph(plan) == map[] && Unmixed(plan) && Supported(plan)
  {
    assert forall s, t :: !ContainmentEdge(plan, s, t);
    assert ContainedGraph(plan) == map[];
    assert Ranked(ContainedGraph(plan), map[]);
  }

  /** Two instances of `b`, one of which is to go: the one asked for. */
  ghost predicate OneOfTwo(w: World) {
    && w.nodes == {"a", "b"} && w.parent == map[] && w.current.Keys == w.nodes
    && w.prevNode == map[0 := "a", 1 := "b", 2 := "b"] && w.prevEdges == {(0, 1)}
    && w.requested == map["b" := 1] && w.wanted == map["b" := [1]] && w.spared.Keys == {"b"}
  }

  lemma WorldIs(plan: PlanGraph, link: Relationship)
    requires Flat(plan, link) && ValidGraph(plan) && ContainedGraph(plan) == map[]
    ensures OneOfTwo(WorldOf(plan, Some(BEFORE), SCALED))
  {
    NodesBefore();
    Requested();
  }

  lemma NodesBefore()
    ensures (map i | i in BEFORE.nodes :: BEFORE.nodes[i].name) == map[0 := "a", 1 := "b", 2 := "b"]
  {
  }

  lemma Requested()
    ensures (map n | n in SCALED :: SCALED[n].instances) == map["b" := 1]
    ensures (map n | n in SCALED :: SCALED[n].includeHint) == map["b" := [1]]
  {
  }

  lemma OneOfTwoValid(w: World)
    requires OneOfTwo(w)
    ensures ValidWorld(w)
  {
    assert Ranked(w.parent, map[]);
  }

  lemma AlonePath(w: World, i: Id)
    requires OneOfTwo(w) && i in w.prevNode
    ensures AnchoredPath(w, map[], i) && Path<Id>(map[], i) == [i]
  {
    var none: map<Id, Id> := map[];
    assert Ranked(none, map[]);
  }

  /** The target has no container, and is the one that goes first. */
  lemma TargetDoomed(w: World)
    requires OneOfTwo(w) && ValidWorld(w)
    ensures AnchoredPath(w, map[], 1) && PathDoomed(w, map[], 1)
  {
    AlonePath(w, 1);
    assert PrevKids(w, "b", None) == {1, 2};
    assert 1 in Asked(w, "b", None) && 2 !in Asked(w, "b", None) by {
      assert w.wanted["b"] == [1];
      assert HintedIn([1], {1, 2}, w.members, 1);
    }
    assert NoLater(w, "b", None, 1) == {1};
    assert DoomedAt(w, map[], 1);
  }

  lemma SourceSafe(w: World)
    requires OneOfTwo(w) && ValidWorld(w)
    ensures AnchoredPath(w, map[], 0) && SafePath(w, map[], 0)
  {
    AlonePath(w, 0);
    assert SafeAt(w, map[], 0);
  }

  lemma SourceStays(w: World, s: Inst)
    requires OneOfTwo(w) && ValidWorld(w) && Sound(w, s) && Complete(w, s)
    ensures 0 in s.node && s.node[0] == w.prevNode[0]
  {
    SourceSafe(w);
    SafeStays(w, s, map[], 0);
  }

  lemma TargetLeaves(w: World, s: Inst)
    requires OneOfTwo(w) && ValidWorld(w) && Sound(w, s) && Complete(w, s)
    ensures 1 !in s.node
  {
    TargetDoomed(w);
    NeverKeptExactly(w, map[], 1);
  }

  lemma OtherThere(w: World, s: Inst)
    requires OneOfTwo(w) && ValidWorld(w) && Complete(w, s)
    ensures InstancesOf(s, "b") != {}
  {
    assert KidsOk(w, "b", None, Kids(s, "b", None));
    assert Kids(s, "b", None) == InstancesOf(s, "b");
  }

  lemma BeforeRecorded()
    ensures WellRecorded(BEFORE) && MarkedAlike(PLAN, BEFORE)
  {
  }

  lemma TargetRecorded(targets: Targets)
    requires WellRecorded(BEFORE) && TargetsOf(BEFORE, BEFORE.edges.Keys, targets)
    ensures var key := ("a", "b", CONNECTED_TO); key in targets && targets[key] == {1}
  {
    var key := ("a", "b", CONNECTED_TO);
    assert RecordsTarget(BEFORE, (0, 1), key, 1);
    forall j | j in targets[key]
      ensures j == 1
    {
      var e :| e in BEFORE.edges.Keys && RecordsTarget(BEFORE, e, key, j);
    }
  }

  /** In every outcome the source is there, the target is not, and another instance of its node is. */
  lemma TargetGone(w: World, s: Inst)
    requires OneOfTwo(w) && ValidWorld(w) && Sound(w, s) && Complete(w, s)
    ensures 0 in InstancesOf(s, "a") && 1 !in s.node && InstancesOf(s, "b") != {}
  {
    SourceStays(w, s);
    TargetLeaves(w, s);
    OtherThere(w, s);
  }

  /** No error is due. */
  lemma NothingRefused(plan: PlanGraph, link: Relationship, s: Inst, targets: Targets)
    requires Flat(plan, link) && ValidGraph(plan) && ContainedGraph(plan) == map[] && Acyclic(s.cont)
    requires ("a", "b", link.typeName) in targets && targets[("a", "b", link.typeName)] == {1}
    ensures NoFault(plan, s, targets, ConnectionEdges(plan))
  {
    assert forall group :: !SharedGroup(plan, "a", "b", group);
  }

  lemma NothingMissing(s: Inst)
    ensures !Failing(PLAN, BEFORE.nodes, s)
  {
    LinkConnects();
    assert LINK.hierarchy[0] != CONTAINED_IN && LINK.hierarchy[1] != CONTAINED_IN;
    assert FirstContained([]) == None;
    assert FirstContained([LINK]) == None;
  }

  lemma Starts()
    ensures ValidGraph(PLAN) && Unmixed(PLAN) && Supported(PLAN) && ContainedGraph(PLAN) == map[] && Flat(PLAN, LINK)
    ensures WellRecorded(BEFORE) && MarkedAlike(PLAN, BEFORE)
    ensures var w := WorldOf(PLAN, Some(BEFORE), SCALED); OneOfTwo(w) && ValidWorld(w)
  {
    LinkConnects();
    FlatValid(PLAN, LINK);
    WorldIs(PLAN, LINK);
    OneOfTwoValid(WorldOf(PLAN, Some(BEFORE), SCALED));
    BeforeRecorded();
  }

  /** The modification ends with a graph. */
  lemma EndsBuilt(plan: PlanGraph, previous: InstanceGraph, modified: map<Name, Modification>, targets: Targets,
                  s: Inst, r: Outcome)
    requires ValidGraph(plan) && Supported(plan) && Acyclic(s.cont) && EndsAs(plan, previous, modified, targets, s, r)
    requires NoFault(plan, s, targets, ConnectionEdges(plan)) && !Failing(plan, previous.nodes, s)
    ensures r.Built?
  {
  }

  lemma FlatShared(plan: PlanGraph, link: Relationship, previous: InstanceGraph, targets: Targets)
    requires Flat(plan, link) && WellRecorded(previous) && TargetsOf(previous, previous.edges.Keys, targets)
    requires ("a", "b", link.typeName) in targets && targets[("a", "b", link.typeName)] == {1}
    ensures SharedBefore(plan, previous, targets, ("a", "b"), 1)
  {
  }

  /** However the modification goes, it hands out a graph with an edge to the instance that it removes. */
  lemma EndsDangling(targets: Targets, s: Inst, r: Outcome)
    requires ValidGraph(PLAN) && Modifies(PLAN, BEFORE, SCALED, targets, s, r)
    ensures r.Built? && (0, 1) in r.graph.edges && 0 in r.graph.nodes && 1 !in r.graph.nodes
  {
    Starts();
    TargetRecorded(targets);
    TargetGone(WorldOf(PLAN, Some(BEFORE), SCALED), s);
    NothingRefused(PLAN, LINK, s, targets);
    NothingMissing(s);
    EndsBuilt(PLAN, BEFORE, SCALED, targets, s, r);
    FlatShared(PLAN, LINK, BEFORE, targets);
    StillPointsAt(PLAN, BEFORE, SCALED, targets, s, r.contained, r.graph, ("a", "b"), 1, 0);
  }

  /** What an edge leads to is never reported as removed. */
  lemma NotReported(before: InstanceGraph, after: InstanceGraph, report: GraphDiff.Report, i: Id, t: Id)
    requires Reports(before, after, report) && (i, t) in after.edges
    ensures t !in GraphDiff.Changed(report.removed)
  {
    assert (i, t).1 == t;
  }

  /**
    If a modification removes the recorded target and adds a source, of whatever plan, what it adds cannot be
    read: the new source's edge leads to no instance.
  */
  lemma NewSourceUnreadable(plan: PlanGraph, previous: InstanceGraph, modified: map<Name, Modification>,
                            targets: Targets, s: Inst, contained: InstanceGraph, graph: InstanceGraph,
                            e: (Name, Name), t: Id, i: Id)
    requires ValidGraph(plan) && WellRecorded(previous) && SharedBefore(plan, previous, targets, e, t)
    requires Acyclic(s.cont) && EndsAs(plan, previous, modified, targets, s, Built(contained, graph))
    requires i in InstancesOf(s, e.0) && i !in previous.nodes && InstancesOf(s, e.1) != {} && t !in s.node
    ensures !Readable(graph, previous)
  {
    StillPointsAt(plan, previous, modified, targets, s, contained, graph, e, t, i);
    assert (i, t) in previous.edges ==> EdgeRecorded(previous, (i, t));
    ReadableExactly(graph, previous);
  }

  /** The modification wires the source to the instance that it removes, and does not report that one as removed. */
  method Modify() returns (r: Outcome, report: GraphDiff.Report)
    ensures r.Built? && (0, 1) in r.graph.edges && 0 in r.graph.nodes && 1 !in r.graph.nodes
    ensures Reports(BEFORE, r.graph, report) && 1 in BEFORE.nodes && 1 !in GraphDiff.Changed(report.removed)
  {
    Starts();
    var targets;
    r, targets := BuildModifiedDeployment(PLAN, BEFORE, SCALED);
    ghost var s: Inst :| Modifies(PLAN, BEFORE, SCALED, targets, s, r);
    EndsDangling(targets, s, r);
    report := Compare(BEFORE, r.graph);
    NotReported(BEFORE, r.graph, report, 0, 1);
  }
}
