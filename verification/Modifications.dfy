/**
  The instance graph of a modification, and the one target that an all_to_one relationship keeps
  across modifications even when the modification removes it.
*/
module Modifications {
  import opened Names
  import opened Forests
  import opened Graphs
  import opened Growth
  import opened Expansion
  import opened PlanGroups
  import opened Deployments
  import opened Connections
  import opened Wiring

  // ---------- the targets recorded before ----------

  /** Every edge carries the record of a relationship with the instance it leads to. */
  ghost predicate WellRecorded(g: InstanceGraph) {
    forall e :: e in g.edges ==> EdgeRecorded(g, e)
  }

  ghost predicate EdgeRecorded(g: InstanceGraph, e: (Id, Id))
    requires e in g.edges
  {
    && e.0 in g.nodes && e.1 in g.nodes
    && g.edges[e].relationship.Some? && g.edges[e].relationship.value.targetId == e.1
  }

  type Key = (Name, Name, string)

  /** The edge `e` records `j` as a target for `key`. */
  ghost predicate RecordsTarget(g: InstanceGraph, e: (Id, Id), key: Key, j: Id)
    requires WellRecorded(g)
  {
    && e in g.edges && j == g.edges[e].relationship.value.targetId
    && key == (g.nodes[e.0].name, g.nodes[e.1].name, g.edges[e].relationship.value.typeName)
  }

  /** The targets for each pair of nodes and type, as the edges in `done` record them. */
  ghost predicate TargetsOf(g: InstanceGraph, done: set<(Id, Id)>, targets: Targets)
    requires WellRecorded(g)
  {
    && (forall key :: key in targets ==> targets[key] != {})
    && (forall key, j :: key in targets && j in targets[key] ==> exists e :: e in done && RecordsTarget(g, e, key, j))
    && (forall e, key, j :: e in done && RecordsTarget(g, e, key, j) ==> key in targets && j in targets[key])
  }

  lemma OneMoreTarget(g: InstanceGraph, done: set<(Id, Id)>, before: Targets, targets: Targets, e: (Id, Id), key: Key,
                      j: Id)
    requires WellRecorded(g) && TargetsOf(g, done, before) && RecordsTarget(g, e, key, j)
    requires targets == before[key := (if key in before then before[key] else {}) + {j}]
    ensures TargetsOf(g, done + {e}, targets)
  {
    forall k, i | k in targets && i in targets[k]
      ensures exists f :: f in done + {e} && RecordsTarget(g, f, k, i)
    {
      if k in before && i in before[k] {
        var f :| f in done && RecordsTarget(g, f, k, i);
        assert f in done + {e};
      } else {
        assert e in done + {e};
      }
    }
  }

  /** The targets of all previous relationships. */
  method BuildPreviousTargets(g: InstanceGraph) returns (targets: Targets)
    requires WellRecorded(g)
    ensures TargetsOf(g, g.edges.Keys, targets)
  {
    targets := map[];
    var todo := g.edges.Keys;
    ghost var done: set<(Id, Id)> := {};
    while todo != {}
      invariant done + todo == g.edges.Keys && TargetsOf(g, done, targets)
      decreases todo
    {
      var e :| e in todo;
      assert EdgeRecorded(g, e);
      var r := g.edges[e].relationship.value;
      var key := (g.nodes[e.0].name, g.nodes[e.1].name, r.typeName);
      ghost var before := targets;
      targets := targets[key := (if key in targets then targets[key] else {}) + {r.targetId}];
      OneMoreTarget(g, done, before, targets, e, key, r.targetId);
      done, todo := done + {e}, todo - {e};
    }
    assert done == g.edges.Keys;
  }

  /** Recorded targets are, or were, instances of the nodes they are recorded for. */
  lemma PreviousTargetsKnown(plan: PlanGraph, previous: InstanceGraph, modified: map<Name, Modification>, s: Inst,
                             targets: Targets)
    requires ValidGraph(plan) && WellRecorded(previous) && TargetsOf(previous, previous.edges.Keys, targets)
    requires Sound(WorldOf(plan, Some(previous), modified), s)
    ensures TargetsKnown(WorldOf(plan, Some(previous), modified), s, targets)
  {
    var w := WorldOf(plan, Some(previous), modified);
    forall key, j | key in targets && j in targets[key]
      ensures IsA(w, s, j, key.1)
    {
      var e :| e in previous.edges.Keys && RecordsTarget(previous, e, key, j);
      assert EdgeRecorded(previous, e);
    }
  }

  // ---------- the whole graph ----------

  /** Previous group instances, and no others, are marked as such. */
  ghost predicate MarkedAlike(plan: PlanGraph, previous: InstanceGraph) {
    forall i :: i in previous.nodes && previous.nodes[i].name in plan.nodes ==> GroupMarked(plan, previous.nodes[i])
  }

  lemma KeptMarked(plan: PlanGraph, previous: InstanceGraph, g: InstanceGraph, w: World, s: Inst)
    requires MarkedAlike(plan, previous) && Labelled(plan, previous.nodes, g)
    requires Represents(g, s) && WellPlaced(w, s) && w.nodes == plan.nodes.Keys
    ensures forall q :: q in g.nodes ==> GroupMarked(plan, g.nodes[q])
  {
    forall q | q in g.nodes
      ensures GroupMarked(plan, g.nodes[q])
    {
      assert NodeLabelled(plan, previous.nodes, q, g.nodes[q]);
    }
  }

  /** The containment part of a modification is ready for the connections. */
  lemma ReadyAgain(plan: PlanGraph, previous: InstanceGraph, modified: map<Name, Modification>, g: InstanceGraph,
                   s: Inst, targets: Targets)
    requires ValidGraph(plan) && Unmixed(plan) && Modified(plan, previous, modified, Some(g), s)
    requires WellRecorded(previous) && MarkedAlike(plan, previous) && TargetsOf(previous, previous.edges.Keys, targets)
    ensures Acyclic(s.cont) && Ready(plan, g, s, targets, WorldOf(plan, Some(previous), modified))
    ensures forall e :: ConnectionEdge(plan, e) ==> Connectable(plan, g, s, e.0, e.1)
  {
    var w := WorldOf(plan, Some(previous), modified);
    InstanceForest(w, s);
    PreviousTargetsKnown(plan, previous, modified, s, targets);
    KeptMarked(plan, previous, g, w, s);
    AllConnectable(plan, g, w, s);
  }

  /** What a modification ends with: an error, or the containment graph and the whole graph. */
  datatype Outcome =
    | Unsupported
    | NotExtracted
    | Refused(fault: Fault)
    | Built(contained: InstanceGraph, graph: InstanceGraph)

  /** For the instances `s` the modification ends with an error exactly where one is due. */
  ghost predicate EndsAs(plan: PlanGraph, previous: InstanceGraph, modified: map<Name, Modification>, targets: Targets,
                         s: Inst, r: Outcome)
    requires ValidGraph(plan) && Acyclic(s.cont)
  {
    match r
    case Unsupported => !Supported(plan)
    case NotExtracted => Supported(plan) && Modified(plan, previous, modified, None, s)
    case Refused(fault) =>
      && Supported(plan)
      && exists e :: ConnectionEdge(plan, e) && EdgeFault(plan, s, targets, e) == Some(fault)
    case Built(contained, graph) =>
      && Supported(plan) && NoFault(plan, s, targets, ConnectionEdges(plan))
      && Modified(plan, previous, modified, Some(contained), s)
      && Connected(plan, contained, graph, s, targets, ConnectionEdges(plan))
  }

  method ConnectAgain(plan: PlanGraph, previous: InstanceGraph, modified: map<Name, Modification>, targets: Targets,
                      contained: InstanceGraph, ghost s: Inst)
    returns (r: Outcome)
    requires ValidGraph(plan) && Unmixed(plan) && Supported(plan) &&
      Modified(plan, previous, modified, Some(contained), s)
    requires WellRecorded(previous) && MarkedAlike(plan, previous) && TargetsOf(previous, previous.edges.Keys, targets)
    requires Acyclic(s.cont)
    ensures EndsAs(plan, previous, modified, targets, s, r)
  {
    ReadyAgain(plan, previous, modified, contained, s, targets);
    var fault, g := HandleConnections(plan, contained, targets, WorldOf(plan, Some(previous), modified), s);
    r := if fault.Some? then Refused(fault.value) else Built(contained, g);
  }

  lemma ModifiedForest(plan: PlanGraph, previous: InstanceGraph, modified: map<Name, Modification>,
                       g: Option<InstanceGraph>, s: Inst)
    requires ValidGraph(plan) && Modified(plan, previous, modified, g, s)
    ensures var w := WorldOf(plan, Some(previous), modified); Sound(w, s) && Complete(w, s) && Acyclic(s.cont)
  {
    InstanceForest(WorldOf(plan, Some(previous), modified), s);
  }

  /** The instances `s` are as the plan and the modification want them, and the modification ends with `r`. */
  ghost predicate Modifies(plan: PlanGraph, previous: InstanceGraph, modified: map<Name, Modification>,
                           targets: Targets, s: Inst, r: Outcome)
    requires ValidGraph(plan)
  {
    var w := WorldOf(plan, Some(previous), modified);
    && WellRecorded(previous) && TargetsOf(previous, previous.edges.Keys, targets)
    && ValidWorld(w) && Sound(w, s) && Complete(w, s) && Acyclic(s.cont)
    && EndsAs(plan, previous, modified, targets, s, r)
  }

  /** The whole instance graph of a modification. */
  method BuildModifiedDeployment(plan: PlanGraph, previous: InstanceGraph, modified: map<Name, Modification>)
    returns (r: Outcome, targets: Targets)
    requires ValidGraph(plan) && Unmixed(plan) && ValidPrevious(WorldOf(plan, Some(previous), modified))
    requires WellRecorded(previous) && MarkedAlike(plan, previous)
    ensures exists s :: Modifies(plan, previous, modified, targets, s, r)
  {
    var contained := ExpandModified(plan, previous, modified);
    ghost var s: Inst :| Modified(plan, previous, modified, contained, s);
    ModifiedForest(plan, previous, modified, contained, s);
    targets := BuildPreviousTargets(previous);
    if exists e | e in plan.edges ::
         !IncludesOneOf(plan.edges[e].relationship, {DEPENDS_ON, CONTAINED_IN, CONNECTED_TO, GROUP_CONTAINED_IN}) {
      r := Unsupported;
    } else if contained.None? {
      r := NotExtracted;
    } else {
      r := ConnectAgain(plan, previous, modified, targets, contained.value, s);
    }
    assert Modifies(plan, previous, modified, targets, s, r);
  }
}
