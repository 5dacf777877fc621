/**
  The connected_to and depends_on edges of a whole deployment.
*/
module Wiring {
  import opened Names
  import opened Forests
  import opened Graphs
  import opened Growth
  import opened Expansion
  import opened PlanGroups
  import opened Deployments
  import opened Partition
  import opened Connections

  predicate ConnectionEdge(plan: PlanGraph, e: (Name, Name)) {
    e in plan.edges && IsConnection(plan.edges[e].relationship)
  }

  function ConnectionEdges(plan: PlanGraph): (r: set<(Name, Name)>)
    ensures forall e :: e in r <==> ConnectionEdge(plan, e)
  {
    set e | e in plan.edges && ConnectionEdge(plan, e)
  }

  /** No relationship is both a containment and a connection. */
  ghost predicate Unmixed(plan: PlanGraph) {
    forall e :: e in plan.edges ==>
      !(IsContainment(plan.edges[e].relationship) && IsConnection(plan.edges[e].relationship))
  }

  /** The plan relationship `e` connects the instances `i` and `j`. */
  ghost predicate ConnectedBy(plan: PlanGraph, s: Inst, previous: Targets, e: (Name, Name), i: Id, j: Id)
    requires ValidGraph(plan) && Acyclic(s.cont)
  {
    ConnectionEdge(plan, e) && Connects(plan, s, previous, e.0, e.1, plan.edges[e], i, j)
  }

  /** What the plan relationships in `done` have added to the containment graph `g0`. */
  ghost predicate Connected(plan: PlanGraph, g0: InstanceGraph, g: InstanceGraph, s: Inst, previous: Targets,
                            done: set<(Name, Name)>)
    requires ValidGraph(plan) && Acyclic(s.cont)
  {
    && g.nodes == g0.nodes
    && (forall p :: p in g0.edges ==> p in g.edges && g.edges[p] == g0.edges[p])
    && (forall e, i: Id, j: Id :: e in done && ConnectedBy(plan, s, previous, e, i, j) ==>
          (i, j) in g.edges && g.edges[(i, j)] == Label(plan.edges[e], j))
    && (forall p :: p in g.edges && p !in g0.edges ==>
          exists e :: e in done && ConnectedBy(plan, s, previous, e, p.0, p.1))
  }

  /** `j` is an instance of `n`, or was one before the modification. */
  ghost predicate IsA(w: World, s: Inst, j: Id, n: Name) {
    if j in s.node then s.node[j] == n else j in w.prevNode && w.prevNode[j] == n
  }

  /** The recorded targets of all_to_one relationships are, or were, instances of the target nodes. */
  ghost predicate TargetsKnown(w: World, s: Inst, previous: Targets) {
    forall key, j :: key in previous && j in previous[key] ==> IsA(w, s, j, key.1)
  }

  lemma ConnectsNames(plan: PlanGraph, w: World, s: Inst, previous: Targets, e: (Name, Name), i: Id, j: Id)
    requires ValidGraph(plan) && Acyclic(s.cont) && TargetsKnown(w, s, previous)
    requires ConnectedBy(plan, s, previous, e, i, j)
    ensures i in s.node && e.0 == s.node[i] && IsA(w, s, j, e.1)
  {
    if plan.edges[e].relationship.connection == Some(ALL_TO_ONE) {
      var key := (e.0, e.1, plan.edges[e].relationship.typeName);
      assert key in previous ==> j in previous[key];
    }
  }

  lemma ContainmentNames(plan: PlanGraph, g0: InstanceGraph, s: Inst, w: World, i: Id, j: Id)
    requires ValidGraph(plan) && w.parent == ContainedGraph(plan) && WellPlaced(w, s) && Represents(g0, s)
    ensures (i, j) in g0.edges ==> i in s.node && j in s.node && ContainmentEdge(plan, s.node[i], s.node[j])
  {
  }

  /** The containment part of a graph that connections can be added to. */
  ghost predicate Ready(plan: PlanGraph, g0: InstanceGraph, s: Inst, previous: Targets, w: World) {
    && ValidGraph(plan) && Acyclic(s.cont) && TargetsKnown(w, s, previous) && Unmixed(plan)
    && w.parent == ContainedGraph(plan) && WellPlaced(w, s) && Represents(g0, s)
  }

  /** Connection edges never fall on a containment edge. */
  lemma NotContainment(plan: PlanGraph, g0: InstanceGraph, s: Inst, previous: Targets, w: World, e: (Name, Name),
                       i: Id, j: Id)
    requires Ready(plan, g0, s, previous, w) && ConnectedBy(plan, s, previous, e, i, j)
    ensures (i, j) !in g0.edges
  {
    ConnectsNames(plan, w, s, previous, e, i, j);
    ContainmentNames(plan, g0, s, w, i, j);
  }

  /** Two plan relationships never connect the same pair. */
  lemma OneRelationship(plan: PlanGraph, w: World, s: Inst, previous: Targets, e: (Name, Name), f: (Name, Name), i: Id,
                        j: Id)
    requires ValidGraph(plan) && Acyclic(s.cont) && TargetsKnown(w, s, previous)
    requires ConnectedBy(plan, s, previous, e, i, j) && ConnectedBy(plan, s, previous, f, i, j)
    ensures e == f
  {
    ConnectsNames(plan, w, s, previous, e, i, j);
    ConnectsNames(plan, w, s, previous, f, i, j);
  }

  lemma KeepsContainment(plan: PlanGraph, g0: InstanceGraph, g: InstanceGraph, s: Inst, previous: Targets, w: World,
                         e: (Name, Name), pairs: set<(Id, Id)>)
    requires Ready(plan, g0, s, previous, w) && ConnectionEdge(plan, e)
    requires forall p :: p in g0.edges ==> p in g.edges && g.edges[p] == g0.edges[p]
    requires forall i: Id, j: Id :: (i, j) in pairs ==> ConnectedBy(plan, s, previous, e, i, j)
    ensures var r := WithEdges(g, pairs, plan.edges[e]);
      forall p :: p in g0.edges ==> p in r.edges && r.edges[p] == g0.edges[p]
  {
    forall p | p in g0.edges
      ensures p !in pairs
    {
      if (p.0, p.1) in pairs {
        NotContainment(plan, g0, s, previous, w, e, p.0, p.1);
      }
    }
    EdgesApart(g0, g, pairs, plan.edges[e]);
  }

  lemma EdgesApart(g0: InstanceGraph, g: InstanceGraph, pairs: set<(Id, Id)>, e: PlanEdge)
    requires forall p :: p in g0.edges ==> p in g.edges && g.edges[p] == g0.edges[p] && p !in pairs
    ensures forall p :: p in g0.edges ==>
      p in WithEdges(g, pairs, e).edges && WithEdges(g, pairs, e).edges[p] == g0.edges[p]
  {
  }

  lemma ConnectStep(plan: PlanGraph, g0: InstanceGraph, g: InstanceGraph, s: Inst, previous: Targets, w: World,
                    done: set<(Name, Name)>, e: (Name, Name), pairs: set<(Id, Id)>)
    requires Ready(plan, g0, s, previous, w)
    requires Connected(plan, g0, g, s, previous, done) && ConnectionEdge(plan, e) && e !in done
    requires forall i: Id, j: Id :: (i, j) in pairs <==> ConnectedBy(plan, s, previous, e, i, j)
    ensures Connected(plan, g0, WithEdges(g, pairs, plan.edges[e]), s, previous, done + {e})
  {
    var r := WithEdges(g, pairs, plan.edges[e]);
    KeepsContainment(plan, g0, g, s, previous, w, e, pairs);
    forall f, i: Id, j: Id | f in done + {e} && ConnectedBy(plan, s, previous, f, i, j)
      ensures (i, j) in r.edges && r.edges[(i, j)] == Label(plan.edges[f], j)
    {
      if (i, j) in pairs {
        OneRelationship(plan, w, s, previous, e, f, i, j);
      }
    }
    forall p | p in r.edges && p !in g0.edges
      ensures exists f :: f in done + {e} && ConnectedBy(plan, s, previous, f, p.0, p.1)
    {
      AddedBy(plan, g0, g, s, previous, done, e, pairs, p);
    }
  }

  lemma AddedBy(plan: PlanGraph, g0: InstanceGraph, g: InstanceGraph, s: Inst, previous: Targets,
                done: set<(Name, Name)>, e: (Name, Name), pairs: set<(Id, Id)>, p: (Id, Id))
    requires ValidGraph(plan) && Acyclic(s.cont) && Connected(plan, g0, g, s, previous, done) && e in plan.edges
    requires (p.0, p.1) in pairs ==> ConnectedBy(plan, s, previous, e, p.0, p.1)
    requires p in WithEdges(g, pairs, plan.edges[e]).edges && p !in g0.edges
    ensures exists f :: f in done + {e} && ConnectedBy(plan, s, previous, f, p.0, p.1)
  {
    if p in pairs {
      assert p == (p.0, p.1);
      assert e in done + {e};
    } else {
      var f :| f in done && ConnectedBy(plan, s, previous, f, p.0, p.1);
      assert f in done + {e};
    }
  }

  ghost function EdgeFault(plan: PlanGraph, s: Inst, previous: Targets, e: (Name, Name)): Option<Fault>
    requires ValidGraph(plan) && Acyclic(s.cont) && ConnectionEdge(plan, e)
  {
    FaultOf(plan, s, previous, e.0, e.1, plan.edges[e])
  }

  /** No connection runs into an error. */
  ghost predicate NoFault(plan: PlanGraph, s: Inst, previous: Targets, es: set<(Name, Name)>)
    requires ValidGraph(plan) && Acyclic(s.cont)
  {
    forall e :: e in es && ConnectionEdge(plan, e) ==> EdgeFault(plan, s, previous, e).None?
  }

  /** One plan relationship, whatever it adds or runs into. */
  method HandleOne(plan: PlanGraph, g0: InstanceGraph, g: InstanceGraph, previous: Targets, e: (Name, Name),
                   ghost done: set<(Name, Name)>, ghost w: World, ghost s: Inst)
    returns (fault: Option<Fault>, r: InstanceGraph)
    requires Ready(plan, g0, s, previous, w) && Connectable(plan, g0, s, e.0, e.1)
    requires Connected(plan, g0, g, s, previous, done) && ConnectionEdge(plan, e) && e !in done
    ensures fault == EdgeFault(plan, s, previous, e)
    ensures fault.None? ==> Connected(plan, g0, r, s, previous, done + {e})
  {
    var sources := set i | i in g0.nodes && g0.nodes[i].name == e.0;
    var targets := set i | i in g0.nodes && g0.nodes[i].name == e.1;
    assert sources == InstancesOf(s, e.0) && targets == InstancesOf(s, e.1);
    ghost var pairs;
    fault, r, pairs := ConnectNodes(plan, g0, g, previous, e.0, e.1, plan.edges[e], sources, targets, s);
    if fault.None? {
      ConnectStep(plan, g0, g, s, previous, w, done, e, pairs);
    }
  }

  /** Adds the edges of all connected_to and depends_on relationships, in any order. */
  method HandleConnections(plan: PlanGraph, g0: InstanceGraph, previous: Targets, ghost w: World, ghost s: Inst)
    returns (fault: Option<Fault>, g: InstanceGraph)
    requires Ready(plan, g0, s, previous, w)
    requires forall e :: ConnectionEdge(plan, e) ==> Connectable(plan, g0, s, e.0, e.1)
    ensures fault.Some? ==> exists e :: ConnectionEdge(plan, e) && fault == EdgeFault(plan, s, previous, e)
    ensures fault.None? <==> NoFault(plan, s, previous, ConnectionEdges(plan))
    ensures fault.None? ==> Connected(plan, g0, g, s, previous, ConnectionEdges(plan))
  {
    fault, g := None, g0;
    var todo := ConnectionEdges(plan);
    ghost var done: set<(Name, Name)> := {};
    while todo != {}
      invariant done !! todo && done + todo == ConnectionEdges(plan) && Connected(plan, g0, g, s, previous, done)
      invariant fault.None? && NoFault(plan, s, previous, done)
      decreases todo
    {
      var e :| e in todo;
      assert ConnectionEdge(plan, e);
      fault, g := HandleOne(plan, g0, g, previous, e, done, w, s);
      if fault.Some? {
        assert e in ConnectionEdges(plan) && EdgeFault(plan, s, previous, e) == fault;
        return;
      }
      done, todo := done + {e}, todo - {e};
    }
    assert done == ConnectionEdges(plan);
  }

  /** Relationships of any other type are refused. */
  ghost predicate Supported(plan: PlanGraph) {
    forall e :: e in plan.edges ==>
      IncludesOneOf(plan.edges[e].relationship, {DEPENDS_ON, CONTAINED_IN, CONNECTED_TO, GROUP_CONTAINED_IN})
  }

  /** A plan is supported exactly if each of its relationships is a containment or a connection. */
  lemma SupportedExactly(plan: PlanGraph)
    ensures Supported(plan) <==> forall e :: e in plan.edges ==>
      IsContainment(plan.edges[e].relationship) || IsConnection(plan.edges[e].relationship)
  {
    forall e | e in plan.edges
      ensures IncludesOneOf(plan.edges[e].relationship,
        {DEPENDS_ON, CONTAINED_IN, CONNECTED_TO, GROUP_CONTAINED_IN}) <==>
        IsContainment(plan.edges[e].relationship) || IsConnection(plan.edges[e].relationship)
    {
      OneOfThem(plan.edges[e].relationship);
    }
  }

  lemma OneOfThem(r: Relationship)
    ensures IncludesOneOf(r, {DEPENDS_ON, CONTAINED_IN, CONNECTED_TO, GROUP_CONTAINED_IN}) <==>
      IsContainment(r) || IsConnection(r)
  {
    if k :| 0 <= k < |r.hierarchy| && r.hierarchy[k] in {DEPENDS_ON, CONTAINED_IN, CONNECTED_TO, GROUP_CONTAINED_IN} {
      assert r.hierarchy[k] in {CONTAINED_IN, GROUP_CONTAINED_IN} || r.hierarchy[k] in {CONNECTED_TO, DEPENDS_ON};
      assert IncludesOneOf(r, {CONTAINED_IN}) ==> IncludesOneOf(r, {CONTAINED_IN, GROUP_CONTAINED_IN});
    }
  }

  /** Wherever instances are placed as the plan says, the walks up find the groups around them. */
  lemma AllConnectable(plan: PlanGraph, g: InstanceGraph, w: World, s: Inst)
    requires ValidGraph(plan) && w.parent == ContainedGraph(plan) && ValidPlan(w)
    requires WellPlaced(w, s) && Acyclic(s.cont) && Represents(g, s)
    requires forall q :: q in g.nodes ==> GroupMarked(plan, g.nodes[q])
    ensures forall e :: ConnectionEdge(plan, e) ==> Connectable(plan, g, s, e.0, e.1)
  {
    forall e, group | ConnectionEdge(plan, e) && SharedGroup(plan, e.0, e.1, group)
      ensures Walkable(g, s, group) && Groupable(s, e.0, e.1, group)
    {
      PlacedGroupable(w, s, e.0, e.1, group);
    }
  }

  /** In a fresh deployment the assertion that the same group instances hold both ends cannot fail. */
  lemma FreshEven(plan: PlanGraph, w: World, s: Inst, e: (Name, Name))
    requires ValidGraph(plan) && w.parent == ContainedGraph(plan) && w.nodes == plan.nodes.Keys && Grown(w, s)
    requires ConnectionEdge(plan, e)
    ensures EdgeFault(plan, s, map[], e) != Some(UnevenGroups)
  {
    forall group | LowestSharedGroup(plan, e.0, e.1, group) && InstancesOf(s, e.0) != {} && InstancesOf(s, e.1) != {}
      ensures Even(s, e.0, e.1, group)
    {
      FreshPartitionable(w, s, e.0, e.1, group);
    }
  }

  /** The containment part, ready for the connections. */
  method BuildContained(plan: PlanGraph) returns (g: InstanceGraph, ghost w: World, ghost s: Inst)
    requires ValidGraph(plan) && Unmixed(plan)
    ensures w == WorldOf(plan, None, map[]) && Grown(w, s) && Ready(plan, g, s, map[], w)
    ensures FreshLabelled(plan, g)
  {
    w := WorldOf(plan, None, map[]);
    var ctx := new Context(plan, None, map[]);
    ctx.HandleContainedIn();
    g, s := ctx.graph, ctx.inst;
    AllNew(plan, g);
    InstanceForest(w, s);
  }

  /** The whole instance graph of a fresh deployment. */
  method BuildFreshDeployment(plan: PlanGraph)
    returns (fault: Option<Fault>, g: InstanceGraph, g0: InstanceGraph, ghost w: World, ghost s: Inst)
    requires ValidGraph(plan) && Unmixed(plan)
    ensures w == WorldOf(plan, None, map[]) && Grown(w, s) && Represents(g0, s) && FreshLabelled(plan, g0)
    ensures fault.None? ==> Connected(plan, g0, g, s, map[], ConnectionEdges(plan))
    ensures fault.None? <==> Supported(plan) && NoFault(plan, s, map[], ConnectionEdges(plan))
  {
    var contained;
    contained, w, s := BuildContained(plan);
    g0, g := contained, contained;
    AllConnectable(plan, g0, w, s);
    if exists e | e in plan.edges ::
         !IncludesOneOf(plan.edges[e].relationship, {DEPENDS_ON, CONTAINED_IN, CONNECTED_TO, GROUP_CONTAINED_IN}) {
      fault := Some(UnsupportedRelationship);
    } else {
      fault, g := HandleConnections(plan, contained, map[], w, s);
    }
  }
}
