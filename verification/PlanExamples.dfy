/**
  A plan of whose containment not all comes back from storage, because one of its groups is not recorded.
*/
module PlanExamples {
  import opened Names
  import opened Forests
  import opened Graphs
  import opened PlanBuilder
  import opened MemberExamples
  import opened Growth
  import opened MultiInstance
  import opened Extraction
  import opened RoundTrip
  import opened FreshRoundTrip
  import opened Transparency

  /** A rack `r` and a group `g` in it, of a node `a` that is scaled down to nothing. */
  const EMPTY_NODES := [NodeDef("r", 1, []), NodeDef("a", 0, [In("r")])]

  const EMPTY_GROUPS := [GroupDef("g", 1, ["a"])]

  lemma EmptyGroups()
    ensures GroupOf(EMPTY_GROUPS) == map["a" := "g"] && Acyclic(GroupOf(EMPTY_GROUPS))
    ensures forall x :: Chain(GroupOf(EMPTY_GROUPS), x) == if x == "a" then ["g"] else []
  {
    var gs := EMPTY_GROUPS;
    assert gs[..0] == [] && GroupOf(gs[..0]) == map[];
    assert Ranked(GroupOf(gs), map["g" := 0, "a" := 1]);
    assert Chain(GroupOf(gs), "g") == [];
  }

  lemma EmptyValidated()
    ensures Validated(EMPTY_NODES, EMPTY_GROUPS)
  {
    EmptyGroups();
    var ns := EMPTY_NODES;
    assert ns[0].id[0] == 'r' && ns[1].id[0] == 'a';
    PlainNode(ns, ns[0]);
    assert IsNode(ns, ns[0].id) && ns[1].relationships == [In("r")];
    PlainNode(ns, ns[1]);
    assert ns[1].id == "a";
  }

  /** The only containments: of `a` in `g`, and of `g` in `r`. */
  lemma EmptyContainers(s: Name, t: Name)
    requires Acyclic(GroupOf(EMPTY_GROUPS))
    ensures PlanContainer(EMPTY_NODES, GroupOf(EMPTY_GROUPS), s, t) <==>
      (s == "a" && t == "g") || (s == "g" && t == "r")
  {
    EmptyGroups();
    var ns, gof := EMPTY_NODES, GroupOf(EMPTY_GROUPS);
    assert In("r").hierarchy[1] == CONTAINED_IN;
    assert forall a, b :: Rel(ns, a, b) ==> a == 1 && b == 0;
    assert Lifts(ns, gof, 1, 0) && Path(gof, "g") == ["g"] && Lifted(ns, gof, 1, 0) == ("g", "r");
  }

  /** The plan can be deployed. */
  lemma EmptyDeployable()
    ensures Validated(EMPTY_NODES, EMPTY_GROUPS)
    ensures SharedContainer(EMPTY_NODES, GroupOf(EMPTY_GROUPS)) && NoLoops(EMPTY_NODES, GroupOf(EMPTY_GROUPS))
  {
    EmptyValidated();
    var ns, gof := EMPTY_NODES, GroupOf(EMPTY_GROUPS);
    assert forall a, b :: Rel(ns, a, b) ==> a == 1 && b == 0;
    var rank: map<Name, nat> := map["r" := 0, "g" := 1, "a" := 2];
    forall s, t | PlanContainer(ns, gof, s, t) ensures s in rank && t in rank && rank[t] < rank[s] {
      EmptyContainers(s, t);
    }
    assert RanksPlan(ns, gof, rank);
  }

  /** The declared containment of the plan, however its graph was built. */
  ghost predicate EmptyParents(parent: map<Name, Name>) {
    parent == map["a" := "g", "g" := "r"]
  }

  lemma EmptyCounts(parent: map<Name, Name>)
    requires EmptyParents(parent)
    ensures Acyclic(parent) && ParentsKnownTo(EMPTY_NODES, EMPTY_GROUPS, parent)
    ensures IsNode(EMPTY_NODES, "a") && IsGroup(EMPTY_GROUPS, "g")
    ensures DeclaredProduct(EMPTY_NODES, EMPTY_GROUPS, parent, "g") == 1
    ensures DeclaredProduct(EMPTY_NODES, EMPTY_GROUPS, parent, "a") == 0
  {
    var ns, gs := EMPTY_NODES, EMPTY_GROUPS;
    assert Ranked(parent, map["r" := 0, "g" := 1, "a" := 2]);
    assert ns[0].id == "r" && ns[1].id == "a" && gs[0].name == "g";
    assert DeclaredCount(ns, gs, "r") == 1 && DeclaredCount(ns, gs, "g") == 1 && DeclaredCount(ns, gs, "a") == 0;
    assert DeclaredProduct(ns, gs, parent, "r") == 1;
  }

  lemma EmptyMapped(parent: map<Name, Name>)
    requires Acyclic(GroupOf(EMPTY_GROUPS)) && MapsPlan(EMPTY_NODES, GroupOf(EMPTY_GROUPS), parent)
    ensures EmptyParents(parent)
  {
    EmptyContainers("a", "g");
    EmptyContainers("g", "r");
    forall s | s in parent ensures (s == "a" && parent[s] == "g") || (s == "g" && parent[s] == "r") {
      EmptyContainers(s, parent[s]);
    }
  }

  lemma EmptyParentsOf(plan: PlanGraph)
    requires PlanOf(EMPTY_NODES, EMPTY_GROUPS, plan) && ValidGraph(plan)
    ensures EmptyParents(ContainedGraph(plan))
  {
    ValidatedSeparate(EMPTY_NODES, EMPTY_GROUPS);
    GraphMapsPlan(EMPTY_NODES, GroupOf(EMPTY_GROUPS), plan);
    EmptyMapped(ContainedGraph(plan));
  }

  lemma EmptyNotRecorded(parent: map<Name, Name>)
    requires EmptyParents(parent) && Acyclic(parent) && Acyclic(GroupOf(EMPTY_GROUPS))
    requires ParentsKnownTo(EMPTY_NODES, EMPTY_GROUPS, parent)
    ensures !AllRecorded(EMPTY_NODES, EMPTY_GROUPS, parent)
  {
    EmptyCounts(parent);
    EmptyGroups();
    assert "g" in parent;
    assert !HasRecorder(EMPTY_NODES, EMPTY_GROUPS, parent, "g");
  }

  /** Whatever instances the plan is expanded into: built back, the group's instance has lost its container. */
  lemma EmptyGroupLost(plan: PlanGraph, c: InstanceGraph, g: InstanceGraph, w: World, s: Inst, instances: seq<Stored>)
    returns (parts: seq<Rebuilt>)
    requires DeploymentOf(EMPTY_NODES, EMPTY_GROUPS, plan, c, g, w, s, instances)
    ensures PartsOf(plan, instances, parts)
    ensures JoinAll(parts).contained != c.edges.Keys
  {
    parts := FreshRoundTrip.FreshRoundTrip(EMPTY_NODES, EMPTY_GROUPS, plan, c, g, w, s, instances);
    EmptyParentsOf(plan);
    EmptyNotRecorded(w.parent);
  }
}
