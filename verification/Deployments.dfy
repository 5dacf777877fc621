/**
  What holds of a whole deployment after it is expanded for the first time or modified.
*/
module Deployments {
  import opened Names
  import opened Forests
  import opened Graphs
  import opened Growth
  import opened Expansion

  /** The product of the declared counts of `n` and of everything that contains it. */
  ghost function Product(w: World, n: Name): (r: nat)
    requires ValidPlan(w) && n in w.nodes
    decreases Rank(w.parent, n)
  {
    if n in w.parent then
      RankDrops(w.parent, n);
      Product(w, w.parent[n]) * NonNegative(w.current[n])
    else
      NonNegative(w.current[n])
  }

  ghost predicate FreshWorld(w: World) {
    w.prevNode == map[] && w.requested == map[]
  }

  ghost function InstancesOf(s: Inst, n: Name): set<Id> {
    set i | i in s.node && s.node[i] == n
  }

  ghost function Held(cont: map<Id, Id>, held: set<Id>, p: Id): set<Id> {
    set i | i in held && i in cont && cont[i] == p
  }

  lemma OneMore(n: nat, k: nat)
    ensures (n + 1) * k == n * k + k
  {
  }

  /** If each of `holders` holds `k` of `held`, and nothing else does, there are `k` times as many. */
  lemma {:induction false} FiberCount(cont: map<Id, Id>, held: set<Id>, holders: set<Id>, k: nat)
    requires forall i :: i in held ==> i in cont && cont[i] in holders
    requires forall p :: p in holders ==> |Held(cont, held, p)| == k
    ensures |held| == |holders| * k
    decreases holders
  {
    if holders == {} {
      assert held == {};
    } else {
      var p :| p in holders;
      var part := Held(cont, held, p);
      forall q | q in holders - {p}
        ensures |Held(cont, held - part, q)| == k
      {
        assert Held(cont, held - part, q) == Held(cont, held, q);
      }
      FiberCount(cont, held - part, holders - {p}, k);
      OneMore(|holders - {p}|, k);
    }
  }

  /** In a fresh deployment each container holds the declared number of instances. */
  lemma FreshKids(w: World, s: Inst, c: Name, p: Id)
    requires ValidPlan(w) && FreshWorld(w) && Sound(w, s) && Complete(w, s)
    requires c in w.parent && p in s.node && s.node[p] == w.parent[c]
    ensures |Kids(s, c, Some(p))| == NonNegative(w.current[c])
  {
    assert Settled(w, s, None, {}, p, c);
    assert PrevKids(w, c, Some(p)) == {};
  }

  lemma FreshStep(w: World, s: Inst, n: Name)
    requires ValidPlan(w) && FreshWorld(w) && Sound(w, s) && Complete(w, s) && n in w.parent
    ensures |InstancesOf(s, n)| == |InstancesOf(s, w.parent[n])| * NonNegative(w.current[n])
  {
    var holders := InstancesOf(s, w.parent[n]);
    var held := InstancesOf(s, n);
    forall p | p in holders
      ensures |Held(s.cont, held, p)| == NonNegative(w.current[n])
    {
      FreshKids(w, s, n, p);
      assert Held(s.cont, held, p) == Kids(s, n, Some(p));
    }
    FiberCount(s.cont, held, holders, NonNegative(w.current[n]));
  }

  lemma FreshRoot(w: World, s: Inst, n: Name)
    requires ValidPlan(w) && FreshWorld(w) && Complete(w, s) && n in w.nodes && n !in w.parent
    ensures |InstancesOf(s, n)| == NonNegative(w.current[n])
  {
    assert KidsOk(w, n, None, Kids(s, n, None));
    assert PrevKids(w, n, None) == {};
    assert Kids(s, n, None) == InstancesOf(s, n);
  }

  /** A fresh deployment has as many instances of `n` as the counts on its containment path multiply to. */
  lemma {:induction false} FreshCount(w: World, s: Inst, n: Name)
    requires ValidPlan(w) && FreshWorld(w) && Sound(w, s) && Complete(w, s) && n in w.nodes
    ensures |InstancesOf(s, n)| == Product(w, n)
    decreases Rank(w.parent, n)
  {
    if n in w.parent {
      RankDrops(w.parent, n);
      FreshCount(w, s, w.parent[n]);
      FreshStep(w, s, n);
    } else {
      FreshRoot(w, s, n);
    }
  }

  /** After a modification: the requested count under each container, or at least the declared one. */
  lemma ModifiedKids(w: World, s: Inst, c: Name, p: Id)
    requires ValidPlan(w) && Complete(w, s)
    requires c in w.parent && p in s.node && s.node[p] == w.parent[c]
    ensures |Kids(s, c, Some(p))| ==
            if c in w.requested then NonNegative(w.requested[c]) else Max(|PrevKids(w, c, Some(p))|, w.current[c])
  {
    assert Settled(w, s, None, {}, p, c);
  }

  /** A previous instance stays only if the instance that contained it stays. */
  lemma SurvivorsContainer(w: World, s: Inst, i: Id, q: Id)
    requires ValidWorld(w) && Sound(w, s)
    requires i in s.node && PlacedIn(w, i, q)
    ensures q in s.node && i in s.cont && s.cont[i] == q
  {
    assert PlacedIn(w, i, s.cont[i]);
  }

  /** The containment of the previous instances. */
  ghost predicate PreviousContainment(w: World, cont: map<Id, Id>) {
    forall i :: i in cont ==> PlacedIn(w, i, cont[i])
  }

  /** Removal is closed under containment: what a removed instance contained, at any depth, is removed. */
  lemma {:induction false} RemovalClosed(w: World, s: Inst, cont: map<Id, Id>, i: Id, q: Id)
    requires ValidWorld(w) && Sound(w, s)
    requires Acyclic(cont) && PreviousContainment(w, cont)
    requires q in Chain(cont, i) && q !in s.node
    ensures i !in s.node
    decreases Rank(cont, i)
  {
    if i in s.node {
      ChainWithin(cont, i, q);
      RankDrops(cont, i);
      SurvivorsContainer(w, s, i, cont[i]);
      RemovalClosed(w, s, cont, cont[i], q);
    }
  }

  /** A node that is not modified never loses an instance whose container stays. */
  lemma UnmodifiedStays(w: World, s: Inst, i: Id, q: Id)
    requires ValidWorld(w) && Sound(w, s) && Complete(w, s)
    requires PlacedIn(w, i, q) && q in s.node && w.prevNode[i] !in w.requested
    ensures i in s.node && i in s.cont && s.cont[i] == q
  {
    var c := w.prevNode[i];
    assert Settled(w, s, None, {}, q, c);
    assert i in PrevKids(w, c, Some(q));
    assert i in Kids(s, c, Some(q));
  }

  /** The instances' own containment is a forest, of the shape of the plan's. */
  lemma InstanceForest(w: World, s: Inst)
    requires ValidPlan(w) && WellPlaced(w, s)
    ensures Acyclic(s.cont)
  {
    var rank := map i | i in s.node :: Rank(w.parent, s.node[i]);
    assert Ranked(s.cont, rank);
  }

  /**
    Whatever a modification builds is a valid starting point for the next one: the edges added for
    connections join instances whose plan elements are not each other's containers.
  */
  lemma NextPrevious(w: World, s: Inst, connections: set<(Id, Id)>, next: World)
    requires ValidPlan(w) && WellPlaced(w, s)
    requires forall e :: e in connections ==> e.0 in s.node && e.1 in s.node
    requires forall e :: e in connections && s.node[e.0] in w.parent ==> w.parent[s.node[e.0]] != s.node[e.1]
    requires next.parent == w.parent && next.prevNode == s.node
    requires forall e :: e in next.prevEdges <==> e in connections || (e.0 in s.cont && s.cont[e.0] == e.1)
    ensures ValidPrevious(next)
    ensures forall i, p :: PlacedIn(next, i, p) <==> i in s.cont && s.cont[i] == p
  {
  }

  /** Each instance of a contained element has exactly one edge to an instance of its container's element. */
  ghost predicate OneContainer(w: World, g: InstanceGraph, i: Id)
    requires i in g.nodes && g.nodes[i].name in w.parent
  {
    exists q ::
      && (i, q) in g.edges && q in g.nodes && g.nodes[q].name == w.parent[g.nodes[i].name]
      && forall r :: (i, r) in g.edges ==> r == q
  }

  ghost function GraphKids(g: InstanceGraph, c: Name, p: Id): set<Id> {
    set i | i in g.nodes && g.nodes[i].name == c && (i, p) in g.edges
  }

  lemma GraphMatches(w: World, g: InstanceGraph, s: Inst)
    requires Represents(g, s) && WellPlaced(w, s)
    ensures forall i :: i in g.nodes && g.nodes[i].name in w.parent ==> OneContainer(w, g, i)
    ensures forall c, p :: GraphKids(g, c, p) == Kids(s, c, Some(p))
    ensures forall n :: (set i | i in g.nodes && g.nodes[i].name == n) == InstancesOf(s, n)
  {
    forall i | i in g.nodes && g.nodes[i].name in w.parent
      ensures OneContainer(w, g, i)
    {
      assert (i, s.cont[i]) in g.edges;
    }
    forall c, p
      ensures GraphKids(g, c, p) == Kids(s, c, Some(p))
    {
    }
  }

  /** The containment part of a fresh deployment. */
  method ExpandFresh(plan: PlanGraph) returns (g: InstanceGraph, ghost w: World)
    requires ValidGraph(plan)
    ensures w == WorldOf(plan, None, map[]) && FreshLabelled(plan, g)
    ensures forall n :: n in plan.nodes ==> |set i | i in g.nodes && g.nodes[i].name == n| == Product(w, n)
    ensures forall i :: i in g.nodes ==> g.nodes[i].name in plan.nodes
    ensures forall i :: i in g.nodes && g.nodes[i].name in w.parent ==> OneContainer(w, g, i)
    ensures forall c, p :: c in w.parent && p in g.nodes && g.nodes[p].name == w.parent[c] ==>
              |GraphKids(g, c, p)| == NonNegative(plan.nodes[c].current)
  {
    w := WorldOf(plan, None, map[]);
    var ctx := new Context(plan, None, map[]);
    ctx.HandleContainedIn();
    g := ctx.graph;
    ghost var s := ctx.inst;
    AllNew(plan, g);
    GraphMatches(w, g, s);
    forall n | n in plan.nodes
      ensures |set i | i in g.nodes && g.nodes[i].name == n| == Product(w, n)
    {
      FreshCount(w, s, n);
    }
    forall c, p | c in w.parent && p in g.nodes && g.nodes[p].name == w.parent[c]
      ensures |GraphKids(g, c, p)| == NonNegative(plan.nodes[c].current)
    {
      FreshKids(w, s, c, p);
    }
  }

  lemma PreviousGraphKids(plan: PlanGraph, previous: InstanceGraph, modified: map<Name, Modification>, c: Name, p: Id)
    requires SingleContainer(plan)
    ensures PrevKids(WorldOf(plan, Some(previous), modified), c, Some(p)) == GraphKids(previous, c, p)
  {
  }

  /**
    What a modification hands out as the containment part of `s`: a graph, unless an instance that it
    keeps lacks the record of the containment that its plan node declares.
  */
  ghost predicate Modified(plan: PlanGraph, previous: InstanceGraph, modified: map<Name, Modification>,
                           g: Option<InstanceGraph>, s: Inst)
    requires ValidGraph(plan)
  {
    var w := WorldOf(plan, Some(previous), modified);
    && ValidWorld(w) && Sound(w, s) && Complete(w, s)
    && (g.None? <==> Failing(plan, previous.nodes, s))
    && (g.Some? ==> Represents(g.value, s) && Labelled(plan, previous.nodes, g.value))
  }

  /** The containment part of a modification. */
  method ExpandModified(plan: PlanGraph, previous: InstanceGraph, modified: map<Name, Modification>)
    returns (g: Option<InstanceGraph>)
    requires ValidGraph(plan) && ValidPrevious(WorldOf(plan, Some(previous), modified))
    ensures exists s :: Modified(plan, previous, modified, g, s)
  {
    var ctx := new Context(plan, Some(previous), modified);
    ctx.HandleContainedIn();
    g := if ctx.failed then None else Some(ctx.graph);
    assert Modified(plan, previous, modified, g, ctx.inst);
  }

  /** What that says about the graph, seen against the previous one. */
  lemma ModifiedGraph(plan: PlanGraph, previous: InstanceGraph, modified: map<Name, Modification>, g: InstanceGraph,
                      s: Inst)
    requires ValidGraph(plan) && Modified(plan, previous, modified, Some(g), s)
    ensures var w := WorldOf(plan, Some(previous), modified);
            forall i :: i in g.nodes && g.nodes[i].name in w.parent ==> OneContainer(w, g, i)
    ensures var w := WorldOf(plan, Some(previous), modified);
            forall c, p :: c in w.parent && p in g.nodes && g.nodes[p].name == w.parent[c] ==>
              |GraphKids(g, c, p)| == KidsAfter(plan, previous, modified, c, p)
    ensures var w := WorldOf(plan, Some(previous), modified);
            forall i, q :: PlacedIn(w, i, q) && i in g.nodes ==> q in g.nodes
  {
    var w := WorldOf(plan, Some(previous), modified);
    GraphMatches(w, g, s);
    forall c, p | c in w.parent && p in g.nodes && g.nodes[p].name == w.parent[c]
      ensures |GraphKids(g, c, p)| == KidsAfter(plan, previous, modified, c, p)
    {
      ModifiedKids(w, s, c, p);
      PreviousGraphKids(plan, previous, modified, c, p);
    }
    forall i, q | PlacedIn(w, i, q) && i in g.nodes
      ensures q in g.nodes
    {
      SurvivorsContainer(w, s, i, q);
    }
  }

  /** The number of instances of `c` that the instance `p` holds after a modification. */
  ghost function KidsAfter(plan: PlanGraph, previous: InstanceGraph, modified: map<Name, Modification>, c: Name,
                           p: Id): int
    requires c in plan.nodes
  {
    if c in modified then NonNegative(modified[c].instances)
    else Max(|GraphKids(previous, c, p)|, plan.nodes[c].current)
  }

  lemma {:induction false} FirstOfTypeIs(rels: seq<RelationshipInstance>, typeName: string)
    ensures FirstOfType(rels, typeName).None? ==> forall k :: 0 <= k < |rels| ==> rels[k].typeName != typeName
    ensures FirstOfType(rels, typeName).Some? ==>
      exists k :: 0 <= k < |rels| && FirstOfType(rels, typeName) == Some(rels[k]) && rels[k].typeName == typeName &&
        forall m :: 0 <= m < k ==> rels[m].typeName != typeName
  {
    if rels != [] && rels[0].typeName != typeName {
      var rest := rels[1..];
      FirstOfTypeIs(rest, typeName);
      if k :| 0 <= k < |rest| && FirstOfType(rest, typeName) == Some(rest[k]) && rest[k].typeName == typeName &&
              forall m :: 0 <= m < k ==> rest[m].typeName != typeName {
        assert rels[k + 1] == rest[k] && forall m :: 0 < m < k + 1 ==> rels[m] == rest[m - 1];
      }
    }
  }

  lemma {:induction false} FirstContainedIs(rels: seq<Relationship>)
    ensures FirstContained(rels).None? ==> forall k :: 0 <= k < |rels| ==> CONTAINED_IN !in rels[k].hierarchy
    ensures FirstContained(rels).Some? ==>
      exists k :: 0 <= k < |rels| && FirstContained(rels) == Some(rels[k]) && CONTAINED_IN in rels[k].hierarchy &&
        forall m :: 0 <= m < k ==> CONTAINED_IN !in rels[m].hierarchy
  {
    if rels != [] && CONTAINED_IN !in rels[0].hierarchy {
      var rest := rels[1..];
      FirstContainedIs(rest);
      if k :| 0 <= k < |rest| && FirstContained(rest) == Some(rest[k]) && CONTAINED_IN in rest[k].hierarchy &&
              forall m :: 0 <= m < k ==> CONTAINED_IN !in rest[m].hierarchy {
        assert rels[k + 1] == rest[k] && forall m :: 0 < m < k + 1 ==> rels[m] == rest[m - 1];
      }
    }
  }

  /** `r` is the first of the records with the type of the first containment that the node declares. */
  ghost predicate RecordOf(node: PlanNode, instance: InstanceNode, r: RelationshipInstance) {
    exists a, k ::
      && 0 <= a < |node.relationships| && CONTAINED_IN in node.relationships[a].hierarchy
      && (forall b :: 0 <= b < a ==> CONTAINED_IN !in node.relationships[b].hierarchy)
      && 0 <= k < |instance.relationships| && instance.relationships[k] == r
      && r.typeName == node.relationships[a].typeName
      && forall m :: 0 <= m < k ==> instance.relationships[m].typeName != r.typeName
  }

  /**
    The containment edge of a kept instance carries the record that it was stored with, or none if its node
    declares no containment.
  */
  lemma KeptRecord(plan: PlanGraph, previous: InstanceGraph, modified: map<Name, Modification>, g: InstanceGraph,
                   s: Inst, e: (Id, Id))
    requires ValidGraph(plan) && Modified(plan, previous, modified, Some(g), s)
    requires e in g.edges && e.0 in previous.nodes
    ensures g.nodes[e.0] == previous.nodes[e.0] && g.nodes[e.0].name in plan.nodes
    ensures var node, r := plan.nodes[g.nodes[e.0].name], g.edges[e].relationship;
      if r.Some? then RecordOf(node, previous.nodes[e.0], r.value)
      else forall a :: 0 <= a < |node.relationships| ==> CONTAINED_IN !in node.relationships[a].hierarchy
  {
    KeptLabels(plan, previous, modified, g, s, e);
    RecordExtracted(plan.nodes[g.nodes[e.0].name], previous.nodes[e.0], g.edges[e].relationship);
  }

  lemma KeptLabels(plan: PlanGraph, previous: InstanceGraph, modified: map<Name, Modification>, g: InstanceGraph,
                   s: Inst, e: (Id, Id))
    requires ValidGraph(plan) && Modified(plan, previous, modified, Some(g), s)
    requires e in g.edges && e.0 in previous.nodes
    ensures e.0 in g.nodes && g.nodes[e.0] == previous.nodes[e.0] && g.nodes[e.0].name in plan.nodes
    ensures var node := plan.nodes[g.nodes[e.0].name];
      RecordFound(node, previous.nodes[e.0]) && g.edges[e].relationship == ExtractContained(node, previous.nodes[e.0])
  {
    assert EdgeLabelled(plan, previous.nodes, g, e) && NodeLabelled(plan, previous.nodes, e.0, g.nodes[e.0]);
    assert !Fails(plan, previous.nodes, e.0);
  }

  lemma RecordExtracted(node: PlanNode, instance: InstanceNode, r: Option<RelationshipInstance>)
    requires RecordFound(node, instance) && r == ExtractContained(node, instance)
    ensures if r.Some? then RecordOf(node, instance, r.value)
      else forall a :: 0 <= a < |node.relationships| ==> CONTAINED_IN !in node.relationships[a].hierarchy
  {
    FirstContainedIs(node.relationships);
    if FirstContained(node.relationships).Some? {
      FirstOfTypeIs(instance.relationships, FirstContained(node.relationships).value.typeName);
    }
  }
}
