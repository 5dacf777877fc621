/**
  Name resolution over the instances that a fresh deployment hands out.
*/
module DeployedResolution {
  import opened Names
  import opened Forests
  import opened Graphs
  import opened Growth
  import opened Expansion
  import opened PlanGroups
  import opened PlanBuilder
  import opened Deployments
  import opened Partition
  import opened Connections
  import opened Wiring
  import opened Extraction
  import opened Transparency
  import opened MultiInstance
  import Resolution

  function NodeRelationships(n: NodeDef): seq<(bool, Name)> {
    seq(|n.relationships|, k requires 0 <= k < |n.relationships| =>
      (IsContained(n.relationships[k]), n.relationships[k].target))
  }

  function InstanceRelationships(rels: seq<RelationshipInstance>): (r: seq<(Name, Id)>)
    ensures |r| == |rels| && forall k :: 0 <= k < |rels| ==> r[k] == (rels[k].targetName, rels[k].targetId)
  {
    seq(|rels|, k requires 0 <= k < |rels| => (rels[k].targetName, rels[k].targetId))
  }

  function AsStored(r: Stored): Resolution.StoredInstance {
    Resolution.StoredInstance(r.id, r.name, r.groups, InstanceRelationships(r.relationships))
  }

  /** `st` stores the plan's nodes and the instances handed out for them. */
  ghost predicate Stores(st: Resolution.Storage, ns: seq<NodeDef>, instances: seq<Stored>) {
    && (forall n :: n in st.nodes <==> IsNode(ns, n))
    && (forall a :: 0 <= a < |ns| ==>
      ns[a].id in st.nodes && st.nodes[ns[a].id] == Resolution.StoredNode(NodeRelationships(ns[a])))
    && (forall i :: i in st.instances <==> exists k :: 0 <= k < |instances| && instances[k].id == i)
    && (forall k :: 0 <= k < |instances| ==> instances[k].id in st.instances)
    && (forall k :: 0 <= k < |instances| ==> st.instances[instances[k].id] == AsStored(instances[k]))
  }

  /** The contained_in relationship of a node. */
  ghost predicate ContainedAt(ns: seq<NodeDef>, a: int, b: int) {
    Rel(ns, a, b) && IsContained(ns[a].relationships[b])
  }

  lemma {:induction false} ContainedTargetIs(rels: seq<(bool, Name)>)
    ensures Resolution.ContainedTarget(rels).None? ==> forall k :: 0 <= k < |rels| ==> !rels[k].0
    ensures Resolution.ContainedTarget(rels).Some? ==>
              exists k :: 0 <= k < |rels| && rels[k].0 && rels[k].1 == Resolution.ContainedTarget(rels).value
  {
    if rels != [] && !rels[0].0 {
      ContainedTargetIs(rels[1..]);
      if Resolution.ContainedTarget(rels).Some? {
        var k :| 0 <= k < |rels[1..]| && rels[1..][k].0 && rels[1..][k].1 == Resolution.ContainedTarget(rels).value;
        assert rels[k + 1].0 && rels[k + 1].1 == Resolution.ContainedTarget(rels).value;
      }
    }
  }

  lemma {:induction false} TargetIdIs(rels: seq<(Name, Id)>, target: Name, q: Id)
    requires forall k :: 0 <= k < |rels| && rels[k].0 == target ==> rels[k].1 == q
    requires exists k :: 0 <= k < |rels| && rels[k].0 == target
    ensures Resolution.TargetId(rels, target) == Some(q)
  {
    if rels[0].0 != target {
      var k :| 0 <= k < |rels| && rels[k].0 == target;
      assert rels[1..][k - 1].0 == target;
      TargetIdIs(rels[1..], target, q);
    }
  }

  /** The node `a`'s stored contained_in target is the one it declares. */
  lemma ContainedTargetOf(ns: seq<NodeDef>, groups: seq<GroupDef>, a: int)
    requires Validated(ns, groups) && 0 <= a < |ns|
    ensures var t := Resolution.ContainedTarget(NodeRelationships(ns[a]));
            && (t.None? <==> forall b :: !ContainedAt(ns, a, b))
            && (forall b :: ContainedAt(ns, a, b) ==> t == Some(ns[a].relationships[b].target))
  {
    var rels := NodeRelationships(ns[a]);
    ContainedTargetIs(rels);
    if Resolution.ContainedTarget(rels).Some? {
      var k :| 0 <= k < |rels| && rels[k].0 && rels[k].1 == Resolution.ContainedTarget(rels).value;
      assert ContainedAt(ns, a, k);
    }
    forall b | ContainedAt(ns, a, b)
      ensures Resolution.ContainedTarget(rels) == Some(ns[a].relationships[b].target)
    {
      assert rels[b].0;
      var k :| 0 <= k < |rels| && rels[k].0 && rels[k].1 == Resolution.ContainedTarget(rels).value;
      assert ValidatedNode(ns, ns[a]) && IsContained(ns[a].relationships[k]);
    }
  }

  lemma PrimaryContains(ns: seq<NodeDef>, gof: map<Name, Name>, a: int, b: int)
    requires Acyclic(gof) && ContainedAt(ns, a, b)
    ensures var e := Primary(ns, gof, a, b); PlanContainer(ns, gof, e.0, e.1)
  {
    if ns[a].id !in gof {
      assert Uncovered(ns, gof, a, b);
    }
  }

  /** The edge that a contained_in relationship of `i`'s node leads to what holds `i`. */
  lemma HolderEdge(ns: seq<NodeDef>, groups: seq<GroupDef>, plan: PlanGraph,
                   c: InstanceGraph, g: InstanceGraph, w: World, s: Inst, i: Id, a: int, b: int)
    requires PlanOf(ns, groups, plan) && FreshOf(plan, c, g, w, s) && Unmixed(plan) && Extractable(c, g, s)
    requires i in c.nodes && !c.nodes[i].group && 0 <= a < |ns| && ns[a].id == s.node[i] && ContainedAt(ns, a, b)
    ensures i in s.cont && (i, s.cont[i]) in g.edges && EdgeRecord(c, g, s, i, s.cont[i])
    ensures s.cont[i] in s.node && s.node[s.cont[i]] == Primary(ns, GroupOf(groups), a, b).1
    ensures CopiesPlan(plan, g, s, i, s.cont[i])
    ensures RelationshipIn(ns, GroupOf(groups), plan.edges, a, b)
  {
    var gof := GroupOf(groups);
    ValidatedSeparate(ns, groups);
    GraphMapsPlan(ns, gof, plan);
    var e := Primary(ns, gof, a, b);
    assert RelationshipIn(ns, gof, plan.edges, a, b) by { assert Before(ns, |ns|, 0, a, b); }
    PrimaryContains(ns, gof, a, b);
    assert w.parent == ContainedGraph(plan);
    assert (i, s.cont[i]) in g.edges && EdgeRecord(c, g, s, i, s.cont[i]);
    EdgeCopies(plan, c, g, w, s, i, s.cont[i]);
  }

  /** The instance that a contained_in relationship of `i` is handed out with. */
  lemma HolderHanded(ns: seq<NodeDef>, groups: seq<GroupDef>, plan: PlanGraph,
                     c: InstanceGraph, g: InstanceGraph, w: World, s: Inst, i: Id, a: int, b: int)
    requires PlanOf(ns, groups, plan) && FreshOf(plan, c, g, w, s) && Unmixed(plan) && Extractable(c, g, s)
    requires i in c.nodes && !c.nodes[i].group && 0 <= a < |ns| && ns[a].id == s.node[i] && ContainedAt(ns, a, b)
    ensures i in s.cont && (i, s.cont[i]) in g.edges && !IsGroupEdge(g.edges[(i, s.cont[i])])
    ensures var r := g.edges[(i, s.cont[i])].relationship;
            r.Some? && AfterGroups(Chain(s.cont, i), GroupInstances(c)) == Some(Handed(c, s, i, r.value).targetId)
            && Handed(c, s, i, r.value).targetName == ns[a].relationships[b].target
  {
    HolderEdge(ns, groups, plan, c, g, w, s, i, a, b);
    assert ValidatedNode(ns, ns[a]) && ValidatedTarget(ns, ns[a].relationships[b]);
    LeadingStep(c, s, i);
    if Lifts(ns, GroupOf(groups), a, b) {
      HandedLifted(ns, groups, plan, c, g, w, s, i, a, b);
    } else {
      TargetNotGroup(ns, groups, plan, s.node[s.cont[i]]);
      assert GroupMarked(plan, c.nodes[s.cont[i]]);
    }
  }

  /** Around an instance, the plan element tells the instance. */
  lemma ChainNameUnique(w: World, s: Inst, i: Id, x: Id, y: Id)
    requires ValidPlan(w) && WellPlaced(w, s) && Acyclic(s.cont) && i in s.node
    requires x in Chain(s.cont, i) && y in Chain(s.cont, i) && x in s.node && y in s.node && s.node[x] == s.node[y]
    ensures x == y
  {
    ChainNames(w, s, i);
    var k :| 0 <= k < |Chain(s.cont, i)| && Chain(s.cont, i)[k] == x;
    var m :| 0 <= m < |Chain(s.cont, i)| && Chain(s.cont, i)[m] == y;
    if k < m {
      ChainDistinct(w.parent, s.node[i], k, m);
    } else if m < k {
      ChainDistinct(w.parent, s.node[i], m, k);
    }
  }

  /** What holds the groups around `i`: the parent that the stored relationships lead to. */
  ghost function Holder(c: InstanceGraph, s: Inst, i: Id): Option<Id>
    requires Acyclic(s.cont)
  {
    AfterGroups(Chain(s.cont, i), GroupInstances(c))
  }

  /** All of a fresh deployment that resolution depends on. */
  ghost predicate Deployed(ns: seq<NodeDef>, groups: seq<GroupDef>, plan: PlanGraph,
                           c: InstanceGraph, g: InstanceGraph, w: World, s: Inst) {
    PlanOf(ns, groups, plan) && FreshOf(plan, c, g, w, s) && Unmixed(plan) && Extractable(c, g, s)
  }

  /** A stored relationship that names the declared container points at the holder. */
  lemma NamedIsHolder(ns: seq<NodeDef>, groups: seq<GroupDef>, plan: PlanGraph,
                      c: InstanceGraph, g: InstanceGraph, w: World, s: Inst, i: Id, a: int, b: int, t: Id)
    requires Deployed(ns, groups, plan, c, g, w, s)
    requires i in c.nodes && !c.nodes[i].group && 0 <= a < |ns| && ns[a].id == s.node[i] && ContainedAt(ns, a, b)
    requires (i, t) in g.edges && !IsGroupEdge(g.edges[(i, t)]) && g.edges[(i, t)].relationship.Some?
    requires Handed(c, s, i, g.edges[(i, t)].relationship.value).targetName == ns[a].relationships[b].target
    ensures Holder(c, s, i) == Some(Handed(c, s, i, g.edges[(i, t)].relationship.value).targetId)
  {
    var r := Handed(c, s, i, g.edges[(i, t)].relationship.value);
    HandedAsDeclared(ns, groups, plan, c, g, w, s, i, t);
    var a', b' :| b' == g.edges[(i, t)].index && AsDeclared(ns, s, i, r, a', b');
    assert a' == a && ValidatedNode(ns, ns[a]);
    assert b' == b;
    HolderHanded(ns, groups, plan, c, g, w, s, i, a, b);
    HandedAsDeclared(ns, groups, plan, c, g, w, s, i, s.cont[i]);
    var h := Handed(c, s, i, g.edges[(i, s.cont[i])].relationship.value);
    var a2, b2 :| b2 == g.edges[(i, s.cont[i])].index && AsDeclared(ns, s, i, h, a2, b2);
    assert a2 == a && b2 == b;
    ChainNameUnique(w, s, i, r.targetId, h.targetId);
  }

  /** The stored relationships lead from an instance to its holder, if its node declares a container. */
  lemma StoredParent(ns: seq<NodeDef>, groups: seq<GroupDef>, plan: PlanGraph,
                     c: InstanceGraph, g: InstanceGraph, w: World, s: Inst, r: Stored, a: int, b: int)
    requires Deployed(ns, groups, plan, c, g, w, s) && Extracted(c, g, s, r)
    requires 0 <= a < |ns| && ns[a].id == r.name && ContainedAt(ns, a, b)
    ensures Resolution.TargetId(InstanceRelationships(r.relationships), ns[a].relationships[b].target) ==
      Holder(c, s, r.id)
    ensures Holder(c, s, r.id).Some?
  {
    var i := r.id;
    var target := ns[a].relationships[b].target;
    var order: seq<Id> :| HandedOut(c, g, s, i, order, r.relationships);
    var rels := InstanceRelationships(r.relationships);
    HolderHanded(ns, groups, plan, c, g, w, s, i, a, b);
    var q := Holder(c, s, i).value;
    forall k | 0 <= k < |rels| && rels[k].0 == target
      ensures rels[k].1 == q
    {
      assert IsHanded(c, g, s, i, order[k], r.relationships[k]);
      assert order[k] in Elements(order);
      NamedIsHolder(ns, groups, plan, c, g, w, s, i, a, b, order[k]);
    }
    assert (i, s.cont[i]).1 in Plain(g, i);
    assert s.cont[i] in order;
    var k :| 0 <= k < |order| && order[k] == s.cont[i];
    assert IsHanded(c, g, s, i, order[k], r.relationships[k]);
    assert rels[k].0 == target;
    TargetIdIs(rels, target, q);
  }

  /** The storage of a fresh deployment. */
  ghost predicate DeployedStorage(st: Resolution.Storage, ns: seq<NodeDef>, groups: seq<GroupDef>, plan: PlanGraph,
                                  c: InstanceGraph, g: InstanceGraph, w: World, s: Inst, instances: seq<Stored>)
  {
    Unmixed(plan) && DeploymentOf(ns, groups, plan, c, g, w, s, instances) && Stores(st, ns, instances)
  }

  /** Each stored instance is one of those handed out, of a node of the plan. */
  lemma StoredIs(st: Resolution.Storage, ns: seq<NodeDef>, groups: seq<GroupDef>, plan: PlanGraph,
                 c: InstanceGraph, g: InstanceGraph, w: World, s: Inst, instances: seq<Stored>, i: Id)
    returns (r: Stored, a: int)
    requires DeployedStorage(st, ns, groups, plan, c, g, w, s, instances) && i in st.instances
    ensures r.id == i && Extracted(c, g, s, r) && st.instances[i] == AsStored(r)
    ensures 0 <= a < |ns| && ns[a].id == r.name == s.node[i]
  {
    var k :| 0 <= k < |instances| && instances[k].id == i;
    r := instances[k];
    assert GroupMarked(plan, c.nodes[i]);
    a :| 0 <= a < |ns| && ns[a].id == r.name;
  }

  /** The stored parent of an instance is its holder. */
  lemma ParentIsHolder(st: Resolution.Storage, ns: seq<NodeDef>, groups: seq<GroupDef>, plan: PlanGraph,
                       c: InstanceGraph, g: InstanceGraph, w: World, s: Inst, instances: seq<Stored>, i: Id)
    requires DeployedStorage(st, ns, groups, plan, c, g, w, s, instances) && i in st.instances
    requires Resolution.HasParent(st, i)
    ensures i in Resolution.Parents(st) && Holder(c, s, i) == Some(Resolution.Parents(st)[i])
    ensures Resolution.Parents(st)[i] in st.instances && Resolution.Parents(st)[i] in Chain(s.cont, i)
  {
    var r, a := StoredIs(st, ns, groups, plan, c, g, w, s, instances, i);
    ContainedTargetOf(ns, groups, a);
    var b :| ContainedAt(ns, a, b);
    StoredParent(ns, groups, plan, c, g, w, s, r, a, b);
    var q := Holder(c, s, i).value;
    LeadingWithin(Chain(s.cont, i), GroupInstances(c));
    ChainKnown(c, s, i);
    assert q in c.nodes && !c.nodes[q].group;
  }

  /** Whether an instance has a stored parent depends on its node only. */
  lemma ParentByNode(st: Resolution.Storage, ns: seq<NodeDef>, groups: seq<GroupDef>, plan: PlanGraph,
                     c: InstanceGraph, g: InstanceGraph, w: World, s: Inst, instances: seq<Stored>, i: Id, j: Id)
    requires DeployedStorage(st, ns, groups, plan, c, g, w, s, instances) && i in st.instances && j in st.instances
    requires s.node[i] == s.node[j]
    ensures Resolution.HasParent(st, i) <==> Resolution.HasParent(st, j)
  {
    var r, a := StoredIs(st, ns, groups, plan, c, g, w, s, instances, i);
    var r', a' := StoredIs(st, ns, groups, plan, c, g, w, s, instances, j);
  }

  lemma ParentDrops(st: Resolution.Storage, ns: seq<NodeDef>, groups: seq<GroupDef>, plan: PlanGraph,
                    c: InstanceGraph, g: InstanceGraph, w: World, s: Inst, instances: seq<Stored>, i: Id)
    requires DeployedStorage(st, ns, groups, plan, c, g, w, s, instances) && i in Resolution.Parents(st)
    ensures Acyclic(s.cont) && i in st.instances && Resolution.Parents(st)[i] in st.instances
    ensures Rank(s.cont, Resolution.Parents(st)[i]) < Rank(s.cont, i)
  {
    ParentIsHolder(st, ns, groups, plan, c, g, w, s, instances, i);
    ChainRanks(s.cont, i, Resolution.Parents(st)[i]);
  }

  lemma ParentsRanked(st: Resolution.Storage, ns: seq<NodeDef>, groups: seq<GroupDef>, plan: PlanGraph,
                      c: InstanceGraph, g: InstanceGraph, w: World, s: Inst, instances: seq<Stored>)
    requires DeployedStorage(st, ns, groups, plan, c, g, w, s, instances)
    ensures Acyclic(Resolution.Parents(st))
  {
    forall i | i in Resolution.Parents(st)
      ensures Acyclic(s.cont) && i in st.instances && Resolution.Parents(st)[i] in st.instances
      ensures Rank(s.cont, Resolution.Parents(st)[i]) < Rank(s.cont, i)
    {
      ParentDrops(st, ns, groups, plan, c, g, w, s, instances, i);
    }
    RankedBy(Resolution.Parents(st), st.instances.Keys, s.cont);
  }

  /** What climbs in one forest at each step does not loop. */
  lemma RankedBy(parents: map<Id, Id>, ids: set<Id>, cont: map<Id, Id>)
    requires Acyclic(cont)
    requires forall i :: i in parents ==> i in ids && parents[i] in ids && Rank(cont, parents[i]) < Rank(cont, i)
    ensures Acyclic(parents)
  {
    var rank := map i | i in ids :: Rank(cont, i);
    assert Ranked(parents, rank);
  }

  /** So the stored references all resolve, without loops. */
  lemma StorageConsistent(st: Resolution.Storage, ns: seq<NodeDef>, groups: seq<GroupDef>, plan: PlanGraph,
                          c: InstanceGraph, g: InstanceGraph, w: World, s: Inst, instances: seq<Stored>)
    requires DeployedStorage(st, ns, groups, plan, c, g, w, s, instances)
    ensures Resolution.Consistent(st)
  {
    ParentsRanked(st, ns, groups, plan, c, g, w, s, instances);
    forall i | i in st.instances
      ensures st.instances[i].id == i && st.instances[i].nodeId in st.nodes
      ensures Resolution.HasParent(st, i) ==> i in Resolution.Parents(st) && Resolution.Parents(st)[i] in st.instances
    {
      var r, a := StoredIs(st, ns, groups, plan, c, g, w, s, instances, i);
      if Resolution.HasParent(st, i) {
        ParentIsHolder(st, ns, groups, plan, c, g, w, s, instances, i);
      }
    }
  }

  lemma NamesOfNamed(c: InstanceGraph, s: Inst, ids: seq<Id>, names: seq<Name>)
    requires Represents(c, s) && |ids| == |names|
    requires forall k :: 0 <= k < |ids| ==> ids[k] in s.node && s.node[ids[k]] == names[k]
    ensures Resolution.GroupNamesOf(Named(c, ids)) == names
  {
  }

  /** The groups recorded on an instance are those around its node. */
  lemma RecordedNames(plan: PlanGraph, c: InstanceGraph, g: InstanceGraph, w: World, s: Inst, i: Id)
    requires FreshOf(plan, c, g, w, s) && Extractable(c, g, s) && i in s.node
    ensures Resolution.GroupNamesOf(GroupsOf(c, s, i)) == LeadingGroups(Chain(w.parent, s.node[i]), GroupNames(plan))
  {
    ChainFlags(plan, c, w, s, i);
    var ids, names := Chain(s.cont, i), Chain(w.parent, s.node[i]);
    AfterGroupsMap(ids, names, s.node, GroupInstances(c), GroupNames(plan));
    NamesOfNamed(c, s, LeadingGroups(ids, GroupInstances(c)), LeadingGroups(names, GroupNames(plan)));
  }

  /** All instances of a node are in the same groups. */
  lemma {:induction false} InstancesAlike(st: Resolution.Storage, ns: seq<NodeDef>, groups: seq<GroupDef>,
                                          plan: PlanGraph,
                                          c: InstanceGraph, g: InstanceGraph, w: World, s: Inst, instances: seq<Stored>,
                                          i: Id, j: Id)
    requires DeployedStorage(st, ns, groups, plan, c, g, w, s, instances) && Resolution.Consistent(st)
    requires i in st.instances && j in st.instances && s.node[i] == s.node[j]
    ensures Resolution.ContainingGroups(st, i) == Resolution.ContainingGroups(st, j)
    decreases Rank(Resolution.Parents(st), i)
  {
    var r, a := StoredIs(st, ns, groups, plan, c, g, w, s, instances, i);
    var r', a' := StoredIs(st, ns, groups, plan, c, g, w, s, instances, j);
    RecordedNames(plan, c, g, w, s, i);
    RecordedNames(plan, c, g, w, s, j);
    ParentByNode(st, ns, groups, plan, c, g, w, s, instances, i, j);
    if Resolution.HasParent(st, i) {
      ParentIsHolder(st, ns, groups, plan, c, g, w, s, instances, i);
      ParentIsHolder(st, ns, groups, plan, c, g, w, s, instances, j);
      HolderOf(plan, c, g, w, s, i);
      HolderOf(plan, c, g, w, s, j);
      RankDrops(Resolution.Parents(st), i);
      InstancesAlike(st, ns, groups, plan, c, g, w, s, instances, Resolution.Parents(st)[i], Resolution.Parents(st)[j]);
    }
  }

  lemma {:induction false} GroupIdIs(groups: seq<(Name, Id)>, group: Name)
    ensures Resolution.GroupId(groups, group).Some? ==>
              exists k :: 0 <= k < |groups| && groups[k] == (group, Resolution.GroupId(groups, group).value)
  {
    if groups != [] && groups[0].0 != group {
      GroupIdIs(groups[1..], group);
      if Resolution.GroupId(groups, group).Some? {
        var k :| 0 <= k < |groups[1..]| && groups[1..][k] == (group, Resolution.GroupId(groups, group).value);
        assert groups[k + 1] == (group, Resolution.GroupId(groups, group).value);
      }
    }
  }

  /** A group instance recorded on an instance really holds it. */
  lemma RecordedIsReal(c: InstanceGraph, g: InstanceGraph, s: Inst, i: Id, group: Name)
    requires Extractable(c, g, s) && Resolution.GroupId(GroupsOf(c, s, i), group).Some?
    ensures InGroupInstance(s, i, group, Resolution.GroupId(GroupsOf(c, s, i), group).value)
  {
    GroupIdIs(GroupsOf(c, s, i), group);
    ChainKnown(c, s, i);
    LeadingWithin(Chain(s.cont, i), GroupInstances(c));
  }

  /** The group instance that the lookup finds is the one that really holds the instance. */
  lemma {:induction false} LookupIsReal(st: Resolution.Storage, ns: seq<NodeDef>, groups: seq<GroupDef>,
                                        plan: PlanGraph,
                                        c: InstanceGraph, g: InstanceGraph, w: World, s: Inst, instances: seq<Stored>,
                                        i: Id, group: Name)
    requires DeployedStorage(st, ns, groups, plan, c, g, w, s, instances) && Resolution.Consistent(st)
    requires i in st.instances && Resolution.GroupInstance(st, i, group).Some?
    ensures InGroupInstance(s, i, group, Resolution.GroupInstance(st, i, group).value)
    decreases Rank(Resolution.Parents(st), i)
  {
    var r, a := StoredIs(st, ns, groups, plan, c, g, w, s, instances, i);
    if Resolution.GroupId(st.instances[i].groups, group).Some? {
      RecordedIsReal(c, g, s, i, group);
    } else {
      RankDrops(Resolution.Parents(st), i);
      ParentIsHolder(st, ns, groups, plan, c, g, w, s, instances, i);
      var q := Resolution.Parents(st)[i];
      LookupIsReal(st, ns, groups, plan, c, g, w, s, instances, q, group);
      ChainTransitive(s.cont, i, q, Resolution.GroupInstance(st, i, group).value);
    }
  }

  /** The instances of one node. */
  ghost predicate AllOf(st: Resolution.Storage, s: Inst, n: Name, candidates: seq<Id>) {
    && candidates != [] && Distinct(candidates)
    && forall i :: i in candidates <==> i in st.instances && i in s.node && s.node[i] == n
  }

  lemma AlikeGroups(st: Resolution.Storage, ns: seq<NodeDef>, groups: seq<GroupDef>, plan: PlanGraph,
                    c: InstanceGraph, g: InstanceGraph, w: World, s: Inst, instances: seq<Stored>,
                    n: Name, candidates: seq<Id>)
    requires DeployedStorage(st, ns, groups, plan, c, g, w, s, instances) && Resolution.Consistent(st)
    requires AllOf(st, s, n, candidates)
    ensures Resolution.SameGroups(st, candidates)
  {
    forall i, j | i in candidates && j in candidates
      ensures Resolution.ContainingGroups(st, i) == Resolution.ContainingGroups(st, j)
    {
      InstancesAlike(st, ns, groups, plan, c, g, w, s, instances, i, j);
    }
  }

  /** `x` is the one candidate that is together with the context in the innermost shared group. */
  ghost predicate FoundIn(st: Resolution.Storage, s: Inst, context: Id, candidates: seq<Id>, group: Name, x: Id)
    requires Resolution.Consistent(st) && Acyclic(s.cont) && context in st.instances
    requires candidates != [] && forall i :: i in candidates ==> i in st.instances
  {
    Resolution.Innermost(st, context, candidates, group) && Together(s, context, x, group)
    && Resolution.OnlyOneWith(st, context, candidates, group, x)
  }

  lemma FoundTogether(st: Resolution.Storage, ns: seq<NodeDef>, groups: seq<GroupDef>, plan: PlanGraph,
                      c: InstanceGraph, g: InstanceGraph, w: World, s: Inst, instances: seq<Stored>,
                      context: Id, candidates: seq<Id>, group: Name, x: Id)
    requires DeployedStorage(st, ns, groups, plan, c, g, w, s, instances) && Resolution.Consistent(st)
    requires context in st.instances && candidates != [] && forall i :: i in candidates ==> i in st.instances
    requires Resolution.Innermost(st, context, candidates, group) &&
      Resolution.OnlyOneWith(st, context, candidates, group, x)
    ensures FoundIn(st, s, context, candidates, group, x)
  {
    Resolution.FirstSharedIs(Resolution.ContainingGroups(st, context), Resolution.ContainingGroups(st, candidates[0]));
    Resolution.GroupInstanceExactly(st, context, group);
    LookupIsReal(st, ns, groups, plan, c, g, w, s, instances, context, group);
    LookupIsReal(st, ns, groups, plan, c, g, w, s, instances, x, group);
  }

  lemma FoundShares(st: Resolution.Storage, ns: seq<NodeDef>, groups: seq<GroupDef>, plan: PlanGraph,
                    c: InstanceGraph, g: InstanceGraph, w: World, s: Inst, instances: seq<Stored>,
                    context: Id, candidates: seq<Id>, x: Id)
    requires DeployedStorage(st, ns, groups, plan, c, g, w, s, instances) && Resolution.Consistent(st)
    requires context in st.instances && candidates != [] && forall i :: i in candidates ==> i in st.instances
    requires Resolution.SameGroups(st, candidates) && Distinct(candidates)
    requires Resolution.ResolveFrom(st, context, candidates) == Resolution.Found(x)
    ensures x in candidates && exists group :: FoundIn(st, s, context, candidates, group, x)
  {
    Resolution.FoundExactly(st, context, candidates, x);
    var group :| Resolution.Innermost(st, context, candidates, group)
      && Resolution.OnlyOneWith(st, context, candidates, group, x);
    FoundTogether(st, ns, groups, plan, c, g, w, s, instances, context, candidates, group, x);
  }

  /**
    Over the instances of a fresh deployment, resolution by scaling group never fails; what it finds
    is really in the same instance of the innermost shared group as the context, and is the only
    instance of its node there.
  */
  lemma ResolvesWithinGroup(st: Resolution.Storage, ns: seq<NodeDef>, groups: seq<GroupDef>, plan: PlanGraph,
                            c: InstanceGraph, g: InstanceGraph, w: World, s: Inst, instances: seq<Stored>,
                            context: Id, n: Name, candidates: seq<Id>)
    requires DeployedStorage(st, ns, groups, plan, c, g, w, s, instances) && Resolution.Consistent(st)
    requires context in st.instances && AllOf(st, s, n, candidates)
    ensures Resolution.ResolveFrom(st, context, candidates) != Resolution.IllegalState
    ensures forall x :: Resolution.ResolveFrom(st, context, candidates) == Resolution.Found(x) ==>
              x in candidates && exists group :: FoundIn(st, s, context, candidates, group, x)
  {
    AlikeGroups(st, ns, groups, plan, c, g, w, s, instances, n, candidates);
    Resolution.NeverIllegal(st, context, candidates);
    forall x | Resolution.ResolveFrom(st, context, candidates) == Resolution.Found(x)
      ensures x in candidates && exists group :: FoundIn(st, s, context, candidates, group, x)
    {
      FoundShares(st, ns, groups, plan, c, g, w, s, instances, context, candidates, x);
    }
  }

  /** All candidates have an instance of the innermost shared group. */
  lemma CandidateLooks(st: Resolution.Storage, ns: seq<NodeDef>, groups: seq<GroupDef>, plan: PlanGraph,
                       c: InstanceGraph, g: InstanceGraph, w: World, s: Inst, instances: seq<Stored>,
                       context: Id, n: Name, candidates: seq<Id>, group: Name, x: Id)
    requires DeployedStorage(st, ns, groups, plan, c, g, w, s, instances) && Resolution.Consistent(st)
    requires context in st.instances && AllOf(st, s, n, candidates) &&
      Resolution.Innermost(st, context, candidates, group)
    requires x in candidates || x == context
    ensures x in st.instances && Resolution.GroupInstance(st, x, group).Some?
  {
    Resolution.FirstSharedIs(Resolution.ContainingGroups(st, context), Resolution.ContainingGroups(st, candidates[0]));
    if x != context {
      InstancesAlike(st, ns, groups, plan, c, g, w, s, instances, x, candidates[0]);
    }
    Resolution.GroupInstanceExactly(st, x, group);
  }

  /** It is the one that really holds them. */
  lemma CandidateGroup(st: Resolution.Storage, ns: seq<NodeDef>, groups: seq<GroupDef>, plan: PlanGraph,
                       c: InstanceGraph, g: InstanceGraph, w: World, s: Inst, instances: seq<Stored>,
                       context: Id, n: Name, candidates: seq<Id>, group: Name, x: Id)
    requires DeployedStorage(st, ns, groups, plan, c, g, w, s, instances) && Resolution.Consistent(st)
    requires context in st.instances && AllOf(st, s, n, candidates) &&
      Resolution.Innermost(st, context, candidates, group)
    requires x in candidates || x == context
    ensures x in st.instances
    ensures var q := Resolution.GroupInstance(st, x, group);
            q.Some? && forall r: Id :: InGroupInstance(s, x, group, r) <==> r == q.value
  {
    CandidateLooks(st, ns, groups, plan, c, g, w, s, instances, context, n, candidates, group, x);
    LookupIsReal(st, ns, groups, plan, c, g, w, s, instances, x, group);
    var y, a := StoredIs(st, ns, groups, plan, c, g, w, s, instances, x);
    var q := Resolution.GroupInstance(st, x, group).value;
    forall r: Id | InGroupInstance(s, x, group, r) ensures r == q {
      ChainNameUnique(w, s, x, q, r);
    }
  }

  /** Some candidate is in any given instance of a group that some candidate has. */
  lemma CandidateHeld(st: Resolution.Storage, ns: seq<NodeDef>, groups: seq<GroupDef>, plan: PlanGraph,
                      c: InstanceGraph, g: InstanceGraph, w: World, s: Inst, instances: seq<Stored>,
                      n: Name, candidates: seq<Id>, group: Name, first: Id, r: Id, q: Id)
    returns (x: Id)
    requires DeployedStorage(st, ns, groups, plan, c, g, w, s, instances)
    requires AllOf(st, s, n, candidates) && first in candidates && InGroupInstance(s, first, group, r)
    requires q in s.node && s.node[q] == group
    ensures x in candidates && InGroupInstance(s, x, group, q)
  {
    var y, a := StoredIs(st, ns, groups, plan, c, g, w, s, instances, first);
    NoGroupInstance(w, s, first, group, r);
    assert first in InstancesOf(s, n);
    x := EveryContainerHolds(w, s, n, group, q);
    assert GroupMarked(plan, c.nodes[x]);
    TargetNotGroup(ns, groups, plan, n);
    assert x in st.instances;
  }

  /** Some candidate is in the context's instance of the innermost shared group. */
  lemma CandidateThere(st: Resolution.Storage, ns: seq<NodeDef>, groups: seq<GroupDef>, plan: PlanGraph,
                       c: InstanceGraph, g: InstanceGraph, w: World, s: Inst, instances: seq<Stored>,
                       context: Id, n: Name, candidates: seq<Id>, group: Name)
    returns (x: Id)
    requires DeployedStorage(st, ns, groups, plan, c, g, w, s, instances) && Resolution.Consistent(st)
    requires context in st.instances && AllOf(st, s, n, candidates) &&
      Resolution.Innermost(st, context, candidates, group)
    ensures x in candidates && Resolution.GroupInstance(st, x, group) == Resolution.GroupInstance(st, context, group)
  {
    var first := candidates[0];
    CandidateGroup(st, ns, groups, plan, c, g, w, s, instances, context, n, candidates, group, context);
    CandidateGroup(st, ns, groups, plan, c, g, w, s, instances, context, n, candidates, group, first);
    var q := Resolution.GroupInstance(st, context, group).value;
    assert InGroupInstance(s, context, group, q);
    var r := Resolution.GroupInstance(st, first, group).value;
    x := CandidateHeld(st, ns, groups, plan, c, g, w, s, instances, n, candidates, group, first, r, q);
    CandidateGroup(st, ns, groups, plan, c, g, w, s, instances, context, n, candidates, group, x);
    assert InGroupInstance(s, x, group, q);
  }

  /** `x` alone, of all instances of the node, is together with the context. */
  ghost predicate AloneThere(s: Inst, context: Id, candidates: seq<Id>, group: Name, x: Id)
    requires Acyclic(s.cont)
  {
    x in candidates && Together(s, context, x, group)
    && forall y :: y in candidates && Together(s, context, y, group) ==> y == x
  }

  lemma TogetherSame(s: Inst, i: Id, j: Id, group: Name, q: Id, r: Id)
    requires Acyclic(s.cont)
    requires forall x: Id :: InGroupInstance(s, i, group, x) <==> x == q
    requires forall x: Id :: InGroupInstance(s, j, group, x) <==> x == r
    ensures Together(s, i, j, group) <==> q == r
  {
    if q == r {
      assert InGroupInstance(s, i, group, q) && InGroupInstance(s, j, group, q);
    }
  }

  lemma TogetherLooked(st: Resolution.Storage, ns: seq<NodeDef>, groups: seq<GroupDef>, plan: PlanGraph,
                       c: InstanceGraph, g: InstanceGraph, w: World, s: Inst, instances: seq<Stored>,
                       context: Id, n: Name, candidates: seq<Id>, group: Name, x: Id)
    requires DeployedStorage(st, ns, groups, plan, c, g, w, s, instances) && Resolution.Consistent(st)
    requires context in st.instances && AllOf(st, s, n, candidates) &&
      Resolution.Innermost(st, context, candidates, group)
    requires x in candidates
    ensures Together(s, context, x, group) <==>
      Resolution.GroupInstance(st, x, group) == Resolution.GroupInstance(st, context, group)
  {
    CandidateGroup(st, ns, groups, plan, c, g, w, s, instances, context, n, candidates, group, context);
    CandidateGroup(st, ns, groups, plan, c, g, w, s, instances, context, n, candidates, group, x);
    TogetherSame(s, context, x, group, Resolution.GroupInstance(st, context, group).value,
      Resolution.GroupInstance(st, x, group).value);
  }

  /**
    With a group to share, some instance of the node is always together with the context in the innermost
    one, and resolution finds it if and only if it is alone there: one candidate for each group instance
    always resolves.
  */
  lemma ResolvesExactly(st: Resolution.Storage, ns: seq<NodeDef>, groups: seq<GroupDef>, plan: PlanGraph,
                        c: InstanceGraph, g: InstanceGraph, w: World, s: Inst, instances: seq<Stored>,
                        context: Id, n: Name, candidates: seq<Id>, group: Name)
    returns (there: Id)
    requires DeployedStorage(st, ns, groups, plan, c, g, w, s, instances) && Resolution.Consistent(st)
    requires context in st.instances && AllOf(st, s, n, candidates) &&
      Resolution.Innermost(st, context, candidates, group)
    ensures there in candidates && Together(s, context, there, group)
    ensures Resolution.ResolveFrom(st, context, candidates).Found? <==> AloneThere(s, context, candidates, group, there)
  {
    AlikeGroups(st, ns, groups, plan, c, g, w, s, instances, n, candidates);
    Resolution.NeverIllegal(st, context, candidates);
    there := CandidateThere(st, ns, groups, plan, c, g, w, s, instances, context, n, candidates, group);
    forall x | x in candidates
      ensures Together(s, context, x, group) <==>
        Resolution.GroupInstance(st, x, group) == Resolution.GroupInstance(st, context, group)
    {
      TogetherLooked(st, ns, groups, plan, c, g, w, s, instances, context, n, candidates, group, x);
    }
    Resolution.FoundIfAlone(st, context, candidates, group, there);
  }
}
