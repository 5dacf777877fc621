/**
  Expanding the plan's containment trees into node instances, for a fresh deployment and for
  a modification of a previous one.
*/
module Expansion {
  import opened Names
  import opened Forests
  import opened Graphs
  import opened Growth
  import opened ScaleIn

  /** The requested count of a modified node or group, and the ids to remove or spare first. */
  datatype Modification = Modification(instances: int, includeHint: seq<Id>, excludeHint: seq<Id>)

  /** What the expansion reads from the plan, the previous deployment and the modification. */
  function WorldOf(plan: PlanGraph, previous: Option<InstanceGraph>, modified: map<Name, Modification>): World
    requires SingleContainer(plan)
  {
    World(plan.nodes.Keys,
          ContainedGraph(plan),
          map n | n in plan.nodes :: plan.nodes[n].current,
          if previous.Some? then map i | i in previous.value.nodes :: previous.value.nodes[i].name else map[],
          if previous.Some? then previous.value.edges.Keys else {},
          if previous.Some? then map n | n in modified :: modified[n].instances else map[],
          if previous.Some? then map n | n in modified :: modified[n].includeHint else map[],
          if previous.Some? then map n | n in modified :: modified[n].excludeHint else map[],
          if previous.Some? then MembersOf(previous.value) else map[])
  }

  predicate Recorded(g: InstanceGraph, i: Id, group: Id) {
    i in g.nodes && exists k | 0 <= k < |g.nodes[i].groups| :: g.nodes[i].groups[k].1 == group
  }

  /** Each group instance recorded on some instance, with the instances that record it. */
  function MembersOf(g: InstanceGraph): (m: map<Id, set<Id>>)
    ensures forall group, i :: group in m && i in m[group] <==> Recorded(g, i, group)
  {
    var groups := set i, k | i in g.nodes && 0 <= k < |g.nodes[i].groups| :: g.nodes[i].groups[k].1;
    map group | group in groups :: set i | i in g.nodes && Recorded(g, i, group)
  }

  /** The instance graph built so far holds exactly the instances `s`, each with its one containment edge. */
  ghost predicate Represents(g: InstanceGraph, s: Inst) {
    && g.nodes.Keys == s.node.Keys
    && (forall i :: i in g.nodes ==> g.nodes[i].name == s.node[i])
    && (forall e :: e in g.edges <==> e.0 in s.cont && s.cont[e.0] == e.1)
  }

  /** The relationship record a new instance gets. */
  function RelationshipCopy(r: Relationship, target: Id): RelationshipInstance {
    RelationshipInstance(r.typeName, r.target, target, r.replaced.Some?)
  }

  /**
    Edges carry the position of the plan edge, and those of new instances a copy of its relationship.
    Previous instances keep their records; new instances of scaling groups are marked as such.
  */
  ghost predicate Labelled(plan: PlanGraph, previous: map<Id, InstanceNode>, g: InstanceGraph) {
    && (forall e :: e in g.edges ==> EdgeLabelled(plan, previous, g, e))
    && (forall i :: i in g.nodes ==> NodeLabelled(plan, previous, i, g.nodes[i]))
  }

  /** The same for a fresh deployment, in which every instance is new. */
  ghost predicate FreshLabelled(plan: PlanGraph, g: InstanceGraph) {
    && (forall e :: e in g.edges ==> EdgeLabelled(plan, map[], g, e))
    && (forall i :: i in g.nodes ==> GroupMarked(plan, g.nodes[i]))
  }

  lemma AllNew(plan: PlanGraph, g: InstanceGraph)
    requires Labelled(plan, map[], g)
    ensures FreshLabelled(plan, g)
  {
    forall i | i in g.nodes
      ensures GroupMarked(plan, g.nodes[i])
    {
      assert NodeLabelled(plan, map[], i, g.nodes[i]);
    }
  }

  ghost predicate NodeLabelled(plan: PlanGraph, previous: map<Id, InstanceNode>, i: Id, node: InstanceNode) {
    if i in previous then node == previous[i] else GroupMarked(plan, node)
  }

  ghost predicate GroupMarked(plan: PlanGraph, node: InstanceNode) {
    node.name in plan.nodes && node.group == plan.nodes[node.name].group
  }

  ghost predicate EdgeLabelled(plan: PlanGraph, previous: map<Id, InstanceNode>, g: InstanceGraph, e: (Id, Id))
    requires e in g.edges
  {
    && e.0 in g.nodes && e.1 in g.nodes
    && var pe := (g.nodes[e.0].name, g.nodes[e.1].name);
    && pe in plan.edges && pe.0 in plan.nodes
    && g.edges[e].index == plan.edges[pe].index
    && g.edges[e].relationship ==
         if e.0 in previous then ExtractContained(plan.nodes[pe.0], previous[e.0])
         else Some(RelationshipCopy(plan.edges[pe].relationship, e.1))
  }

  /** The recorded contained_in relationship of a previous instance, by the type its plan node gives it. */
  function ExtractContained(node: PlanNode, instance: InstanceNode): Option<RelationshipInstance> {
    var contained := FirstContained(node.relationships);
    if contained.None? then None else FirstOfType(instance.relationships, contained.value.typeName)
  }

  /** Extraction does not raise: what the plan node declares is recorded on the instance. */
  predicate RecordFound(node: PlanNode, instance: InstanceNode) {
    FirstContained(node.relationships).Some? ==> ExtractContained(node, instance).Some?
  }

  /** Some instance that was kept could not be extracted. */
  ghost predicate Failing(plan: PlanGraph, previous: map<Id, InstanceNode>, s: Inst) {
    exists i :: i in s.node && Fails(plan, previous, i)
  }

  predicate Fails(plan: PlanGraph, previous: map<Id, InstanceNode>, i: Id) {
    i in previous && Unrecorded(plan, previous[i])
  }

  predicate Unrecorded(plan: PlanGraph, instance: InstanceNode) {
    instance.name in plan.nodes && !RecordFound(plan.nodes[instance.name], instance)
  }

  function FirstContained(rels: seq<Relationship>): Option<Relationship> {
    if rels == [] then None
    else if CONTAINED_IN in rels[0].hierarchy then Some(rels[0])
    else FirstContained(rels[1..])
  }

  function FirstOfType(rels: seq<RelationshipInstance>, typeName: string): Option<RelationshipInstance> {
    if rels == [] then None
    else if rels[0].typeName == typeName then Some(rels[0])
    else FirstOfType(rels[1..], typeName)
  }

  /** A container about to be added to the graph. */
  datatype Container = Container(id: Id, instance: InstanceNode, relationship: Option<RelationshipInstance>)

  /** The plan and the previous instances are those that the expansion's inputs were read from. */
  ghost predicate Linked(plan: PlanGraph, previous: map<Id, InstanceNode>, w: World) {
    && w.nodes == plan.nodes.Keys
    && (forall c :: c in w.parent ==> (c, w.parent[c]) in plan.edges)
    && w.prevNode.Keys == previous.Keys
    && (forall i :: i in w.prevNode ==> w.prevNode[i] == previous[i].name)
  }

  class Context {
    const plan: PlanGraph
    const previous: map<Id, InstanceNode>
    const w: World
    var graph: InstanceGraph
    var usedIds: set<Id>
    /** Extracting the record of a kept instance has raised; the expansion's graph is then not handed out. */
    var failed: bool
    ghost var inst: Inst

    ghost predicate Valid()
      reads this
    {
      && ValidWorld(w)
      && Linked(plan, previous, w)
      && ValidState(plan, previous, w, graph, inst, usedIds, failed)
    }

    constructor (plan: PlanGraph, previous: Option<InstanceGraph>, modified: map<Name, Modification>)
      requires ValidGraph(plan) && ValidPrevious(WorldOf(plan, previous, modified))
      ensures Valid() && inst == Inst(map[], map[])
      ensures this.plan == plan && this.previous == (if previous.Some? then previous.value.nodes else map[])
      ensures w == WorldOf(plan, previous, modified)
    {
      this.plan := plan;
      this.previous := if previous.Some? then previous.value.nodes else map[];
      w := WorldOf(plan, previous, modified);
      graph := InstanceGraph(map[], map[]);
      usedIds := if previous.Some? then previous.value.nodes.Keys else {};
      failed, inst := false, Inst(map[], map[]);
      StartLinked(plan, previous, modified);
      new;
      StartValid(plan, this.previous, w);
    }

    /** An id that no instance has. */
    method FreshId() returns (id: Id)
      modifies this`usedIds
      ensures id !in old(usedIds) && usedIds == old(usedIds) + {id}
    {
      FreshExists(usedIds);
      id :| id !in usedIds;
      usedIds := usedIds + {id};
    }

    /** A container that is not in the graph yet: a previous instance of `n` in `p`, or one with a fresh id. */
    ghost predicate Ready(c: Container, n: Name, p: Option<Id>, used0: set<Id>)
      reads this
    {
      && ReadyId(w, inst, usedIds, used0, c.id, n, p)
      && ReadyRecord(plan, previous, w, c, n, p)
    }

    ghost predicate Fits(n: Name, p: Option<Id>)
      reads this
    {
      FitsIn(w, inst, n, p)
    }

    /** Cuts the list of previous instances of a modified `n` down to the requested count. */
    method ScaledIn(n: Name, p: Option<Id>, ids: seq<Id>) returns (kept: seq<Id>)
      requires ValidPlan(w) && n in w.requested
      requires Distinct(ids) && Elements(ids) == PrevKids(w, n, p) && w.requested[n] <= |ids|
      ensures Distinct(kept) && Elements(kept) <= Elements(ids) && |kept| == NonNegative(w.requested[n])
      ensures ChosenByHints(w, n, p, kept)
    {
      ghost var asked, kindly;
      kept, asked, kindly := ScaleIn.HandleRemovedInstances(
        ids, w.requested[n], w.wanted[n], w.spared[n], w.members);
      assert ChoiceAmong(w, n, p, kept, ids, asked, kindly);
    }

    /**
      The previous instances of `n` in `p` that stay, and the number of new ones: the count
      arithmetic of the expansion, with the removals of a scale-in.
    */
    method PreviousIds(n: Name, p: Option<Id>) returns (kept: seq<Id>, additional: int)
      requires ValidPlan(w) && n in w.nodes
      ensures Distinct(kept) && Elements(kept) <= PrevKids(w, n, p)
      ensures |kept| + NonNegative(additional) == Want(w, n, p)
      ensures SurvivorsOk(w, n, p, Elements(kept))
    {
      var ids := set i | i in w.prevNode && w.prevNode[i] == n && (p.Some? ==> (i, p.value) in w.prevEdges);
      assert ids == PrevKids(w, n, p);
      kept := Listed(ids);
      DistinctCardinality(kept);
      additional := 0;
      if n in w.requested {
        if w.requested[n] > |kept| {
          additional := w.requested[n] - |kept|;
        } else {
          kept := ScaledIn(n, p, kept);
          DistinctCardinality(kept);
        }
      } else {
        additional := w.current[n] - |kept|;
      }
    }

    /** Containers for the previous instances that stay. */
    method PreviousContainers(n: Name, p: Option<Id>, kept: seq<Id>) returns (containers: seq<Container>)
      requires Valid() && Fits(n, p) && Kids(inst, n, p) == {}
      requires Distinct(kept) && Elements(kept) <= PrevKids(w, n, p)
      ensures Listing(containers) && Ids(containers) == Elements(kept) && |containers| == |kept|
      ensures forall c :: c in containers ==> Ready(c, n, p, usedIds)
    {
      containers := [];
      for k := 0 to |kept|
        invariant |containers| == k && forall m :: 0 <= m < k ==> containers[m].id == kept[m]
        invariant forall c :: c in containers ==> Ready(c, n, p, usedIds)
      {
        var i := kept[k];
        assert i in Elements(kept);
        if i in inst.node {
          PrevKidPlaced(w, inst, n, p, i);
          assert false;
        }
        var node := previous[i];
        containers := containers + [Container(i, node, ExtractContained(plan.nodes[n], node))];
      }
      assert forall m :: 0 <= m < |kept| ==> containers[m].id in Elements(kept);
      assert forall m :: 0 <= m < |kept| ==> kept[m] == containers[m].id && containers[m] in containers;
    }

    /** A container for a new instance, with a fresh id. */
    method NewContainer(n: Name, p: Option<Id>) returns (c: Container)
      requires Valid() && Fits(n, p)
      modifies this`usedIds
      ensures Valid() && c.id !in old(usedIds) && usedIds == old(usedIds) + {c.id}
      ensures Ready(c, n, p, old(usedIds)) && c.id !in w.prevNode
    {
      var id := FreshId();
      var node := InstanceNode(n, plan.nodes[n].group, [], []);
      var rel := if p.Some? then
          Some(RelationshipCopy(plan.edges[(n, w.parent[n])].relationship, p.value)) else None;
      c := Container(id, node, rel);
    }

    /** Containers for the new instances. */
    method NewContainers(n: Name, p: Option<Id>, count: nat) returns (containers: seq<Container>)
      requires Valid() && Fits(n, p)
      modifies this`usedIds
      ensures Valid() && usedIds == old(usedIds) + Ids(containers)
      ensures |containers| == count && Listing(containers)
      ensures Ids(containers) !! old(usedIds)
      ensures forall c :: c in containers ==> Ready(c, n, p, old(usedIds))
    {
      containers := [];
      ghost var used0 := usedIds;
      for k := 0 to count
        invariant Valid() && usedIds == used0 + Ids(containers)
        invariant |containers| == k && Listing(containers) && Ids(containers) !! used0
        invariant forall c :: c in containers ==> Ready(c, n, p, used0)
      {
        ghost var before := containers;
        var c := NewContainer(n, p);
        containers := containers + [c];
        assert Ids(containers) == Ids(before) + {c.id};
      }
    }

    /** The containers to add for `n` in `p`: those of the previous instances that stay, then the new ones. */
    method BuildAndUpdate(n: Name, p: Option<Id>) returns (containers: seq<Container>)
      requires Valid() && Fits(n, p) && Kids(inst, n, p) == {}
      modifies this`usedIds
      ensures Valid() && old(usedIds) <= usedIds
      ensures |containers| == Want(w, n, p)
      ensures Listing(containers)
      ensures forall c :: c in containers ==> Ready(c, n, p, old(usedIds))
      ensures SurvivorsOk(w, n, p, Ids(containers) * PrevKids(w, n, p))
    {
      var kept, additional := PreviousIds(n, p);
      var stay := PreviousContainers(n, p, kept);
      ghost var used0 := usedIds;
      var more := NewContainers(n, p, NonNegative(additional));
      containers := stay + more;
      IdsJoin(stay, more);
      assert PrevKids(w, n, p) <= w.prevNode.Keys;
      SurvivingPart(Elements(kept), Ids(more), PrevKids(w, n, p), used0);
    }

    /** Adds one container to the graph, below its parent instance. */
    method AddContainer(c: Container, n: Name, p: Option<Id>, ghost used0: set<Id>)
      requires Valid() && Fits(n, p) && Ready(c, n, p, used0)
      modifies this`graph, this`failed, this`inst
      ensures Valid() && inst == Add(old(inst), c.id, n, p)
    {
      AddedValid(plan, previous, w, graph, inst, usedIds, failed, c, n, p);
      failed := failed || Fails(plan, previous, c.id);
      graph := WithContainer(plan, graph, c, n, p);
      inst := Add(inst, c.id, n, p);
    }

    /** Adds one container and expands what it contains. */
    method ExpandContainer(ghost a: Inst, ghost used0: set<Id>, n: Name, ghost tree: set<Name>, p: Option<Id>,
                           c: Container)
      requires Valid() && Fits(n, p) && tree == Subtree(w.nodes, w.parent, n)
      requires used0 <= usedIds && Extends(a, inst) && UnusedBy(w, a, inst, used0)
      requires p.Some? ==> p.value in a.node
      requires Placed(w, a, inst, n, p) && Counted(w, a, inst) && Ready(c, n, p, used0)
      modifies this
      ensures Valid() && old(usedIds) <= usedIds && Fits(n, p)
      ensures Extends(a, inst) && UnusedBy(w, a, inst, used0)
      ensures UnusedBy(w, Add(old(inst), c.id, n, p), inst, old(usedIds))
      ensures Placed(w, a, inst, n, p) && Counted(w, a, inst)
      ensures Kids(inst, n, p) == old(Kids(inst, n, p)) + {c.id}
      decreases tree, 1
    {
      AddStep(w, a, inst, c.id, n, p);
      AddedUnused(w, a, inst, usedIds, used0, c.id, n, p);
      AddContainer(c, n, p, used0);
      BuildChildren(a, used0, n, tree, p, c.id);
    }

    /**
      Expands the subtree of `n` below the instance `p`, or as a whole tree when `n` is a root.
      `tree` is the part of the containment forest still to expand.
    */
    method BuildTree(n: Name, ghost tree: set<Name>, p: Option<Id>)
      requires Valid() && Fits(n, p) && Kids(inst, n, p) == {}
      requires tree == Subtree(w.nodes, w.parent, n)
      modifies this
      ensures Valid() && Extends(old(inst), inst) && old(usedIds) <= usedIds
      ensures UnusedBy(w, old(inst), inst, old(usedIds))
      ensures Placed(w, old(inst), inst, n, p) && Counted(w, old(inst), inst)
      ensures KidsOk(w, n, p, Kids(inst, n, p))
      decreases tree, 2
    {
      ghost var a, used0 := inst, usedIds;
      var containers := BuildAndUpdate(n, p);
      for k := 0 to |containers|
        invariant Valid() && Fits(n, p) && used0 <= usedIds && Extends(a, inst) && UnusedBy(w, a, inst, used0)
        invariant Placed(w, a, inst, n, p) && Counted(w, a, inst)
        invariant Kids(inst, n, p) == Ids(containers[..k])
        invariant forall m :: k <= m < |containers| ==> Ready(containers[m], n, p, used0)
      {
        var c := containers[k];
        ghost var b, usedB := inst, usedIds;
        ExpandContainer(a, used0, n, tree, p, c);
        IdsStep(containers, k);
        forall m | k + 1 <= m < |containers|
          ensures Ready(containers[m], n, p, used0)
        {
          StaysReady(w, b, usedB, inst, usedIds, used0, c.id, containers[m].id, n, p);
        }
      }
      IdsAll(containers);
    }

    /** Expands the children of the freshly added instance `j`. */
    method BuildChildren(ghost a: Inst, ghost used0: set<Id>, n: Name, ghost tree: set<Name>, ghost p: Option<Id>,
                         j: Id)
      requires Valid() && Fits(n, p) && tree == Subtree(w.nodes, w.parent, n)
      requires used0 <= usedIds && Extends(a, inst) && UnusedBy(w, a, inst, used0) && Placed(w, a, inst, n, p)
      requires j in inst.node && j !in a.node && inst.node[j] == n
      requires CountedExcept(w, a, inst, Some(j), Children(w.parent, n))
      modifies this
      ensures Valid() && old(usedIds) <= usedIds && Extends(a, inst) && UnusedBy(w, a, inst, used0)
      ensures Extends(old(inst), inst) && UnusedBy(w, old(inst), inst, old(usedIds))
      ensures Placed(w, a, inst, n, p) && Counted(w, a, inst) && Kids(inst, n, p) == old(Kids(inst, n, p))
      ensures Fits(n, p)
      decreases tree, 0
    {
      ghost var b, usedB := inst, usedIds;
      var todo := Children(w.parent, n);
      while todo != {}
        invariant Valid() && todo <= Children(w.parent, n)
        invariant used0 <= usedB <= usedIds && Extends(a, inst) && UnusedBy(w, a, inst, used0)
        invariant Extends(b, inst) && UnusedBy(w, b, inst, usedB)
        invariant Placed(w, a, inst, n, p) && CountedExcept(w, a, inst, Some(j), todo)
        invariant Kids(inst, n, p) == old(Kids(inst, n, p))
        decreases todo
      {
        var c :| c in todo;
        ghost var before := inst;
        SubtreeShrinks(w.nodes, w.parent, c);
        assert Settled(w, inst, Some(j), todo, j, c);
        ghost var childTree := Subtree(w.nodes, w.parent, c);
        BuildTree(c, childTree, Some(j));
        ChildPlaced(w, a, before, inst, n, p, c, j);
        ChildCounted(w, a, before, inst, c, j, todo);
        todo := todo - {c};
      }
      DoneCounted(w, a, inst, j);
    }

    /** Expands one containment tree. */
    method ExpandRoot(n: Name, ghost todo: set<Name>)
      requires Valid() && n in todo && todo <= Roots(w) && RootsLeft(w, inst, todo)
      modifies this
      ensures Valid() && RootsLeft(w, inst, todo - {n})
    {
      ghost var b := inst;
      BuildTree(n, Subtree(w.nodes, w.parent, n), None);
      RootStep(w, b, inst, n, todo);
    }

    /** Expands every containment tree of the plan, one root at a time. */
    method HandleContainedIn()
      requires Valid() && inst == Inst(map[], map[])
      modifies this
      ensures Valid() && Complete(w, inst)
    {
      var todo := Roots(w);
      while todo != {}
        invariant Valid() && todo <= Roots(w) && RootsLeft(w, inst, todo)
        decreases todo
      {
        var n :| n in todo;
        ExpandRoot(n, todo);
        todo := todo - {n};
      }
      RootsDone(w, inst);
    }
  }

  lemma IdsJoin(a: seq<Container>, b: seq<Container>)
    requires Listing(a) && Listing(b) && Ids(a) !! Ids(b)
    ensures Ids(a + b) == Ids(a) + Ids(b) && Listing(a + b)
  {
    forall i, j | 0 <= i < j < |a + b|
      ensures (a + b)[i].id != (a + b)[j].id
    {
      if i < |a| && j >= |a| {
        assert a[i] in a && b[j - |a|] in b;
        assert a[i].id in Ids(a) && b[j - |a|].id in Ids(b);
      }
    }
  }

  lemma SurvivingPart(kept: set<Id>, added: set<Id>, prev: set<Id>, used: set<Id>)
    requires kept <= prev <= used && added !! used
    ensures (kept + added) * prev == kept
  {
  }

  lemma IdsStep(cs: seq<Container>, k: nat)
    requires k < |cs|
    ensures Ids(cs[..k + 1]) == Ids(cs[..k]) + {cs[k].id}
  {
    assert cs[..k + 1] == cs[..k] + [cs[k]];
  }

  lemma IdsAll(cs: seq<Container>)
    requires Listing(cs)
    ensures cs[..|cs|] == cs && |Ids(cs)| == |cs|
  {
    assert cs[..|cs|] == cs;
    var ids := seq(|cs|, k requires 0 <= k < |cs| => cs[k].id);
    DistinctCardinality(ids);
    assert forall k :: 0 <= k < |cs| ==> ids[k] == cs[k].id;
    assert Ids(cs) == Elements(ids);
  }

  /** `p` is an instance of the container of `n`; no instance when `n` is a root. */
  ghost predicate FitsIn(w: World, s: Inst, n: Name, p: Option<Id>) {
    && n in w.nodes
    && if p.Some? then n in w.parent && p.value in s.node && s.node[p.value] == w.parent[n] else n !in w.parent
  }

  ghost predicate ReadyId(w: World, s: Inst, used: set<Id>, used0: set<Id>, id: Id, n: Name, p: Option<Id>) {
    && id in used && id !in s.node
    && (if id in w.prevNode then id in PrevKids(w, n, p) else id !in used0)
  }

  ghost predicate ReadyRecord(plan: PlanGraph, previous: map<Id, InstanceNode>, w: World, c: Container, n: Name,
                              p: Option<Id>)
  {
    && c.instance.name == n && n in plan.nodes
    && NodeLabelled(plan, previous, c.id, c.instance)
    && (p.Some? ==>
          && n in w.parent && (n, w.parent[n]) in plan.edges
          && c.relationship ==
               if c.id in previous then ExtractContained(plan.nodes[n], previous[c.id])
               else Some(RelationshipCopy(plan.edges[(n, w.parent[n])].relationship, p.value)))
  }

  /** The instances that `b` adds to `a` are previous ones or have ids that were unused at the time. */
  ghost predicate UnusedBy(w: World, a: Inst, b: Inst, used0: set<Id>) {
    forall i :: i in b.node && i !in a.node ==> i in w.prevNode || i !in used0
  }

  lemma AddedUnused(w: World, a: Inst, b: Inst, used: set<Id>, used0: set<Id>, j: Id, n: Name, p: Option<Id>)
    requires UnusedBy(w, a, b, used0) && ReadyId(w, b, used, used0, j, n, p) && FitsIn(w, b, n, p)
    ensures UnusedBy(w, a, Add(b, j, n, p), used0) && FitsIn(w, Add(b, j, n, p), n, p)
  {
  }

  /** Expanding one container leaves the other ones ready. */
  lemma StaysReady(w: World, b: Inst, used: set<Id>, d: Inst, usedD: set<Id>, used0: set<Id>,
                   j: Id, id: Id, n: Name, p: Option<Id>)
    requires ValidWorld(w) && Sound(w, d)
    requires if p.Some? then n in w.parent && p.value in d.node && d.node[p.value] == w.parent[n] else n !in w.parent
    requires ReadyId(w, b, used, used0, id, n, p) && used <= usedD && id != j
    requires UnusedBy(w, Add(b, j, n, p), d, used)
    requires Kids(d, n, p) == Kids(b, n, p) + {j}
    ensures ReadyId(w, d, usedD, used0, id, n, p)
  {
    if id in d.node && id in w.prevNode {
      PrevKidPlaced(w, d, n, p, id);
    }
  }

  /** The graph with one more container, and its edge to the instance that holds it. */
  function WithContainer(plan: PlanGraph, g: InstanceGraph, c: Container, n: Name, p: Option<Id>): InstanceGraph
    requires p.Some? ==> p.value in g.nodes && (n, g.nodes[p.value].name) in plan.edges
  {
    InstanceGraph(g.nodes[c.id := c.instance],
                  if p.None? then g.edges
                  else g.edges[(c.id, p.value) :=
                    InstanceEdge(c.relationship, plan.edges[(n, g.nodes[p.value].name)].index)])
  }

  /** Before the first step. */
  lemma StartValid(plan: PlanGraph, previous: map<Id, InstanceNode>, w: World)
    requires Linked(plan, previous, w)
    ensures ValidState(plan, previous, w, InstanceGraph(map[], map[]), Inst(map[], map[]), previous.Keys, false)
  {
  }

  lemma StartLinked(plan: PlanGraph, previous: Option<InstanceGraph>, modified: map<Name, Modification>)
    requires ValidGraph(plan)
    ensures var w, was := WorldOf(plan, previous, modified), if previous.Some? then previous.value.nodes else map[];
      ValidPlan(w) && Linked(plan, was, w)
  {
    assert forall c :: c in ContainedGraph(plan) ==> ContainmentEdge(plan, c, ContainedGraph(plan)[c]);
  }

  /** The state between two steps of the expansion. */
  ghost predicate ValidState(plan: PlanGraph, previous: map<Id, InstanceNode>, w: World, g: InstanceGraph, s: Inst,
                             used: set<Id>, failed: bool)
  {
    && Represents(g, s)
    && Sound(w, s)
    && Labelled(plan, previous, g)
    && s.node.Keys <= used && w.prevNode.Keys <= used
    && (failed <==> Failing(plan, previous, s))
  }

  lemma AddedValid(plan: PlanGraph, previous: map<Id, InstanceNode>, w: World, g: InstanceGraph, s: Inst,
                   used: set<Id>, failed: bool, c: Container, n: Name, p: Option<Id>)
    requires ValidPlan(w) && forall c :: c in w.parent ==> (c, w.parent[c]) in plan.edges
    requires ValidState(plan, previous, w, g, s, used, failed) && FitsIn(w, s, n, p) &&
      ReadyRecord(plan, previous, w, c, n, p)
    requires c.id in used && c.id !in s.node && (c.id in w.prevNode ==> c.id in PrevKids(w, n, p))
    ensures p.Some? ==> p.value in g.nodes && (n, g.nodes[p.value].name) in plan.edges
    ensures ValidState(plan, previous, w, WithContainer(plan, g, c, n, p), Add(s, c.id, n, p), used,
                       failed || Fails(plan, previous, c.id))
  {
    AddSound(w, s, c.id, n, p);
    AddedLabels(plan, previous, w, g, c, n, p);
    AddedRepresents(plan, g, s, c, n, p);
    AddedFails(plan, previous, s, c.id, n, p);
  }

  lemma AddedFails(plan: PlanGraph, previous: map<Id, InstanceNode>, s: Inst, i: Id, n: Name, p: Option<Id>)
    ensures Failing(plan, previous, Add(s, i, n, p)) <==>
              Failing(plan, previous, s) || Fails(plan, previous, i)
  {
    assert i in Add(s, i, n, p).node;
    assert forall j :: j in Add(s, i, n, p).node <==> j == i || j in s.node;
  }

  lemma AddedRepresents(plan: PlanGraph, g: InstanceGraph, s: Inst, c: Container, n: Name, p: Option<Id>)
    requires Represents(g, s) && c.id !in s.node && c.instance.name == n && s.cont.Keys <= s.node.Keys
    requires p.Some? ==> p.value in g.nodes && (n, g.nodes[p.value].name) in plan.edges
    ensures Represents(WithContainer(plan, g, c, n, p), Add(s, c.id, n, p))
  {
  }

  lemma AddedLabels(plan: PlanGraph, previous: map<Id, InstanceNode>, w: World, g: InstanceGraph, c: Container, n: Name,
                    p: Option<Id>)
    requires Labelled(plan, previous, g)
    requires c.id !in g.nodes && ReadyRecord(plan, previous, w, c, n, p)
    requires p.Some? ==> p.value in g.nodes && n in w.parent && g.nodes[p.value].name == w.parent[n]
    requires p.Some? ==> (n, w.parent[n]) in plan.edges
    ensures Labelled(plan, previous, WithContainer(plan, g, c, n, p))
  {
    var h := WithContainer(plan, g, c, n, p);
    forall e | e in h.edges
      ensures EdgeLabelled(plan, previous, h, e)
    {
      if e in g.edges {
        assert EdgeLabelled(plan, previous, g, e);
      }
    }
  }

  ghost function Ids(cs: seq<Container>): set<Id> {
    set c | c in cs :: c.id
  }

  ghost predicate Listing(cs: seq<Container>) {
    forall i, j :: 0 <= i < j < |cs| ==> cs[i].id != cs[j].id
  }

  lemma FreshExists(s: set<Id>)
    ensures exists id: Id :: id !in s
  {
    var bound := UpperBound(s);
    assert bound !in s;
  }

  ghost function UpperBound(s: set<Id>): (b: Id)
    ensures forall x :: x in s ==> x < b
  {
    if s == {} then 0
    else
      var x :| x in s;
      var rest := UpperBound(s - {x});
      assert forall y :: y in s ==> y == x || y in s - {x};
      if x < rest then rest else x + 1
  }
}
