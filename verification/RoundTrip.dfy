/**
  Building the instance graph of an existing deployment back from its stored node instances, as a
  modification does before it expands the plan anew. Group instances are not stored, only recorded
  on the instances they hold.
*/
module RoundTrip {
  import opened Names
  import opened Forests
  import opened Graphs
  import opened Growth
  import opened Expansion
  import opened PlanGroups
  import opened PlanBuilder
  import opened Connections
  import opened Wiring
  import opened Extraction
  import opened Transparency

  // ---------- one stored instance ----------

  /** The plan graph lacks the relationship: it was a contained_in that a scaling group replaced. */
  predicate WasReplaced(plan: PlanGraph, x: Stored, r: RelationshipInstance) {
    (x.name, r.targetName) !in plan.edges
  }

  predicate RaisesAt(plan: PlanGraph, x: Stored, r: RelationshipInstance) {
    x.name !in plan.nodes || (WasReplaced(plan, x, r) && x.groups == [])
  }

  /** The node is gone from the plan, or a relationship was replaced and no group is recorded. */
  predicate Raises(plan: PlanGraph, x: Stored) {
    exists r | r in x.relationships :: RaisesAt(plan, x, r)
  }

  /**
    An instance cannot be built back exactly if it has relationships, but its node is gone, or if it has one of
    which its node has no edge any more, but no group that stood for its container.
  */
  lemma RaisesExactly(plan: PlanGraph, x: Stored)
    ensures x.name !in plan.nodes ==> (Raises(plan, x) <==> x.relationships != [])
    ensures x.name in plan.nodes ==>
      (Raises(plan, x) <==> x.groups == [] && exists r :: r in x.relationships && (x.name, r.targetName) !in plan.edges)
  {
    if x.relationships != [] {
      assert x.relationships[0] in x.relationships;
    }
  }

  /** A replaced relationship points at the innermost group again. */
  function Rewritten(plan: PlanGraph, x: Stored, r: RelationshipInstance): RelationshipInstance {
    if WasReplaced(plan, x, r) && x.groups != []
    then RelationshipInstance(r.typeName, x.groups[0].0, x.groups[0].1, true)
    else r
  }

  predicate Contains(plan: PlanGraph, x: Stored, r: RelationshipInstance) {
    WasReplaced(plan, x, r) || IsContainment(plan.edges[(x.name, r.targetName)].relationship)
  }

  /** The last replaced relationship among the first `n`. */
  function ReplacedTarget(plan: PlanGraph, x: Stored, n: nat): Option<Id>
    requires n <= |x.relationships|
  {
    if n == 0 then None
    else if WasReplaced(plan, x, x.relationships[n - 1]) then Some(x.relationships[n - 1].targetId)
    else ReplacedTarget(plan, x, n - 1)
  }

  function Ids(groups: seq<(Name, Id)>): (ids: seq<Id>)
    ensures |ids| == |groups| && forall k :: 0 <= k < |ids| ==> ids[k] == groups[k].1
  {
    seq(|groups|, k requires 0 <= k < |groups| => groups[k].1)
  }

  /**
    The instances that hold each other: from the instance up, or from its innermost group up to the
    replaced target.
  */
  function GroupChain(x: Stored, target: Option<Id>): seq<Id> {
    if x.groups == [] then []
    else if target.Some? then Ids(x.groups) + [target.value]
    else [x.id] + Ids(x.groups)
  }

  /** Each element of the chain with the next. */
  function Steps(chain: seq<Id>): set<(Id, Id)> {
    StepsUpTo(chain, |chain|)
  }

  function StepsUpTo(chain: seq<Id>, n: nat): set<(Id, Id)>
    requires n <= |chain|
  {
    if n < 2 then {} else StepsUpTo(chain, n - 1) + {(chain[n - 2], chain[n - 1])}
  }

  function EdgeOf(plan: PlanGraph, x: Stored, k: nat): (Id, Id)
    requires k < |x.relationships|
  {
    (x.id, Rewritten(plan, x, x.relationships[k]).targetId)
  }

  function RelationshipEdges(plan: PlanGraph, x: Stored, n: nat): set<(Id, Id)>
    requires n <= |x.relationships|
  {
    if n == 0 then {} else RelationshipEdges(plan, x, n - 1) + {EdgeOf(plan, x, n - 1)}
  }

  function ContainedEdges(plan: PlanGraph, x: Stored, n: nat): set<(Id, Id)>
    requires n <= |x.relationships|
  {
    if n == 0 then {}
    else
      ContainedEdges(plan, x, n - 1) + if Contains(plan, x, x.relationships[n - 1])
        then {EdgeOf(plan, x, n - 1)} else {}
  }

  // ---------- all of them ----------

  datatype Rebuilt = Rebuilt(nodes: set<Id>, edges: set<(Id, Id)>, contained: set<(Id, Id)>)

  ghost function Part(plan: PlanGraph, x: Stored): Rebuilt {
    var n := |x.relationships|;
    var steps := Steps(GroupChain(x, ReplacedTarget(plan, x, n)));
    Rebuilt({x.id} + Elements(Ids(x.groups)), RelationshipEdges(plan, x, n) + steps, ContainedEdges(plan, x, n) + steps)
  }

  function Joined(a: Rebuilt, b: Rebuilt): Rebuilt {
    Rebuilt(a.nodes + b.nodes, a.edges + b.edges, a.contained + b.contained)
  }

  /** `parts` are those of the first `k` instances. */
  ghost predicate PartsUpTo(plan: PlanGraph, instances: seq<Stored>, k: nat, parts: seq<Rebuilt>)
    requires k <= |instances|
  {
    |parts| == k && forall m :: 0 <= m < k ==> IsPart(plan, instances[m], parts[m])
  }

  /** The parts of the instances, one for each. */
  ghost predicate PartsOf(plan: PlanGraph, instances: seq<Stored>, parts: seq<Rebuilt>) {
    PartsUpTo(plan, instances, |instances|, parts)
  }

  ghost predicate IsPart(plan: PlanGraph, x: Stored, part: Rebuilt) {
    !Raises(plan, x) && part == Part(plan, x)
  }

  /** All parts together. */
  function JoinAll(parts: seq<Rebuilt>): Rebuilt {
    if parts == [] then Rebuilt({}, {}, {})
    else Joined(JoinAll(parts[..|parts| - 1]), parts[|parts| - 1])
  }

  lemma JoinOneMore(parts: seq<Rebuilt>, part: Rebuilt)
    ensures JoinAll(parts + [part]) == Joined(JoinAll(parts), part)
  {
    assert (parts + [part])[..|parts|] == parts;
  }

  /** What comes back is what some part gives back. */
  lemma {:induction false} JoinAt(parts: seq<Rebuilt>, i: Id, e: (Id, Id))
    ensures i in JoinAll(parts).nodes <==> exists k :: 0 <= k < |parts| && i in parts[k].nodes
    ensures e in JoinAll(parts).edges <==> exists k :: 0 <= k < |parts| && e in parts[k].edges
    ensures e in JoinAll(parts).contained <==> exists k :: 0 <= k < |parts| && e in parts[k].contained
  {
    if parts != [] {
      var front := parts[..|parts| - 1];
      JoinAt(front, i, e);
      assert forall k :: 0 <= k < |front| ==> front[k] == parts[k];
    }
  }

  // ---------- the graph with its records ----------

  /** The graph that is built, and which of its edges are containments. */
  datatype Previous = Previous(graph: InstanceGraph, contained: set<(Id, Id)>)

  ghost function Outline(b: Previous): Rebuilt {
    Rebuilt(b.graph.nodes.Keys, b.graph.edges.Keys, b.contained)
  }

  /** The node of a stored instance: its relationships are rewritten in place. */
  function InstanceBack(plan: PlanGraph, x: Stored): InstanceNode {
    InstanceNode(x.name, false, x.groups, seq(|x.relationships|, k requires 0 <= k < |x.relationships| =>
      Rewritten(plan, x, x.relationships[k])))
  }

  function GroupBack(name: Name): InstanceNode {
    InstanceNode(name, true, [], [])
  }

  /** The node `q` is built from the stored instance `x`: as itself, or as a group recorded on it. */
  ghost predicate NodeFrom(plan: PlanGraph, x: Stored, q: Id, node: InstanceNode) {
    (q == x.id && node == InstanceBack(plan, x)) ||
    (exists k :: 0 <= k < |x.groups| && x.groups[k].1 == q && node == GroupBack(x.groups[k].0))
  }

  /** The edge of a relationship carries its record, and its position among the stored ones. */
  function RecordBack(plan: PlanGraph, x: Stored, k: nat): InstanceEdge
    requires k < |x.relationships|
  {
    InstanceEdge(Some(Rewritten(plan, x, x.relationships[k])), k)
  }

  /** The edge of a group to what holds it. */
  function GroupStep(name: Name, id: Id): InstanceEdge {
    InstanceEdge(Some(RelationshipInstance(GROUP_CONTAINED_IN, name, id, false)), -1)
  }

  /** The edge `e` is built from `x`: from one of its relationships, or as a step up its groups. */
  ghost predicate EdgeFrom(plan: PlanGraph, x: Stored, e: (Id, Id), edge: InstanceEdge) {
    || FromRecord(plan, x, e, edge)
    || FromStep(NamedChain(x, ReplacedRecord(plan, x, |x.relationships|)), e, edge)
  }

  ghost predicate FromRecord(plan: PlanGraph, x: Stored, e: (Id, Id), edge: InstanceEdge) {
    exists k :: 0 <= k < |x.relationships| && EdgeOf(plan, x, k) == e && edge == RecordBack(plan, x, k)
  }

  /** Each element of the chain leads to the next, and names it. */
  ghost predicate FromStep(chain: seq<(Name, Id)>, e: (Id, Id), edge: InstanceEdge) {
    exists k :: 0 < k < |chain| && e == (chain[k - 1].1, chain[k].1) && edge == GroupStep(chain[k].0, chain[k].1)
  }

  function IdOf(target: Option<(Name, Id)>): Option<Id> {
    if target.Some? then Some(target.value.1) else None
  }

  /** The name and id of the last replaced relationship's target. */
  function ReplacedRecord(plan: PlanGraph, x: Stored, n: nat): (r: Option<(Name, Id)>)
    requires n <= |x.relationships|
    ensures IdOf(r) == ReplacedTarget(plan, x, n)
  {
    if n == 0 then None
    else
      var last := x.relationships[n - 1];
      if WasReplaced(plan, x, last) then Some((last.targetName, last.targetId)) else ReplacedRecord(plan, x, n - 1)
  }

  /** The instances that hold each other, with their names. */
  function NamedChain(x: Stored, target: Option<(Name, Id)>): (chain: seq<(Name, Id)>)
    ensures Ids(chain) == GroupChain(x, IdOf(target))
  {
    if x.groups == [] then []
    else if target.Some? then
      var chain := x.groups + [target.value];
      assert Ids(chain) == Ids(x.groups) + [target.value.1];
      chain
    else
      var chain := [(x.name, x.id)] + x.groups;
      assert Ids(chain) == [x.id] + Ids(x.groups);
      chain
  }

  ghost predicate FromInstance(plan: PlanGraph, x: Stored, g: InstanceGraph) {
    && (forall q :: q in g.nodes ==> NodeFrom(plan, x, q, g.nodes[q]))
    && (forall e :: e in g.edges ==> EdgeFrom(plan, x, e, g.edges[e]))
  }

  ghost predicate NodeFromAny(plan: PlanGraph, instances: seq<Stored>, n: nat, q: Id, node: InstanceNode)
    requires n <= |instances|
  {
    exists k :: 0 <= k < n && NodeFrom(plan, instances[k], q, node)
  }

  ghost predicate EdgeFromAny(plan: PlanGraph, instances: seq<Stored>, n: nat, e: (Id, Id), edge: InstanceEdge)
    requires n <= |instances|
  {
    exists k :: 0 <= k < n && EdgeFrom(plan, instances[k], e, edge)
  }

  /** Whatever a node or an edge carries, one of the first `n` instances has it; later ones overwrite earlier ones. */
  ghost predicate FromInstances(plan: PlanGraph, instances: seq<Stored>, n: nat, g: InstanceGraph)
    requires n <= |instances|
  {
    && (forall q :: q in g.nodes ==> NodeFromAny(plan, instances, n, q, g.nodes[q]))
    && (forall e :: e in g.edges ==> EdgeFromAny(plan, instances, n, e, g.edges[e]))
  }

  method BuildNodes(plan: PlanGraph, x: Stored) returns (nodes: map<Id, InstanceNode>)
    ensures nodes.Keys == {x.id} + Elements(Ids(x.groups))
    ensures forall q :: q in nodes ==> NodeFrom(plan, x, q, nodes[q])
  {
    nodes := map[x.id := InstanceBack(plan, x)];
    for k := 0 to |x.groups|
      invariant nodes.Keys == {x.id} + Elements(Ids(x.groups)[..k])
      invariant forall q :: q in nodes ==> NodeFrom(plan, x, q, nodes[q])
    {
      assert Ids(x.groups)[..k + 1] == Ids(x.groups)[..k] + [x.groups[k].1];
      nodes := nodes[x.groups[k].1 := GroupBack(x.groups[k].0)];
    }
    assert Ids(x.groups)[..|x.groups|] == Ids(x.groups);
  }

  /** The edges of the first `n` relationships; of two to the same target the later one stays. */
  function RecordedEdges(plan: PlanGraph, x: Stored, n: nat): map<(Id, Id), InstanceEdge>
    requires n <= |x.relationships|
  {
    if n == 0 then map[]
    else RecordedEdges(plan, x, n - 1)[EdgeOf(plan, x, n - 1) := RecordBack(plan, x, n - 1)]
  }

  lemma {:induction false} RecordedEdgesAre(plan: PlanGraph, x: Stored, n: nat)
    requires n <= |x.relationships|
    ensures RecordedEdges(plan, x, n).Keys == RelationshipEdges(plan, x, n)
    ensures forall e :: e in RecordedEdges(plan, x, n) ==> FromRecord(plan, x, e, RecordedEdges(plan, x, n)[e])
  {
    if n > 0 {
      RecordedEdgesAre(plan, x, n - 1);
      assert FromRecord(plan, x, EdgeOf(plan, x, n - 1), RecordBack(plan, x, n - 1));
    }
  }

  method BuildRelationships(plan: PlanGraph, x: Stored)
    returns (ok: bool, target: Option<(Name, Id)>, edges: map<(Id, Id), InstanceEdge>, contained: set<(Id, Id)>)
    ensures ok <==> !Raises(plan, x)
    ensures ok ==> target == ReplacedRecord(plan, x, |x.relationships|)
    ensures ok ==> edges == RecordedEdges(plan, x, |x.relationships|)
    ensures ok ==> contained == ContainedEdges(plan, x, |x.relationships|)
  {
    target, edges, contained := None, map[], {};
    for k := 0 to |x.relationships|
      invariant forall m :: 0 <= m < k ==> !RaisesAt(plan, x, x.relationships[m])
      invariant target == ReplacedRecord(plan, x, k)
      invariant edges == RecordedEdges(plan, x, k) && contained == ContainedEdges(plan, x, k)
    {
      var r := x.relationships[k];
      if RaisesAt(plan, x, r) {
        return false, target, edges, contained;
      }
      if WasReplaced(plan, x, r) {
        target := Some((r.targetName, r.targetId));
      }
      edges := edges[EdgeOf(plan, x, k) := RecordBack(plan, x, k)];
      if Contains(plan, x, r) {
        contained := contained + {EdgeOf(plan, x, k)};
      }
    }
    ok := true;
  }

  method BuildSteps(chain: seq<(Name, Id)>) returns (steps: map<(Id, Id), InstanceEdge>)
    ensures steps.Keys == Steps(Ids(chain))
    ensures forall e :: e in steps ==> FromStep(chain, e, steps[e])
  {
    steps := map[];
    for k := 0 to |chain|
      invariant steps.Keys == StepsUpTo(Ids(chain), k)
      invariant forall e :: e in steps ==> FromStep(chain, e, steps[e])
    {
      if k > 0 {
        steps := steps[(chain[k - 1].1, chain[k].1) := GroupStep(chain[k].0, chain[k].1)];
      }
    }
  }

  method BuildPart(plan: PlanGraph, x: Stored) returns (r: Option<Previous>)
    ensures r.None? <==> Raises(plan, x)
    ensures r.Some? ==> IsPart(plan, x, Outline(r.value)) && FromInstance(plan, x, r.value.graph)
  {
    var nodes := BuildNodes(plan, x);
    var ok, target, edges, contained := BuildRelationships(plan, x);
    if !ok {
      return None;
    }
    RecordedEdgesAre(plan, x, |x.relationships|);
    var steps := BuildSteps(NamedChain(x, target));
    r := Some(Previous(InstanceGraph(nodes, edges + steps), contained + steps.Keys));
  }

  /** The graph with a part added; what both have is the part's. */
  function WithPart(b: Previous, part: Previous): (r: Previous)
    ensures Outline(r) == Joined(Outline(b), Outline(part))
  {
    Previous(InstanceGraph(b.graph.nodes + part.graph.nodes, b.graph.edges + part.graph.edges),
             b.contained + part.contained)
  }

  lemma WithPartFrom(plan: PlanGraph, instances: seq<Stored>, k: nat, b: Previous, part: Previous)
    requires k < |instances| && FromInstances(plan, instances, k, b.graph)
    requires FromInstance(plan, instances[k], part.graph)
    ensures FromInstances(plan, instances, k + 1, WithPart(b, part).graph)
  {
    var g := WithPart(b, part).graph;
    forall q | q in g.nodes
      ensures NodeFromAny(plan, instances, k + 1, q, g.nodes[q])
    {
      if q in part.graph.nodes {
        assert NodeFrom(plan, instances[k], q, g.nodes[q]);
      } else {
        assert NodeFromAny(plan, instances, k, q, b.graph.nodes[q]);
      }
    }
    forall e | e in g.edges
      ensures EdgeFromAny(plan, instances, k + 1, e, g.edges[e])
    {
      if e in part.graph.edges {
        assert EdgeFrom(plan, instances[k], e, g.edges[e]);
      } else {
        assert EdgeFromAny(plan, instances, k, e, b.graph.edges[e]);
      }
    }
  }

  lemma OneMorePart(plan: PlanGraph, instances: seq<Stored>, k: nat, parts: seq<Rebuilt>, part: Rebuilt)
    requires k < |instances| && PartsUpTo(plan, instances, k, parts) && IsPart(plan, instances[k], part)
    ensures PartsUpTo(plan, instances, k + 1, parts + [part])
  {
    forall m | 0 <= m < k + 1 ensures IsPart(plan, instances[m], (parts + [part])[m]) {
      if m < k {
        assert (parts + [part])[m] == parts[m];
      }
    }
  }

  lemma JoinedPart(parts: seq<Rebuilt>, b: Previous, part: Previous)
    requires Outline(b) == JoinAll(parts)
    ensures Outline(WithPart(b, part)) == JoinAll(parts + [Outline(part)])
  {
    JoinOneMore(parts, Outline(part));
  }

  /** The parts of all instances joined, unless building back one of them raises. */
  method BuildPreviousDeploymentNodeGraph(plan: PlanGraph, instances: seq<Stored>)
    returns (r: Option<Previous>, ghost parts: seq<Rebuilt>)
    ensures r.Some? ==> PartsOf(plan, instances, parts) && Outline(r.value) == JoinAll(parts)
    ensures r.Some? ==> FromInstances(plan, instances, |instances|, r.value.graph)
    ensures r.None? ==> |parts| < |instances| && Raises(plan, instances[|parts|])
  {
    var all := Previous(InstanceGraph(map[], map[]), {});
    parts := [];
    for k := 0 to |instances|
      invariant PartsUpTo(plan, instances, k, parts) && Outline(all) == JoinAll(parts)
      invariant FromInstances(plan, instances, k, all.graph)
    {
      var part := BuildPart(plan, instances[k]);
      if part.None? {
        return None, parts;
      }
      OneMorePart(plan, instances, k, parts, Outline(part.value));
      JoinedPart(parts, all, part.value);
      WithPartFrom(plan, instances, k, all, part.value);
      all, parts := WithPart(all, part.value), parts + [Outline(part.value)];
    }
    r := Some(all);
  }

  /** If building back no instance raises, each has its part. */
  lemma PartsExist(plan: PlanGraph, instances: seq<Stored>) returns (parts: seq<Rebuilt>)
    requires forall k :: 0 <= k < |instances| ==> !Raises(plan, instances[k])
    ensures PartsOf(plan, instances, parts)
  {
    parts := seq(|instances|, k requires 0 <= k < |instances| => Part(plan, instances[k]));
  }

  // ---------- back from what was handed out ----------

  /** What the edge carries can be recognized from the plan once it has been handed out. */
  ghost predicate Recognized(plan: PlanGraph, c: InstanceGraph, g: InstanceGraph, s: Inst, i: Id, t: Id)
    requires (i, t) in g.edges && i in c.nodes && Acyclic(s.cont)
  {
    var r, name := g.edges[(i, t)].relationship, c.nodes[i].name;
    && r.Some? && name in plan.nodes
    && (r.value.replaced <==> (name, Handed(c, s, i, r.value).targetName) !in plan.edges)
    && (!r.value.replaced ==>
          (IsContainment(plan.edges[(name, r.value.targetName)].relationship) <==> i in s.cont && s.cont[i] == t))
  }

  ghost predicate Recognizable(plan: PlanGraph, c: InstanceGraph, g: InstanceGraph, s: Inst) {
    && Extractable(c, g, s)
    && forall i, t :: (i, t) in g.edges && i in c.nodes && !c.nodes[i].group && !IsGroupEdge(g.edges[(i, t)]) ==>
         Recognized(plan, c, g, s, i, t)
  }

  /** A redirected relationship of `i` leads into a group. */
  ghost predicate Redirects(g: InstanceGraph, i: Id, t: Id) {
    (i, t) in g.edges && g.edges[(i, t)].relationship.Some? && g.edges[(i, t)].relationship.value.replaced
  }

  /** The stored instance `x` was handed out of this deployment. */
  ghost predicate CameFrom(c: InstanceGraph, g: InstanceGraph, s: Inst, x: Stored, order: seq<Id>)
    requires Acyclic(s.cont) && forall i :: i in s.cont ==> s.cont[i] in c.nodes
  {
    && x.id in c.nodes && !c.nodes[x.id].group && x.name == c.nodes[x.id].name
    && x.groups == GroupsOf(c, s, x.id) && HandedOut(c, g, s, x.id, order, x.relationships)
  }

  /** Each relationship comes back as the edge it was read from. */
  lemma RewrittenBack(plan: PlanGraph, c: InstanceGraph, g: InstanceGraph, s: Inst, x: Stored, order: seq<Id>, k: nat)
    requires Recognizable(plan, c, g, s) && CameFrom(c, g, s, x, order) && k < |order|
    ensures var r := x.relationships[k];
      && (x.id, order[k]) in g.edges && !RaisesAt(plan, x, r)
      && Some(Rewritten(plan, x, r)) == g.edges[(x.id, order[k])].relationship
      && EdgeOf(plan, x, k) == (x.id, order[k])
      && (WasReplaced(plan, x, r) <==> Redirects(g, x.id, order[k]))
      && (WasReplaced(plan, x, r) ==> Some(r.targetId) == AfterGroups(Chain(s.cont, x.id), GroupInstances(c)))
      && (Contains(plan, x, r) <==> x.id in s.cont && s.cont[x.id] == order[k])
  {
    var i, t := x.id, order[k];
    assert t in Elements(order) && t in Plain(g, i);
    assert IsHanded(c, g, s, i, t, x.relationships[k]);
    assert EdgeRecord(c, g, s, i, t) && Recognized(plan, c, g, s, i, t);
    if g.edges[(i, t)].relationship.value.replaced {
      LeadingStep(c, s, i);
      ChainKnown(c, s, i);
      LeadingWithin(Chain(s.cont, i), GroupInstances(c));
    }
  }

  lemma {:induction false} RelationshipEdgeAt(plan: PlanGraph, x: Stored, n: nat, e: (Id, Id))
    requires n <= |x.relationships|
    ensures e in RelationshipEdges(plan, x, n) <==> exists k :: 0 <= k < n && EdgeOf(plan, x, k) == e
    ensures e in ContainedEdges(plan, x, n) <==>
      exists k :: 0 <= k < n && EdgeOf(plan, x, k) == e && Contains(plan, x, x.relationships[k])
  {
    if n > 0 {
      RelationshipEdgeAt(plan, x, n - 1, e);
    }
  }

  lemma EdgesBack(plan: PlanGraph, c: InstanceGraph, g: InstanceGraph, s: Inst, x: Stored, order: seq<Id>, a: Id, b: Id)
    requires Recognizable(plan, c, g, s) && CameFrom(c, g, s, x, order)
    ensures (a, b) in RelationshipEdges(plan, x, |x.relationships|) <==> a == x.id && b in order
    ensures (a, b) in ContainedEdges(plan, x, |x.relationships|) <==>
      a == x.id && b in order && a in s.cont && s.cont[a] == b
  {
    RelationshipEdgeAt(plan, x, |x.relationships|, (a, b));
    forall k | 0 <= k < |order|
      ensures EdgeOf(plan, x, k) == (x.id, order[k])
      ensures Contains(plan, x, x.relationships[k]) <==> x.id in s.cont && s.cont[x.id] == order[k]
    {
      RewrittenBack(plan, c, g, s, x, order, k);
    }
    if a == x.id && b in order {
      var k :| 0 <= k < |order| && order[k] == b;
      assert EdgeOf(plan, x, k) == (a, b);
    }
  }

  lemma {:induction false} ReplacedTargetIs(plan: PlanGraph, x: Stored, n: nat)
    requires n <= |x.relationships|
    ensures ReplacedTarget(plan, x, n).None? ==> forall k :: 0 <= k < n ==> !WasReplaced(plan, x, x.relationships[k])
    ensures var t := ReplacedTarget(plan, x, n);
      t.Some? ==> exists k ::
        0 <= k < n && WasReplaced(plan, x, x.relationships[k]) && x.relationships[k].targetId == t.value
  {
    if n > 0 {
      ReplacedTargetIs(plan, x, n - 1);
    }
  }

  lemma TargetBack(plan: PlanGraph, c: InstanceGraph, g: InstanceGraph, s: Inst, x: Stored, order: seq<Id>)
    requires Recognizable(plan, c, g, s) && CameFrom(c, g, s, x, order)
    ensures var target := ReplacedTarget(plan, x, |x.relationships|);
      && (target.Some? <==> exists t :: t in order && Redirects(g, x.id, t))
      && (target.Some? ==> target == AfterGroups(Chain(s.cont, x.id), GroupInstances(c)))
  {
    ReplacedTargetIs(plan, x, |x.relationships|);
    forall k | 0 <= k < |order|
      ensures WasReplaced(plan, x, x.relationships[k]) <==> Redirects(g, x.id, order[k])
      ensures WasReplaced(plan, x, x.relationships[k]) ==>
        Some(x.relationships[k].targetId) == AfterGroups(Chain(s.cont, x.id), GroupInstances(c))
    {
      RewrittenBack(plan, c, g, s, x, order, k);
    }
  }

  // ---------- the chain of groups ----------

  lemma {:induction false} StepsUpToAt(chain: seq<Id>, n: nat, a: Id, b: Id)
    requires n <= |chain|
    ensures (a, b) in StepsUpTo(chain, n) <==> exists k :: 0 <= k < n - 1 && chain[k] == a && chain[k + 1] == b
  {
    if n >= 2 {
      StepsUpToAt(chain, n - 1, a, b);
    }
  }

  lemma StepsAt(chain: seq<Id>, a: Id, b: Id)
    ensures (a, b) in Steps(chain) <==> exists k :: 0 <= k < |chain| - 1 && chain[k] == a && chain[k + 1] == b
  {
    StepsUpToAt(chain, |chain|, a, b);
  }

  /** Going up a chain, each element's container comes next. */
  lemma ChainNext(cont: map<Id, Id>, i: Id, k: nat)
    requires Acyclic(cont) && k < |Chain(cont, i)|
    ensures Chain(cont, i)[k] in cont <==> k + 1 < |Chain(cont, i)|
    ensures k + 1 < |Chain(cont, i)| ==> cont[Chain(cont, i)[k]] == Chain(cont, i)[k + 1]
  {
    ChainSuffix(cont, i, k);
  }

  /** The group instance `q` is recorded on `i`, and so is its container. */
  ghost predicate Carries(c: InstanceGraph, g: InstanceGraph, s: Inst, i: Id, q: Id)
    requires Acyclic(s.cont)
  {
    && i in c.nodes && !c.nodes[i].group
    && q in LeadingGroups(Chain(s.cont, i), GroupInstances(c)) && q in s.cont
    && (s.cont[q] in GroupInstances(c) || exists t :: Redirects(g, i, t))
  }

  lemma GroupIds(c: InstanceGraph, s: Inst, x: Stored)
    requires Acyclic(s.cont) && (forall i :: i in s.cont ==> s.cont[i] in c.nodes) && x.groups == GroupsOf(c, s, x.id)
    ensures Ids(x.groups) == LeadingGroups(Chain(s.cont, x.id), GroupInstances(c))
  {
  }

  ghost predicate Climbs(cont: map<Id, Id>, chain: seq<Id>) {
    forall k :: 0 <= k < |chain| - 1 ==> chain[k] in cont && cont[chain[k]] == chain[k + 1]
  }

  lemma ClimbSteps(cont: map<Id, Id>, chain: seq<Id>, a: Id, b: Id)
    requires chain != [] && Climbs(cont, chain)
    ensures (a, b) in Steps(chain) <==> a in chain[..|chain| - 1] && a in cont && cont[a] == b
  {
    StepsAt(chain, a, b);
    var front := chain[..|chain| - 1];
    assert forall k :: 0 <= k < |front| ==> front[k] == chain[k];
    if a in front && a in cont && cont[a] == b {
      var k :| 0 <= k < |front| && front[k] == a;
      assert chain[k] == a && chain[k + 1] == b;
    }
  }

  lemma ChainClimbs(cont: map<Id, Id>, i: Id, n: nat)
    requires Acyclic(cont) && n <= |Chain(cont, i)|
    ensures Climbs(cont, Chain(cont, i)[..n])
    ensures n > 0 ==> Climbs(cont, [i] + Chain(cont, i)[..n])
  {
    forall k | 0 <= k < n - 1 ensures Chain(cont, i)[k] in cont && cont[Chain(cont, i)[k]] == Chain(cont, i)[k + 1] {
      ChainNext(cont, i, k);
    }
  }

  /** Up to the replaced target, every group on the way is held by the next. */
  lemma StepsToTarget(cont: map<Id, Id>, groups: set<Id>, i: Id, a: Id, b: Id)
    requires Acyclic(cont) && AfterGroups(Chain(cont, i), groups).Some?
    ensures var up := LeadingGroups(Chain(cont, i), groups);
      (a, b) in Steps(up + [AfterGroups(Chain(cont, i), groups).value]) <==> a in up && a in cont && cont[a] == b
  {
    var chain := Chain(cont, i);
    var up := LeadingGroups(chain, groups);
    LeadingWithin(chain, groups);
    var steps := up + [AfterGroups(chain, groups).value];
    assert steps == chain[..|up| + 1];
    ChainClimbs(cont, i, |up| + 1);
    ClimbSteps(cont, steps, a, b);
    assert steps[..|up|] == up;
  }

  /** A group on the way is followed by another exactly when its container is one. */
  lemma NextGroup(cont: map<Id, Id>, groups: set<Id>, i: Id, a: Id)
    requires Acyclic(cont) && a in cont && LeadingGroups(Chain(cont, i), groups) != []
    ensures var up := LeadingGroups(Chain(cont, i), groups);
      a in up[..|up| - 1] <==> a in up && cont[a] in groups
  {
    var chain := Chain(cont, i);
    var up := LeadingGroups(chain, groups);
    LeadingWithin(chain, groups);
    if a in up {
      var k :| 0 <= k < |up| && up[k] == a;
      ChainNext(cont, i, k);
      assert chain[k] == a && chain[k + 1] == cont[a];
      assert k + 1 < |up| ==> up[k + 1] == cont[a] && up[..|up| - 1][k] == a;
    }
    if a in up[..|up| - 1] {
      var k :| 0 <= k < |up| - 1 && up[k] == a;
      ChainNext(cont, i, k);
      assert chain[k] == a && chain[k + 1] == up[k + 1];
    }
  }

  /** From the instance to its outermost group. */
  lemma StepsToOutermost(cont: map<Id, Id>, groups: set<Id>, i: Id, a: Id, b: Id)
    requires Acyclic(cont) && LeadingGroups(Chain(cont, i), groups) != []
    ensures var up := LeadingGroups(Chain(cont, i), groups);
      (a, b) in Steps([i] + up) <==> a in cont && cont[a] == b && (a == i || (a in up && b in groups))
  {
    var chain := Chain(cont, i);
    var up := LeadingGroups(chain, groups);
    LeadingWithin(chain, groups);
    var steps := [i] + up;
    assert up == chain[..|up|];
    ChainClimbs(cont, i, |up|);
    ClimbSteps(cont, steps, a, b);
    assert steps[..|steps| - 1] == [i] + up[..|up| - 1];
    if a in cont {
      NextGroup(cont, groups, i, a);
    }
  }

  // ---------- the whole graph ----------

  /** The replaced target is found exactly when a relationship of the instance was redirected. */
  lemma TargetFound(plan: PlanGraph, c: InstanceGraph, g: InstanceGraph, s: Inst, x: Stored, order: seq<Id>)
    requires Recognizable(plan, c, g, s) && CameFrom(c, g, s, x, order)
    ensures var target := ReplacedTarget(plan, x, |x.relationships|);
      && (target.Some? <==> exists t :: Redirects(g, x.id, t))
      && (target.Some? ==> target == AfterGroups(Chain(s.cont, x.id), GroupInstances(c)))
      && (target.Some? ==> x.id in s.cont && Redirects(g, x.id, s.cont[x.id]) && x.groups != [])
  {
    TargetBack(plan, c, g, s, x, order);
    forall t | Redirects(g, x.id, t)
      ensures t in order && AfterGroups(Chain(s.cont, x.id), GroupInstances(c)).Some?
      ensures x.id in s.cont && s.cont[x.id] == t && x.groups != []
    {
      assert EdgeRecord(c, g, s, x.id, t);
      assert t in Plain(g, x.id) && t in Elements(order);
      LeadingStep(c, s, x.id);
    }
  }

  /** The edges that the groups recorded on one instance give back. */
  lemma ChainBack(plan: PlanGraph, c: InstanceGraph, g: InstanceGraph, s: Inst, x: Stored, order: seq<Id>, a: Id, b: Id)
    requires Recognizable(plan, c, g, s) && CameFrom(c, g, s, x, order)
    ensures var target := ReplacedTarget(plan, x, |x.relationships|);
      (a, b) in Steps(GroupChain(x, target)) <==>
        a in s.cont && s.cont[a] == b && (Carries(c, g, s, x.id, a) || (a == x.id && target.None? && x.groups != []))
  {
    var up, groups := LeadingGroups(Chain(s.cont, x.id), GroupInstances(c)), GroupInstances(c);
    GroupIds(c, s, x);
    TargetFound(plan, c, g, s, x, order);
    LeadingWithin(Chain(s.cont, x.id), groups);
    if up != [] {
      if ReplacedTarget(plan, x, |x.relationships|).Some? {
        StepsToTarget(s.cont, groups, x.id, a, b);
      } else {
        StepsToOutermost(s.cont, groups, x.id, a, b);
      }
    }
  }

  /** An edge of an instance in a group is the group's own unless it is redirected. */
  lemma GroupEdgeKind(c: InstanceGraph, g: InstanceGraph, s: Inst, i: Id, t: Id)
    requires Extractable(c, g, s) && (i, t) in g.edges && i in c.nodes && !c.nodes[i].group
    ensures t in Plain(g, i) <==> !IsGroupEdge(g.edges[(i, t)])
    ensures IsGroupEdge(g.edges[(i, t)]) <==>
      i in s.cont && s.cont[i] == t && GroupsOf(c, s, i) != [] && !Redirects(g, i, t)
  {
    assert EdgeRecord(c, g, s, i, t);
    if i in s.cont {
      LeadingStep(c, s, i);
    }
    assert t in Plain(g, i) ==> !IsGroupEdge(g.edges[(i, t)]);
  }

  lemma GroupEdgesBack(plan: PlanGraph, c: InstanceGraph, g: InstanceGraph, s: Inst, x: Stored, order: seq<Id>, t: Id)
    requires Recognizable(plan, c, g, s) && CameFrom(c, g, s, x, order)
    ensures (x.id, t) in g.edges && t !in order <==>
      x.id in s.cont && s.cont[x.id] == t && ReplacedTarget(plan, x, |x.relationships|).None? && x.groups != []
  {
    TargetFound(plan, c, g, s, x, order);
    assert t in order <==> t in Elements(order);
    assert x.id in s.cont && s.cont[x.id] == t ==> (x.id, t) in g.edges;
    if (x.id, t) in g.edges {
      GroupEdgeKind(c, g, s, x.id, t);
    }
  }

  /** One instance gives back its own edges, and those of the group instances recorded on it. */
  lemma PartExactly(plan: PlanGraph, c: InstanceGraph, g: InstanceGraph, s: Inst, x: Stored, order: seq<Id>, a: Id,
                    b: Id)
    requires Recognizable(plan, c, g, s) && CameFrom(c, g, s, x, order)
    ensures (a, b) in Part(plan, x).edges <==>
      (a == x.id && (a, b) in g.edges) || (Carries(c, g, s, x.id, a) && s.cont[a] == b)
    ensures (a, b) in Part(plan, x).contained <==>
      (a == x.id || Carries(c, g, s, x.id, a)) && a in s.cont && s.cont[a] == b
  {
    var i := x.id;
    EdgesBack(plan, c, g, s, x, order, a, b);
    ChainBack(plan, c, g, s, x, order, a, b);
    GroupEdgesBack(plan, c, g, s, x, order, b);
    assert b in order <==> b in Elements(order);
    assert a == i && a in s.cont && s.cont[a] == b ==> (a, b) in g.edges;
  }

  lemma NotRaised(plan: PlanGraph, c: InstanceGraph, g: InstanceGraph, s: Inst, x: Stored, order: seq<Id>)
    requires Recognizable(plan, c, g, s) && CameFrom(c, g, s, x, order)
    ensures !Raises(plan, x)
  {
    forall r | r in x.relationships ensures !RaisesAt(plan, x, r) {
      var k :| 0 <= k < |x.relationships| && x.relationships[k] == r;
      RewrittenBack(plan, c, g, s, x, order, k);
    }
  }

  /** The node instances of a deployment, each handed out. */
  ghost predicate HandsOut(c: InstanceGraph, g: InstanceGraph, s: Inst, instances: seq<Stored>)
    requires Acyclic(s.cont) && forall i :: i in s.cont ==> s.cont[i] in c.nodes
  {
    && (forall k :: 0 <= k < |instances| ==> Extracted(c, g, s, instances[k]))
    && (forall i :: i in c.nodes && !c.nodes[i].group ==> exists k :: 0 <= k < |instances| && instances[k].id == i)
  }

  /** The part `k` of those that the instances of the deployment give back. */
  lemma PartOf(plan: PlanGraph, c: InstanceGraph, g: InstanceGraph, s: Inst, instances: seq<Stored>,
               parts: seq<Rebuilt>, k: nat, a: Id, b: Id)
    requires Recognizable(plan, c, g, s) && HandsOut(c, g, s, instances) && PartsOf(plan, instances, parts) &&
      k < |parts|
    ensures var i := instances[k].id;
      && i in c.nodes && !c.nodes[i].group
      && ((a, b) in parts[k].edges <==> (a == i && (a, b) in g.edges) || (Carries(c, g, s, i, a) && s.cont[a] == b))
      && ((a, b) in parts[k].contained <==> (a == i || Carries(c, g, s, i, a)) && a in s.cont && s.cont[a] == b)
  {
    var x := instances[k];
    assert IsPart(plan, x, parts[k]);
    var order: seq<Id> :| HandedOut(c, g, s, x.id, order, x.relationships);
    PartExactly(plan, c, g, s, x, order, a, b);
  }

  /**
    What comes back from the stored instances of a deployment: every edge of a node instance, and the
    containment of a group instance exactly when it is recorded on some instance together with its container.
  */
  lemma RebuiltExactly(plan: PlanGraph, c: InstanceGraph, g: InstanceGraph, s: Inst, instances: seq<Stored>,
                       parts: seq<Rebuilt>, a: Id, b: Id)
    requires Recognizable(plan, c, g, s) && HandsOut(c, g, s, instances) && PartsOf(plan, instances, parts)
    ensures (a, b) in JoinAll(parts).edges <==>
      || ((a, b) in g.edges && a in c.nodes && !c.nodes[a].group)
      || (a in s.cont && s.cont[a] == b && exists i :: Carries(c, g, s, i, a))
    ensures (a, b) in JoinAll(parts).contained <==>
      a in s.cont && s.cont[a] == b && (!c.nodes[a].group || exists i :: Carries(c, g, s, i, a))
  {
    JoinAt(parts, a, (a, b));
    forall k | 0 <= k < |parts|
      ensures var i := instances[k].id;
        && i in c.nodes && !c.nodes[i].group
        && ((a, b) in parts[k].edges <==> (a == i && (a, b) in g.edges) || (Carries(c, g, s, i, a) && s.cont[a] == b))
        && ((a, b) in parts[k].contained <==> (a == i || Carries(c, g, s, i, a)) && a in s.cont && s.cont[a] == b)
    {
      PartOf(plan, c, g, s, instances, parts, k, a, b);
    }
    forall i | Carries(c, g, s, i, a) || (i == a && a in c.nodes && !c.nodes[a].group)
      ensures exists k :: 0 <= k < |instances| && instances[k].id == i
    {
    }
  }

  /** `q` is the node instance `i` or recorded on it. */
  ghost predicate Records(c: InstanceGraph, s: Inst, i: Id, q: Id)
    requires Acyclic(s.cont)
  {
    i in c.nodes && !c.nodes[i].group && (q == i || q in LeadingGroups(Chain(s.cont, i), GroupInstances(c)))
  }

  lemma PartNodes(plan: PlanGraph, c: InstanceGraph, s: Inst, x: Stored, q: Id)
    requires Acyclic(s.cont) && (forall i :: i in s.cont ==> s.cont[i] in c.nodes) && x.groups == GroupsOf(c, s, x.id)
    requires x.id in c.nodes && !c.nodes[x.id].group
    ensures q in Part(plan, x).nodes <==> Records(c, s, x.id, q)
  {
    GroupIds(c, s, x);
    assert q in Elements(Ids(x.groups)) <==> q in Ids(x.groups);
  }

  /** The nodes that come back: the node instances, and the group instances that hold one of them. */
  lemma NodesBack(plan: PlanGraph, c: InstanceGraph, g: InstanceGraph, s: Inst, instances: seq<Stored>,
                  parts: seq<Rebuilt>, q: Id)
    requires Recognizable(plan, c, g, s) && HandsOut(c, g, s, instances) && PartsOf(plan, instances, parts)
    ensures q in JoinAll(parts).nodes <==> exists i :: Records(c, s, i, q)
  {
    JoinAt(parts, q, (q, q));
    forall k | 0 <= k < |parts| ensures q in parts[k].nodes <==> Records(c, s, instances[k].id, q) {
      assert IsPart(plan, instances[k], parts[k]);
      PartNodes(plan, c, s, instances[k], q);
    }
    if i :| Records(c, s, i, q) {
      var k :| 0 <= k < |instances| && instances[k].id == i;
      assert q in parts[k].nodes;
    }
  }

  /** Building back never raises. */
  lemma NeverRaises(plan: PlanGraph, c: InstanceGraph, g: InstanceGraph, s: Inst, instances: seq<Stored>, k: nat)
    requires Recognizable(plan, c, g, s) && HandsOut(c, g, s, instances) && k < |instances|
    ensures !Raises(plan, instances[k])
  {
    var x := instances[k];
    var order: seq<Id> :| HandedOut(c, g, s, x.id, order, x.relationships);
    NotRaised(plan, c, g, s, x, order);
  }

  /** What is held comes back, as far as it is a node instance or recorded on one together with its container. */
  ghost predicate ComesBack(c: InstanceGraph, g: InstanceGraph, s: Inst, q: Id)
    requires Acyclic(s.cont) && q in c.nodes
  {
    !c.nodes[q].group || exists i :: Carries(c, g, s, i, q)
  }

  lemma ContainmentBack(plan: PlanGraph, c: InstanceGraph, g: InstanceGraph, s: Inst, instances: seq<Stored>,
                        parts: seq<Rebuilt>, e: (Id, Id))
    requires Recognizable(plan, c, g, s) && HandsOut(c, g, s, instances) && PartsOf(plan, instances, parts)
    ensures e in JoinAll(parts).contained <==> e in c.edges && ComesBack(c, g, s, e.0)
  {
    assert e == (e.0, e.1);
    RebuiltExactly(plan, c, g, s, instances, parts, e.0, e.1);
  }

  lemma AllPairs(some: set<(Id, Id)>, all: set<(Id, Id)>, cont: map<Id, Id>, back: set<Id>)
    requires forall e :: e in all <==> e.0 in cont && cont[e.0] == e.1
    requires forall e :: e in some <==> e in all && e.0 in back
    ensures some == all <==> cont.Keys <= back
  {
    if some == all {
      forall q | q in cont ensures q in back {
        assert (q, cont[q]) in some;
      }
    }
  }

  /**
    The containment that comes back is all of it exactly when every held group instance is recorded
    with its container.
  */
  lemma AllContainmentBack(plan: PlanGraph, c: InstanceGraph, g: InstanceGraph, s: Inst, instances: seq<Stored>,
                           parts: seq<Rebuilt>)
    requires Recognizable(plan, c, g, s) && HandsOut(c, g, s, instances) && PartsOf(plan, instances, parts)
    ensures JoinAll(parts).contained == c.edges.Keys <==> forall q :: q in s.cont ==> ComesBack(c, g, s, q)
  {
    var back := set q | q in s.cont && ComesBack(c, g, s, q);
    forall e ensures e in JoinAll(parts).contained <==> e in c.edges.Keys && e.0 in back {
      ContainmentBack(plan, c, g, s, instances, parts, e);
    }
    AllPairs(JoinAll(parts).contained, c.edges.Keys, s.cont, back);
  }

  // ---------- a fresh deployment can be recognized ----------

  lemma DeclaredNotPrimary(ns: seq<NodeDef>, gof: map<Name, Name>, a: int, b: int, m: int)
    requires Separate(ns, gof) && Lifts(ns, gof, a, b) && Rel(ns, a, m)
    ensures Primary(ns, gof, a, m).1 != ns[a].relationships[b].target
  {
    assert ValidatedNode(ns, ns[a]) && ValidatedTarget(ns, ns[a].relationships[b]);
  }

  lemma DeclaredNotLifted(ns: seq<NodeDef>, gof: map<Name, Name>, a: int, k: int, m: int)
    requires Separate(ns, gof) && 0 <= a < |ns| && Lifts(ns, gof, k, m)
    ensures Lifted(ns, gof, k, m).0 != ns[a].id
  {
    TopIs(gof, gof[ns[k].id]);
    assert IsNode(ns, ns[a].id);
  }

  /** A redirected relationship leaves no edge to the container that it declared. */
  lemma DeclaredGone(ns: seq<NodeDef>, groups: seq<GroupDef>, plan: PlanGraph, a: int, b: int)
    requires PlanOf(ns, groups, plan) && Lifts(ns, GroupOf(groups), a, b)
    ensures (ns[a].id, ns[a].relationships[b].target) !in plan.edges
  {
    var gof := GroupOf(groups);
    var e := (ns[a].id, ns[a].relationships[b].target);
    ValidatedSeparate(ns, groups);
    assert ValidatedNode(ns, ns[a]) && ValidatedTarget(ns, ns[a].relationships[b]);
    assert !GroupPair(gof, e);
    if FromRelationship(ns, gof, |ns|, 0, e) {
      var k, m :| Before(ns, |ns|, 0, k, m) &&
        (e == Primary(ns, gof, k, m) || (Lifts(ns, gof, k, m) && e == Lifted(ns, gof, k, m)));
      if Lifts(ns, gof, k, m) {
        DeclaredNotLifted(ns, gof, a, k, m);
      }
      if k == a {
        DeclaredNotPrimary(ns, gof, a, b, m);
      }
    }
  }

  lemma FreshRecognized(ns: seq<NodeDef>, groups: seq<GroupDef>, plan: PlanGraph,
                        c: InstanceGraph, g: InstanceGraph, w: World, s: Inst, i: Id, t: Id)
    requires PlanOf(ns, groups, plan) && FreshOf(plan, c, g, w, s) && Unmixed(plan)
    requires (i, t) in g.edges && i in c.nodes && !c.nodes[i].group && !IsGroupEdge(g.edges[(i, t)])
    ensures Recognized(plan, c, g, s, i, t)
  {
    EdgeCopies(plan, c, g, w, s, i, t);
    assert GroupMarked(plan, c.nodes[i]);
    var e := (s.node[i], s.node[t]);
    EdgeKind(ns, groups, plan, e);
    if plan.edges[e].relationship.replaced.Some? {
      var gof := GroupOf(groups);
      var a, b :| Stands(ns, gof, plan.edges[e], e, a, b) && Lifts(ns, gof, a, b);
      TopStep(gof, e.0);
      DeclaredAbove(ns, groups, plan, a, b, e.0);
      HolderOf(plan, c, g, w, s, i);
      DeclaredGone(ns, groups, plan, a, b);
    } else if i in s.cont && s.cont[i] == t {
      assert (i, t) in c.edges;
      ContainedCopies(plan, c, w, s, i, t);
      assert w.parent[s.node[i]] == s.node[t];
    }
  }

  lemma FreshRecognizable(ns: seq<NodeDef>, groups: seq<GroupDef>, plan: PlanGraph,
                          c: InstanceGraph, g: InstanceGraph, w: World, s: Inst)
    requires PlanOf(ns, groups, plan) && FreshOf(plan, c, g, w, s) && Unmixed(plan)
    ensures Recognizable(plan, c, g, s)
  {
    FreshExtractable(ns, groups, plan, c, g, w, s);
    forall i, t | (i, t) in g.edges && i in c.nodes && !c.nodes[i].group && !IsGroupEdge(g.edges[(i, t)])
      ensures Recognized(plan, c, g, s, i, t)
    {
      FreshRecognized(ns, groups, plan, c, g, w, s, i, t);
    }
  }
}
