/**
  Building the plan graph from the plan's nodes and scaling groups. A contained_in relationship
  of a group member is redirected to the group for the time of the expansion, and restored after.
*/
module PlanBuilder {
  import opened Names
  import opened Forests
  import opened Graphs

  datatype NodeDef = NodeDef(id: Name, current: int, relationships: seq<Relationship>)
  datatype GroupDef = GroupDef(name: Name, current: int, members: seq<Name>)

  predicate IsContained(r: Relationship) {
    CONTAINED_IN in r.hierarchy
  }

  function GroupRelationship(target: Name): Relationship {
    Relationship(GROUP_CONTAINED_IN, [GROUP_CONTAINED_IN], target, None, None)
  }

  function GroupEdge(target: Name): PlanEdge {
    PlanEdge(GroupRelationship(target), -1)
  }

  /** The group that each member is directly in. */
  function GroupOf(groups: seq<GroupDef>): (m: map<Name, Name>) {
    if groups == [] then map[]
    else
      var last := groups[|groups| - 1];
      GroupOf(groups[..|groups| - 1]) + map x | x in last.members :: last.name
  }

  /** The outermost group around a group. */
  function Top(gof: map<Name, Name>, g: Name): Name
    requires Acyclic(gof)
  {
    var path := Path(gof, g);
    path[|path| - 1]
  }

  /** The relationship as the expansion sees it: redirected to the node's group if it is contained_in. */
  function Redirected(gof: map<Name, Name>, id: Name, r: Relationship): Relationship {
    if IsContained(r) && id in gof then r.(target := gof[id], replaced := Some(r.target)) else r
  }

  function RedirectedNode(gof: map<Name, Name>, n: NodeDef): NodeDef {
    n.(relationships := seq(|n.relationships|, k requires 0 <= k < |n.relationships| =>
      Redirected(gof, n.id, n.relationships[k])))
  }

  function RedirectedNodes(gof: map<Name, Name>, ns: seq<NodeDef>): seq<NodeDef> {
    seq(|ns|, i requires 0 <= i < |ns| => RedirectedNode(gof, ns[i]))
  }

  /** What restoring does to one relationship; an empty name counts as nothing replaced. */
  function Restored(r: Relationship): Relationship {
    if r.replaced.Some? && r.replaced.value != "" then r.(target := r.replaced.value, replaced := None)
    else r.(replaced := None)
  }

  function RestoredNode(n: NodeDef): NodeDef {
    n.(relationships := seq(|n.relationships|, k requires 0 <= k < |n.relationships| => Restored(n.relationships[k])))
  }

  /** What the parser's validation guarantees about nodes, groups and relationships. */
  ghost predicate Validated(ns: seq<NodeDef>, groups: seq<GroupDef>) {
    && OwnNames(ns, groups)
    && (forall i, j, m :: 0 <= i < |groups| && 0 <= j < |groups| && m in groups[i].members && m in groups[j].members ==>
      i == j)
    && (forall i, m :: 0 <= i < |groups| && m in groups[i].members ==> IsNode(ns, m) || IsGroup(groups, m))
    && (forall i :: 0 <= i < |ns| ==> ValidatedNode(ns, ns[i]))
    && Acyclic(GroupOf(groups))
  }

  /** The nodes and groups have names of their own. */
  ghost predicate OwnNames(ns: seq<NodeDef>, groups: seq<GroupDef>) {
    && (forall i, j :: 0 <= i < j < |ns| ==> ns[i].id != ns[j].id)
    && (forall i, j :: 0 <= i < j < |groups| ==> groups[i].name != groups[j].name)
    && (forall i, j :: 0 <= i < |ns| && 0 <= j < |groups| ==> ns[i].id != groups[j].name)
  }

  /** The nodes of the graph are the plan's nodes and groups, with their declared counts and relationships. */
  ghost predicate Shows(ns: seq<NodeDef>, groups: seq<GroupDef>, m: map<Name, PlanNode>) {
    && (forall x :: x in m <==> IsNode(ns, x) || IsGroup(groups, x))
    && (forall i :: 0 <= i < |ns| ==> ns[i].id in m && m[ns[i].id] == NodeOf(ns[i]))
    && (forall j :: 0 <= j < |groups| ==> groups[j].name in m && m[groups[j].name] == GroupNodeOf(groups[j]))
  }

  function NodeOf(n: NodeDef): PlanNode {
    PlanNode(false, n.current, n.relationships)
  }

  function GroupNodeOf(g: GroupDef): PlanNode {
    PlanNode(true, g.current, [])
  }

  ghost predicate IsNode(ns: seq<NodeDef>, x: Name) {
    exists i :: 0 <= i < |ns| && ns[i].id == x
  }

  ghost predicate IsGroup(groups: seq<GroupDef>, x: Name) {
    exists i :: 0 <= i < |groups| && groups[i].name == x
  }

  /** At most one contained_in, at most one relationship to each target, all targets known nodes. */
  ghost predicate ValidatedNode(ns: seq<NodeDef>, n: NodeDef) {
    && (forall k :: 0 <= k < |n.relationships| ==> ValidatedTarget(ns, n.relationships[k]))
    && (forall k, m :: 0 <= k < m < |n.relationships| ==>
          && n.relationships[k].target != n.relationships[m].target
          && !(IsContained(n.relationships[k]) && IsContained(n.relationships[m])))
  }

  ghost predicate ValidatedTarget(ns: seq<NodeDef>, r: Relationship) {
    && IsNode(ns, r.target) && r.replaced.None?
    && r.typeName in r.hierarchy && GROUP_CONTAINED_IN !in r.hierarchy
  }

  /** The node `n` and its relationship `k`. */
  ghost predicate Rel(ns: seq<NodeDef>, a: int, k: int) {
    0 <= a < |ns| && 0 <= k < |ns[a].relationships|
  }

  /** The edge that stands for the relationship `k` of the node `a`. */
  ghost function Primary(ns: seq<NodeDef>, gof: map<Name, Name>, a: int, k: int): (Name, Name)
    requires Rel(ns, a, k)
  {
    (ns[a].id, Redirected(gof, ns[a].id, ns[a].relationships[k]).target)
  }

  /** The relationship `k` of `a` also puts the outermost group of `a` into its target. */
  ghost predicate Lifts(ns: seq<NodeDef>, gof: map<Name, Name>, a: int, k: int) {
    Rel(ns, a, k) && IsContained(ns[a].relationships[k]) && ns[a].id in gof
  }

  ghost function Lifted(ns: seq<NodeDef>, gof: map<Name, Name>, a: int, k: int): (Name, Name)
    requires Acyclic(gof) && Lifts(ns, gof, a, k)
  {
    (Top(gof, gof[ns[a].id]), ns[a].relationships[k].target)
  }

  ghost predicate GroupPair(gof: map<Name, Name>, e: (Name, Name)) {
    e.0 in gof && gof[e.0] == e.1
  }

  /** The relationships before the relationship `k` of the node `i`. */
  ghost predicate Before(ns: seq<NodeDef>, i: int, k: int, a: int, b: int) {
    Rel(ns, a, b) && (a < i || (a == i && b < k))
  }

  /** The edges once all groups and the relationships before `k` of the node `i` are in. */
  ghost predicate Built(ns: seq<NodeDef>, gof: map<Name, Name>, es: map<(Name, Name), PlanEdge>, i: int, k: int)
    requires Acyclic(gof)
  {
    && (forall e :: GroupPair(gof, e) ==> e in es && MemberEdge(ns, gof, es[e], i, k, e))
    && (forall a, b :: Before(ns, i, k, a, b) ==> RelationshipIn(ns, gof, es, a, b))
    && (forall e :: e in es ==> GroupPair(gof, e) || FromRelationship(ns, gof, i, k, e))
  }

  /** The edge of a member to its group: the group's own, or the member's redirected relationship. */
  ghost predicate MemberEdge(ns: seq<NodeDef>, gof: map<Name, Name>, d: PlanEdge, i: int, k: int, e: (Name, Name))
    requires Acyclic(gof)
  {
    || d == GroupEdge(e.1)
    || exists a, b :: Before(ns, i, k, a, b) && Lifts(ns, gof, a, b) && e == Primary(ns, gof, a, b)
         && d == PlanEdge(Redirected(gof, ns[a].id, ns[a].relationships[b]), b)
  }

  lemma MemberEdgeIsPure(ns: seq<NodeDef>, gof: map<Name, Name>, d: PlanEdge, i: int, k: int, e: (Name, Name))
    requires Acyclic(gof) && MemberEdge(ns, gof, d, i, k, e)
    ensures PureContainment(d.relationship)
  {
    if d == GroupEdge(e.1) {
      assert d.relationship.hierarchy[0] == GROUP_CONTAINED_IN;
    } else {
      ContainedIsPure(d.relationship);
    }
  }

  ghost predicate PureContainment(r: Relationship) {
    IsContainment(r) && !IsConnection(r)
  }

  lemma ContainedIsPure(r: Relationship)
    requires IsContained(r)
    ensures PureContainment(r)
  {
    var k :| 0 <= k < |r.hierarchy| && r.hierarchy[k] == CONTAINED_IN;
  }

  ghost predicate FromRelationship(ns: seq<NodeDef>, gof: map<Name, Name>, i: int, k: int, e: (Name, Name))
    requires Acyclic(gof)
  {
    exists a, b :: Before(ns, i, k, a, b) &&
      (e == Primary(ns, gof, a, b) || (Lifts(ns, gof, a, b) && e == Lifted(ns, gof, a, b)))
  }

  /** Groups are not nodes, whatever the way they are reached. */
  ghost predicate Separate(ns: seq<NodeDef>, gof: map<Name, Name>) {
    && Acyclic(gof)
    && (forall x :: x in gof ==> !IsNode(ns, gof[x]))
    && (forall i, j :: 0 <= i < j < |ns| ==> ns[i].id != ns[j].id)
    && (forall i :: 0 <= i < |ns| ==> ValidatedNode(ns, ns[i]))
  }

  lemma {:induction false} TopIs(gof: map<Name, Name>, g: Name)
    requires Acyclic(gof) && g in gof.Values
    ensures Top(gof, g) !in gof && Top(gof, g) in gof.Values
    decreases Rank(gof, g)
  {
    if g in gof {
      RankDrops(gof, g);
      TopIs(gof, gof[g]);
      assert Path(gof, g) == [g] + Path(gof, gof[g]);
    }
  }

  lemma PrimaryInjective(ns: seq<NodeDef>, gof: map<Name, Name>, a: int, b: int, c: int, d: int)
    requires Separate(ns, gof) && Rel(ns, a, b) && Rel(ns, c, d)
    requires Primary(ns, gof, a, b) == Primary(ns, gof, c, d)
    ensures a == c && b == d
  {
    assert ValidatedNode(ns, ns[a]);
    assert ValidatedTarget(ns, ns[a].relationships[b]) && ValidatedTarget(ns, ns[a].relationships[d]);
  }

  lemma LiftedApart(ns: seq<NodeDef>, gof: map<Name, Name>, a: int, b: int, c: int, d: int)
    requires Separate(ns, gof) && Lifts(ns, gof, a, b)
    ensures Rel(ns, c, d) ==> Lifted(ns, gof, a, b) != Primary(ns, gof, c, d)
    ensures !GroupPair(gof, Lifted(ns, gof, a, b))
  {
    TopIs(gof, gof[ns[a].id]);
    if Rel(ns, c, d) {
      assert IsNode(ns, ns[c].id);
    }
  }

  /** A relationship that is not redirected never falls on a pair of member and group. */
  lemma PlainApart(ns: seq<NodeDef>, gof: map<Name, Name>, a: int, b: int)
    requires Separate(ns, gof) && Rel(ns, a, b)
    ensures GroupPair(gof, Primary(ns, gof, a, b)) <==> Lifts(ns, gof, a, b)
  {
    assert ValidatedNode(ns, ns[a]);
    assert ValidatedTarget(ns, ns[a].relationships[b]);
  }

  /** Adding the edges of one relationship. */
  function AddRelationship(gof: map<Name, Name>, id: Name, es: map<(Name, Name), PlanEdge>, r: Relationship, k: int)
    : map<(Name, Name), PlanEdge>
    requires Acyclic(gof)
  {
    var redirected := Redirected(gof, id, r);
    var with := es[(id, redirected.target) := PlanEdge(redirected, k)];
    if IsContained(r) && id in gof
    then with[(Top(gof, gof[id]), r.target) := GroupEdge(r.target)]
    else with
  }

  lemma MemberEdgeStep(ns: seq<NodeDef>, gof: map<Name, Name>, es: map<(Name, Name), PlanEdge>, i: int, k: int,
                       e: (Name, Name))
    requires Separate(ns, gof) && Rel(ns, i, k) && GroupPair(gof, e) && e in es && MemberEdge(ns, gof, es[e], i, k, e)
    ensures var es' := AddRelationship(gof, ns[i].id, es, ns[i].relationships[k], k);
            e in es' && MemberEdge(ns, gof, es'[e], i, k + 1, e)
  {
    PlainApart(ns, gof, i, k);
    if Lifts(ns, gof, i, k) {
      LiftedApart(ns, gof, i, k, i, k);
    }
    assert Before(ns, i, k + 1, i, k);
    if es[e] != GroupEdge(e.1) {
      var a, b :| Before(ns, i, k, a, b) && Lifts(ns, gof, a, b) && e == Primary(ns, gof, a, b)
         && es[e] == PlanEdge(Redirected(gof, ns[a].id, ns[a].relationships[b]), b);
      assert Before(ns, i, k + 1, a, b);
    }
  }

  /** The edges of the relationship `b` of `a` are as they should be. */
  ghost predicate RelationshipIn(ns: seq<NodeDef>, gof: map<Name, Name>, es: map<(Name, Name), PlanEdge>, a: int,
                                 b: int)
    requires Acyclic(gof) && Rel(ns, a, b)
  {
    && Primary(ns, gof, a, b) in es
    && es[Primary(ns, gof, a, b)] == PlanEdge(Redirected(gof, ns[a].id, ns[a].relationships[b]), b)
    && (Lifts(ns, gof, a, b) ==>
          Lifted(ns, gof, a, b) in es && es[Lifted(ns, gof, a, b)] == GroupEdge(ns[a].relationships[b].target))
  }

  /** Adding one relationship leaves the edges of the others alone. */
  lemma RelationshipStays(ns: seq<NodeDef>, gof: map<Name, Name>, es: map<(Name, Name), PlanEdge>, i: int, k: int,
                          a: int, b: int)
    requires Separate(ns, gof) && Rel(ns, i, k) && Rel(ns, a, b)
    requires (a != i || b != k) ==> RelationshipIn(ns, gof, es, a, b)
    ensures RelationshipIn(ns, gof, AddRelationship(gof, ns[i].id, es, ns[i].relationships[k], k), a, b)
  {
    if Primary(ns, gof, a, b) == Primary(ns, gof, i, k) {
      PrimaryInjective(ns, gof, a, b, i, k);
    }
    if Lifts(ns, gof, i, k) {
      LiftedApart(ns, gof, i, k, a, b);
    }
    if Lifts(ns, gof, a, b) {
      LiftedApart(ns, gof, a, b, i, k);
    }
  }

  lemma EdgesFrom(ns: seq<NodeDef>, gof: map<Name, Name>, es: map<(Name, Name), PlanEdge>, i: int, k: int,
                  e: (Name, Name))
    requires Separate(ns, gof) && Rel(ns, i, k)
    requires e in AddRelationship(gof, ns[i].id, es, ns[i].relationships[k], k)
    requires e in es ==> FromRelationship(ns, gof, i, k, e)
    ensures FromRelationship(ns, gof, i, k + 1, e)
  {
    if e in es {
      var a, b :| Before(ns, i, k, a, b) &&
        (e == Primary(ns, gof, a, b) || (Lifts(ns, gof, a, b) && e == Lifted(ns, gof, a, b)));
      assert Before(ns, i, k + 1, a, b);
    } else {
      assert Before(ns, i, k + 1, i, k);
    }
  }

  lemma BuiltStep(ns: seq<NodeDef>, gof: map<Name, Name>, es: map<(Name, Name), PlanEdge>, i: int, k: int)
    requires Separate(ns, gof) && Rel(ns, i, k) && Built(ns, gof, es, i, k)
    ensures Built(ns, gof, AddRelationship(gof, ns[i].id, es, ns[i].relationships[k], k), i, k + 1)
  {
    var es' := AddRelationship(gof, ns[i].id, es, ns[i].relationships[k], k);
    forall e | GroupPair(gof, e)
      ensures e in es' && MemberEdge(ns, gof, es'[e], i, k + 1, e)
    {
      MemberEdgeStep(ns, gof, es, i, k, e);
    }
    forall a, b | Before(ns, i, k + 1, a, b)
      ensures RelationshipIn(ns, gof, es', a, b)
    {
      assert a != i || b != k ==> Before(ns, i, k, a, b);
      RelationshipStays(ns, gof, es, i, k, a, b);
    }
    forall e | e in es' && !GroupPair(gof, e)
      ensures FromRelationship(ns, gof, i, k + 1, e)
    {
      EdgesFrom(ns, gof, es, i, k, e);
    }
  }

  /** What an edge carries is determined by the nodes and groups. */
  lemma EdgeDetermined(ns: seq<NodeDef>, gof: map<Name, Name>, es: map<(Name, Name), PlanEdge>,
                       other: map<(Name, Name), PlanEdge>, e: (Name, Name))
    requires Acyclic(gof) && Built(ns, gof, es, |ns|, 0) && Built(ns, gof, other, |ns|, 0) && e in es
    ensures e in other && other[e] == es[e]
  {
    if a, b :| Rel(ns, a, b) && e == Primary(ns, gof, a, b) {
      assert Before(ns, |ns|, 0, a, b);
      assert RelationshipIn(ns, gof, es, a, b) && RelationshipIn(ns, gof, other, a, b);
    } else if a, b :| Lifts(ns, gof, a, b) && e == Lifted(ns, gof, a, b) {
      assert Before(ns, |ns|, 0, a, b);
      assert RelationshipIn(ns, gof, es, a, b) && RelationshipIn(ns, gof, other, a, b);
    } else {
      assert !FromRelationship(ns, gof, |ns|, 0, e);
      assert MemberEdge(ns, gof, es[e], |ns|, 0, e) && MemberEdge(ns, gof, other[e], |ns|, 0, e);
    }
  }

  /** So there is only one graph of a plan. */
  lemma EdgesUnique(ns: seq<NodeDef>, gof: map<Name, Name>, es: map<(Name, Name), PlanEdge>,
                    other: map<(Name, Name), PlanEdge>)
    requires Acyclic(gof) && Built(ns, gof, es, |ns|, 0) && Built(ns, gof, other, |ns|, 0)
    ensures es == other
  {
    forall e ensures e in es <==> e in other
      ensures e in es ==> es[e] == other[e]
    {
      if e in es {
        EdgeDetermined(ns, gof, es, other, e);
      }
      if e in other {
        EdgeDetermined(ns, gof, other, es, e);
      }
    }
  }

  /** A contained_in relationship of a node that is in no group. */
  ghost predicate Uncovered(ns: seq<NodeDef>, gof: map<Name, Name>, a: int, b: int) {
    Rel(ns, a, b) && IsContained(ns[a].relationships[b]) && ns[a].id !in gof
  }

  /**
    `t` is the container of `s`: the group of a member, the declared container of a node outside any
    group, or the container that the members of an outermost group declare.
  */
  ghost predicate PlanContainer(ns: seq<NodeDef>, gof: map<Name, Name>, s: Name, t: Name)
    requires Acyclic(gof)
  {
    || GroupPair(gof, (s, t))
    || (exists a, b :: Uncovered(ns, gof, a, b) && (s, t) == Primary(ns, gof, a, b))
    || (exists a, b :: Lifts(ns, gof, a, b) && (s, t) == Lifted(ns, gof, a, b))
  }

  /** All contained members of an outermost group declare the same container. */
  ghost predicate SharedContainer(ns: seq<NodeDef>, gof: map<Name, Name>)
    requires Acyclic(gof)
  {
    forall a, b, c, d :: Lifts(ns, gof, a, b) && Lifts(ns, gof, c, d) ==>
      Lifted(ns, gof, a, b).0 == Lifted(ns, gof, c, d).0 ==> Lifted(ns, gof, a, b) == Lifted(ns, gof, c, d)
  }

  lemma PlainContainment(ns: seq<NodeDef>, a: int, b: int)
    requires Rel(ns, a, b) && ValidatedNode(ns, ns[a])
    ensures IsContainment(ns[a].relationships[b]) <==> IsContained(ns[a].relationships[b])
  {
    var r := ns[a].relationships[b];
    assert ValidatedTarget(ns, r);
    if IsContained(r) {
      var k :| 0 <= k < |r.hierarchy| && r.hierarchy[k] == CONTAINED_IN;
    }
  }

  lemma ContainmentPlanned(ns: seq<NodeDef>, gof: map<Name, Name>, g: PlanGraph, s: Name, t: Name)
    requires Separate(ns, gof) && Built(ns, gof, g.edges, |ns|, 0) && ContainmentEdge(g, s, t)
    ensures PlanContainer(ns, gof, s, t)
  {
    var e := (s, t);
    if !GroupPair(gof, e) {
      var a, b :| Before(ns, |ns|, 0, a, b) &&
        (e == Primary(ns, gof, a, b) || (Lifts(ns, gof, a, b) && e == Lifted(ns, gof, a, b)));
      if e == Primary(ns, gof, a, b) {
        PlainApart(ns, gof, a, b);
        PlainContainment(ns, a, b);
        assert Uncovered(ns, gof, a, b);
      }
    }
  }

  lemma PlannedContainment(ns: seq<NodeDef>, gof: map<Name, Name>, g: PlanGraph, s: Name, t: Name)
    requires Separate(ns, gof) && Built(ns, gof, g.edges, |ns|, 0) && PlanContainer(ns, gof, s, t)
    ensures ContainmentEdge(g, s, t)
  {
    var e := (s, t);
    if GroupPair(gof, e) {
      MemberEdgeIsPure(ns, gof, g.edges[e], |ns|, 0, e);
    } else if a, b :| Uncovered(ns, gof, a, b) && e == Primary(ns, gof, a, b) {
      assert Before(ns, |ns|, 0, a, b);
      PlainContainment(ns, a, b);
    } else {
      var a, b :| Lifts(ns, gof, a, b) && e == Lifted(ns, gof, a, b);
      assert Before(ns, |ns|, 0, a, b);
      assert GroupRelationship(t).hierarchy[0] == GROUP_CONTAINED_IN;
    }
  }

  /** The containment edges of the finished graph are exactly the containers of the plan. */
  lemma ContainmentIsPlan(ns: seq<NodeDef>, gof: map<Name, Name>, g: PlanGraph, s: Name, t: Name)
    requires Separate(ns, gof) && Built(ns, gof, g.edges, |ns|, 0)
    ensures ContainmentEdge(g, s, t) <==> PlanContainer(ns, gof, s, t)
  {
    if ContainmentEdge(g, s, t) {
      ContainmentPlanned(ns, gof, g, s, t);
    }
    if PlanContainer(ns, gof, s, t) {
      PlannedContainment(ns, gof, g, s, t);
    }
  }

  /**
    The ancestor walks' assertion that nothing has two containers holds exactly when the contained
    members of each outermost group share theirs.
  */
  lemma SingleContainerExactly(ns: seq<NodeDef>, gof: map<Name, Name>, g: PlanGraph)
    requires Separate(ns, gof) && Built(ns, gof, g.edges, |ns|, 0)
    ensures SingleContainer(g) <==> SharedContainer(ns, gof)
  {
    if SharedContainer(ns, gof) {
      forall s, t, u | ContainmentEdge(g, s, t) && ContainmentEdge(g, s, u)
        ensures t == u
      {
        ContainmentIsPlan(ns, gof, g, s, t);
        ContainmentIsPlan(ns, gof, g, s, u);
        OneContainer(ns, gof, s, t, u);
      }
    }
    if SingleContainer(g) {
      forall a, b, c, d | Lifts(ns, gof, a, b) && Lifts(ns, gof, c, d) &&
        Lifted(ns, gof, a, b).0 == Lifted(ns, gof, c, d).0
        ensures Lifted(ns, gof, a, b) == Lifted(ns, gof, c, d)
      {
        var e, f := Lifted(ns, gof, a, b), Lifted(ns, gof, c, d);
        assert PlanContainer(ns, gof, e.0, e.1) && PlanContainer(ns, gof, f.0, f.1);
        ContainmentIsPlan(ns, gof, g, e.0, e.1);
        ContainmentIsPlan(ns, gof, g, f.0, f.1);
      }
    }
  }

  lemma AllRedirected(gof: map<Name, Name>, ns: seq<NodeDef>, nodes: seq<NodeDef>)
    requires |nodes| == |ns| && forall a :: 0 <= a < |ns| ==> nodes[a] == RedirectedNode(gof, ns[a])
    ensures nodes == RedirectedNodes(gof, ns)
  {
  }

  lemma OneUncovered(ns: seq<NodeDef>, gof: map<Name, Name>, a: int, b: int, u: Name)
    requires Separate(ns, gof) && Uncovered(ns, gof, a, b) && PlanContainer(ns, gof, ns[a].id, u)
    ensures Primary(ns, gof, a, b).1 == u
  {
    var s := ns[a].id;
    assert IsNode(ns, s);
    if c, d :| Lifts(ns, gof, c, d) && (s, u) == Lifted(ns, gof, c, d) {
      LiftedNotMember(ns, gof, c, d);
    } else {
      var c, d :| Uncovered(ns, gof, c, d) && (s, u) == Primary(ns, gof, c, d);
      assert ns[a].id == ns[c].id;
      assert a == c && ValidatedNode(ns, ns[a]);
    }
  }

  lemma OneContainer(ns: seq<NodeDef>, gof: map<Name, Name>, s: Name, t: Name, u: Name)
    requires Separate(ns, gof) && SharedContainer(ns, gof)
    requires PlanContainer(ns, gof, s, t) && PlanContainer(ns, gof, s, u)
    ensures t == u
  {
    if a, b :| Lifts(ns, gof, a, b) && (s, t) == Lifted(ns, gof, a, b) {
      LiftedNotMember(ns, gof, a, b);
      assert !IsNode(ns, s);
      var c, d :| (Rel(ns, c, d) && (s, u) == Primary(ns, gof, c, d)) ||
        (Lifts(ns, gof, c, d) && (s, u) == Lifted(ns, gof, c, d));
      assert Rel(ns, c, d) ==> IsNode(ns, ns[c].id);
    } else if a, b :| Uncovered(ns, gof, a, b) && (s, t) == Primary(ns, gof, a, b) {
      OneUncovered(ns, gof, a, b, u);
    } else {
      assert s in gof && gof[s] == t;
      if c, d :| Lifts(ns, gof, c, d) && (s, u) == Lifted(ns, gof, c, d) {
        LiftedNotMember(ns, gof, c, d);
      }
    }
  }

  lemma LiftedNotMember(ns: seq<NodeDef>, gof: map<Name, Name>, a: int, b: int)
    requires Separate(ns, gof) && Lifts(ns, gof, a, b)
    ensures Lifted(ns, gof, a, b).0 !in gof && !IsNode(ns, Lifted(ns, gof, a, b).0)
  {
    TopIs(gof, gof[ns[a].id]);
  }

  /** Containment never loops once the groups are put between members and containers. */
  ghost predicate NoLoops(ns: seq<NodeDef>, gof: map<Name, Name>)
    requires Acyclic(gof)
  {
    exists rank: map<Name, nat> :: RanksPlan(ns, gof, rank)
  }

  ghost predicate RanksPlan(ns: seq<NodeDef>, gof: map<Name, Name>, rank: map<Name, nat>)
    requires Acyclic(gof)
  {
    forall s, t :: PlanContainer(ns, gof, s, t) ==> s in rank && t in rank && rank[t] < rank[s]
  }

  ghost predicate MapsPlan(ns: seq<NodeDef>, gof: map<Name, Name>, parent: map<Name, Name>)
    requires Acyclic(gof)
  {
    forall s, t :: s in parent && parent[s] == t <==> PlanContainer(ns, gof, s, t)
  }

  lemma GraphMapsPlan(ns: seq<NodeDef>, gof: map<Name, Name>, g: PlanGraph)
    requires Separate(ns, gof) && Built(ns, gof, g.edges, |ns|, 0) && SingleContainer(g)
    ensures MapsPlan(ns, gof, ContainedGraph(g))
  {
    var parent := ContainedGraph(g);
    forall s, t
      ensures s in parent && parent[s] == t <==> PlanContainer(ns, gof, s, t)
    {
      ContainmentIsPlan(ns, gof, g, s, t);
      assert s in parent && parent[s] == t <==> ContainmentEdge(g, s, t);
    }
  }

  /** The containment graph is a forest exactly when the plan's containment does not loop. */
  lemma PlanIsForest(ns: seq<NodeDef>, gof: map<Name, Name>, parent: map<Name, Name>)
    requires Acyclic(gof) && MapsPlan(ns, gof, parent)
    ensures NoLoops(ns, gof) <==> Acyclic(parent)
  {
    if NoLoops(ns, gof) {
      var rank: map<Name, nat> :| RanksPlan(ns, gof, rank);
      assert forall s :: s in parent ==> PlanContainer(ns, gof, s, parent[s]);
      assert Ranked(parent, rank);
    }
    if Acyclic(parent) {
      var rank: map<Name, nat> :| Ranked(parent, rank);
      assert RanksPlan(ns, gof, rank);
    }
  }

  /** What grouping and validation give the construction of the graph. */
  lemma {:induction false} GroupOfIs(groups: seq<GroupDef>, m: Name)
    ensures m in GroupOf(groups) ==>
      exists i :: 0 <= i < |groups| && m in groups[i].members && GroupOf(groups)[m] == groups[i].name
    ensures m !in GroupOf(groups) ==> forall i :: 0 <= i < |groups| ==> m !in groups[i].members
  {
    if groups != [] {
      var init := groups[..|groups| - 1];
      var last := groups[|groups| - 1];
      GroupOfIs(init, m);
      if m !in last.members && m in GroupOf(init) {
        var i :| 0 <= i < |init| && m in init[i].members && GroupOf(init)[m] == init[i].name;
        assert groups[i] == init[i];
      } else if m !in last.members {
        forall i | 0 <= i < |groups|
          ensures m !in groups[i].members
        {
          assert i < |init| ==> groups[i] == init[i];
        }
      }
    }
  }

  lemma MemberOf(ns: seq<NodeDef>, groups: seq<GroupDef>, x: Name)
    requires Validated(ns, groups) && x in GroupOf(groups)
    ensures var g := GroupOf(groups)[x];
            IsGroup(groups, g) && !IsNode(ns, g) && (IsNode(ns, x) || IsGroup(groups, x))
  {
    GroupOfIs(groups, x);
  }

  lemma MemberIn(ns: seq<NodeDef>, groups: seq<GroupDef>, i: int, m: Name)
    requires Validated(ns, groups) && 0 <= i < |groups| && m in groups[i].members
    ensures m in GroupOf(groups) && GroupOf(groups)[m] == groups[i].name
  {
    GroupOfIs(groups, m);
  }

  lemma ValidatedSeparate(ns: seq<NodeDef>, groups: seq<GroupDef>)
    requires Validated(ns, groups)
    ensures Separate(ns, GroupOf(groups))
  {
    var gof := GroupOf(groups);
    forall x | x in gof
      ensures !IsNode(ns, gof[x])
    {
      MemberOf(ns, groups, x);
    }
  }

  /** The pair of a member and its group, for one of the groups. */
  ghost predicate MemberPair(groups: seq<GroupDef>, e: (Name, Name)) {
    exists i :: 0 <= i < |groups| && e.0 in groups[i].members && e.1 == groups[i].name
  }

  lemma MemberPairIs(ns: seq<NodeDef>, groups: seq<GroupDef>, e: (Name, Name))
    requires Validated(ns, groups)
    ensures MemberPair(groups, e) <==> GroupPair(GroupOf(groups), e)
  {
    if MemberPair(groups, e) {
      var i :| 0 <= i < |groups| && e.0 in groups[i].members && e.1 == groups[i].name;
      MemberIn(ns, groups, i, e.0);
    }
    if GroupPair(GroupOf(groups), e) {
      GroupOfIs(groups, e.0);
    }
  }

  /** With the edges of all members, and no relationships yet, the first stage is reached. */
  lemma GroupsBuilt(ns: seq<NodeDef>, groups: seq<GroupDef>, es: map<(Name, Name), PlanEdge>)
    requires Validated(ns, groups)
    requires forall e :: e in es <==> MemberPair(groups, e)
    requires forall e :: e in es ==> es[e] == GroupEdge(e.1)
    ensures Separate(ns, GroupOf(groups)) && Built(ns, GroupOf(groups), es, 0, 0)
  {
    ValidatedSeparate(ns, groups);
    forall e ensures e in es <==> GroupPair(GroupOf(groups), e) {
      MemberPairIs(ns, groups, e);
    }
  }

  /** The plan's nodes, which the construction rewrites in place, and the graph it builds. */
  class Builder {
    var nodes: seq<NodeDef>
    const groups: seq<GroupDef>
    var graph: PlanGraph

    constructor (nodes: seq<NodeDef>, groups: seq<GroupDef>)
      ensures this.nodes == nodes && this.groups == groups && graph == PlanGraph(map[], map[])
    {
      this.nodes, this.groups := nodes, groups;
      graph := PlanGraph(map[], map[]);
    }

    /** The nodes of the graph: plan nodes and groups. */
    method AddNodes()
      requires graph == PlanGraph(map[], map[]) && OwnNames(nodes, groups)
      modifies this`graph
      ensures graph.edges == map[] && Shows(nodes, groups, graph.nodes)
    {
      for i := 0 to |nodes|
        invariant graph.edges == map[] && Shows(nodes[..i], [], graph.nodes)
      {
        NodeStep(nodes, i, graph.nodes);
        graph := PlanGraph(graph.nodes[nodes[i].id := NodeOf(nodes[i])], graph.edges);
      }
      assert nodes[..|nodes|] == nodes;
      assert groups[..0] == [];
      for j := 0 to |groups|
        invariant graph.edges == map[] && Shows(nodes, groups[..j], graph.nodes)
      {
        GroupStep(nodes, groups, j, graph.nodes);
        graph := PlanGraph(graph.nodes[groups[j].name := GroupNodeOf(groups[j])], graph.edges);
      }
      assert groups[..|groups|] == groups;
    }

    /** An edge from each member to its group. */
    method AddGroupEdges()
      requires graph.edges == map[]
      modifies this`graph
      ensures graph.nodes == old(graph.nodes)
      ensures forall e :: e in graph.edges <==> MemberPair(groups, e)
      ensures forall e :: e in graph.edges ==> graph.edges[e] == GroupEdge(e.1)
    {
      for i := 0 to |groups|
        invariant graph.nodes == old(graph.nodes)
        invariant forall e :: e in graph.edges <==>
          exists a :: 0 <= a < i && e.0 in groups[a].members && e.1 == groups[a].name
        invariant forall e :: e in graph.edges ==> graph.edges[e] == GroupEdge(e.1)
      {
        var g := groups[i];
        ghost var before := graph.edges;
        for k := 0 to |g.members|
          invariant graph.nodes == old(graph.nodes)
          invariant forall e :: e in graph.edges <==> e in before || (e.0 in g.members[..k] && e.1 == g.name)
          invariant forall e :: e in graph.edges ==> graph.edges[e] == GroupEdge(e.1)
        {
          assert g.members[..k + 1] == g.members[..k] + [g.members[k]];
          graph := PlanGraph(graph.nodes, graph.edges[(g.members[k], g.name) := GroupEdge(g.name)]);
        }
        assert g.members[..|g.members|] == g.members;
      }
    }

    /** The edges of one node's relationships. */
    method AddNodeRelationships(gof: map<Name, Name>, ghost ns: seq<NodeDef>, i: nat)
      requires Separate(ns, gof) && |nodes| == |ns| && i < |ns| && nodes[i] == ns[i]
      requires Built(ns, gof, graph.edges, i, 0) && OwnNames(nodes, groups) && Shows(nodes, groups, graph.nodes)
      modifies this`nodes, this`graph
      ensures OwnNames(nodes, groups) && Shows(nodes, groups, graph.nodes)
      ensures nodes == old(nodes)[i := RedirectedNode(gof, ns[i])]
      ensures Built(ns, gof, graph.edges, i + 1, 0)
    {
      var node := nodes[i];
      ghost var before := nodes;
      HalfStart(gof, node);
      assert before[i := node] == before;
      for k := 0 to |node.relationships|
        invariant graph.nodes == old(graph.nodes)
        invariant Built(ns, gof, graph.edges, i, k)
        invariant nodes == before[i := HalfRedirected(gof, node, k)]
      {
        BuiltStep(ns, gof, graph.edges, i, k);
        graph := PlanGraph(graph.nodes, AddRelationship(gof, node.id, graph.edges, node.relationships[k], k));
        HalfStep(gof, before, i, k);
        nodes := WithRelationship(nodes, i, k, Redirected(gof, node.id, node.relationships[k]));
      }
      BuiltNext(ns, gof, graph.edges, i);
      // the graph holds the very node that was rewritten
      ShowsUpdate(before, groups, graph.nodes, i, nodes[i]);
      graph := PlanGraph(graph.nodes[node.id := NodeOf(nodes[i])], graph.edges);
    }

    /** An edge for each relationship; contained_in relationships of members are redirected. */
    method AddRelationshipEdges(gof: map<Name, Name>)
      requires Separate(nodes, gof) && Built(nodes, gof, graph.edges, 0, 0)
      requires OwnNames(nodes, groups) && Shows(nodes, groups, graph.nodes)
      modifies this`nodes, this`graph
      ensures OwnNames(nodes, groups) && Shows(nodes, groups, graph.nodes)
      ensures Built(old(nodes), gof, graph.edges, |nodes|, 0)
      ensures nodes == RedirectedNodes(gof, old(nodes))
    {
      ghost var ns := nodes;
      for i := 0 to |nodes|
        invariant OwnNames(nodes, groups) && Shows(nodes, groups, graph.nodes) && |nodes| == |ns|
        invariant Built(ns, gof, graph.edges, i, 0)
        invariant forall a :: 0 <= a < |ns| ==> nodes[a] == if a < i then RedirectedNode(gof, ns[a]) else ns[a]
      {
        AddNodeRelationships(gof, ns, i);
      }
      AllRedirected(gof, ns, nodes);
    }

    /** Builds the plan graph, redirecting contained_in relationships of members in the nodes themselves. */
    method BuildNodeGraph()
      requires graph == PlanGraph(map[], map[]) && Validated(nodes, groups)
      modifies this`nodes, this`graph
      ensures nodes == RedirectedNodes(GroupOf(groups), old(nodes))
      ensures OwnNames(nodes, groups) && Shows(nodes, groups, graph.nodes)
      ensures Built(old(nodes), GroupOf(groups), graph.edges, |nodes|, 0)
    {
      AddNodes();
      AddGroupEdges();
      var gof := GroupOf(groups);
      GroupsBuilt(nodes, groups, graph.edges);
      AddRelationshipEdges(gof);
    }

    /** Undoes the redirection, in the graph as well, which holds the same nodes. */
    method RestorePlanNodeGraph()
      requires OwnNames(nodes, groups) && Shows(nodes, groups, graph.nodes)
      modifies this`nodes, this`graph
      ensures |nodes| == old(|nodes|)
      ensures forall i :: 0 <= i < |nodes| ==> nodes[i] == RestoredNode(old(nodes)[i])
      ensures Shows(nodes, groups, graph.nodes) && graph.edges == old(graph.edges)
    {
      ghost var ns := nodes;
      for i := 0 to |nodes|
        invariant |nodes| == |ns| && graph.edges == old(graph.edges)
        invariant OwnNames(nodes, groups) && Shows(nodes, groups, graph.nodes)
        invariant forall a :: 0 <= a < |ns| ==> nodes[a] == if a < i then RestoredNode(ns[a]) else ns[a]
      {
        var rels := RestoreRelationships(nodes[i].relationships);
        assert nodes[i].(relationships := rels) == RestoredNode(ns[i]);
        ShowsUpdate(nodes, groups, graph.nodes, i, RestoredNode(ns[i]));
        nodes := nodes[i := nodes[i].(relationships := rels)];
        graph := PlanGraph(graph.nodes[nodes[i].id := NodeOf(nodes[i])], graph.edges);
      }
    }

    /** The relationships of one node, each restored. */
    method RestoreRelationships(all: seq<Relationship>) returns (rels: seq<Relationship>)
      ensures |rels| == |all| && forall m :: 0 <= m < |all| ==> rels[m] == Restored(all[m])
    {
      rels := all;
      for k := 0 to |all|
        invariant |rels| == |all|
        invariant forall m :: 0 <= m < |all| ==> rels[m] == if m < k then Restored(all[m]) else all[m]
      {
        rels := rels[k := Restored(rels[k])];
      }
    }
  }

  /** A node whose first `k` relationships have been redirected. */
  ghost function HalfRedirected(gof: map<Name, Name>, n: NodeDef, k: nat): NodeDef {
    n.(relationships := seq(|n.relationships|, m requires 0 <= m < |n.relationships| =>
      if m < k then Redirected(gof, n.id, n.relationships[m]) else n.relationships[m]))
  }

  /** The in-place update of one relationship of one node. */
  function WithRelationship(ns: seq<NodeDef>, i: nat, k: nat, r: Relationship): seq<NodeDef>
    requires i < |ns| && k < |ns[i].relationships|
  {
    ns[i := ns[i].(relationships := ns[i].relationships[k := r])]
  }

  lemma HalfStep(gof: map<Name, Name>, ns: seq<NodeDef>, i: nat, k: nat)
    requires i < |ns| && k < |ns[i].relationships|
    ensures WithRelationship(ns[i := HalfRedirected(gof, ns[i], k)], i, k,
      Redirected(gof, ns[i].id, ns[i].relationships[k])) ==
            ns[i := HalfRedirected(gof, ns[i], k + 1)]
  {
    var n := ns[i];
    assert HalfRedirected(gof, n, k).relationships[k := Redirected(gof, n.id, n.relationships[k])] ==
           HalfRedirected(gof, n, k + 1).relationships;
  }

  lemma HalfStart(gof: map<Name, Name>, n: NodeDef)
    ensures HalfRedirected(gof, n, 0) == n
    ensures HalfRedirected(gof, n, |n.relationships|) == RedirectedNode(gof, n)
  {
    assert HalfRedirected(gof, n, 0).relationships == n.relationships;
    assert HalfRedirected(gof, n, |n.relationships|).relationships == RedirectedNode(gof, n).relationships;
  }

  /**
    Restoring undoes the redirection of a relationship exactly when it named its target and nothing was
    replaced yet.
  */
  lemma RestoreUndoes(gof: map<Name, Name>, id: Name, r: Relationship)
    ensures Restored(Redirected(gof, id, r)) == r <==>
              r.replaced.None? && !(IsContained(r) && id in gof && r.target == "" != gof[id])
  {
  }

  /** So restoring a redirected plan gives back the plan, with nothing marked as replaced. */
  lemma RestoreUndoesAll(gof: map<Name, Name>, ns: seq<NodeDef>, a: nat)
    requires a < |ns|
    requires forall k :: 0 <= k < |ns[a].relationships| ==>
      ns[a].relationships[k].replaced.None? && ns[a].relationships[k].target != ""
    ensures RestoredNode(RedirectedNodes(gof, ns)[a]) == ns[a]
  {
    forall k | 0 <= k < |ns[a].relationships|
      ensures RestoredNode(RedirectedNode(gof, ns[a])).relationships[k] == ns[a].relationships[k]
    {
      RestoreUndoes(gof, ns[a].id, ns[a].relationships[k]);
    }
    assert RestoredNode(RedirectedNode(gof, ns[a])).relationships == ns[a].relationships;
  }

  /** The redirection changes nothing exactly if no member of a group is contained in a node. */
  lemma RedirectedUnchangedExactly(gof: map<Name, Name>, ns: seq<NodeDef>)
    requires forall a, k :: Rel(ns, a, k) ==> ns[a].relationships[k].replaced.None?
    ensures RedirectedNodes(gof, ns) == ns <==> forall a, k :: !Lifts(ns, gof, a, k)
  {
    var redirected := RedirectedNodes(gof, ns);
    forall a, k | Lifts(ns, gof, a, k) ensures redirected[a].relationships[k] != ns[a].relationships[k] {
    }
    if redirected != ns {
      var a :| 0 <= a < |ns| && redirected[a] != ns[a];
      assert redirected[a].relationships != ns[a].relationships;
      var k :| 0 <= k < |ns[a].relationships| && redirected[a].relationships[k] != ns[a].relationships[k];
      assert Lifts(ns, gof, a, k);
    }
  }

  /** A validated plan yields a graph that the expansion can work on, if and only if two things hold of it. */
  lemma BuiltIsValid(ns: seq<NodeDef>, groups: seq<GroupDef>, g: PlanGraph)
    requires Validated(ns, groups) && Built(ns, GroupOf(groups), g.edges, |ns|, 0)
    requires forall x :: x in g.nodes <==> IsNode(ns, x) || IsGroup(groups, x)
    ensures ValidGraph(g) <==> SharedContainer(ns, GroupOf(groups)) && NoLoops(ns, GroupOf(groups))
  {
    var gof := GroupOf(groups);
    ValidatedSeparate(ns, groups);
    SingleContainerExactly(ns, gof, g);
    forall e | e in g.edges
      ensures e.0 in g.nodes && e.1 in g.nodes
    {
      EndpointsKnown(ns, groups, g.edges, e);
    }
    if SingleContainer(g) {
      GraphMapsPlan(ns, gof, g);
      PlanIsForest(ns, gof, ContainedGraph(g));
    }
  }

  lemma EndpointsKnown(ns: seq<NodeDef>, groups: seq<GroupDef>, es: map<(Name, Name), PlanEdge>, e: (Name, Name))
    requires Validated(ns, groups) && Built(ns, GroupOf(groups), es, |ns|, 0) && e in es
    ensures IsNode(ns, e.0) || IsGroup(groups, e.0)
    ensures IsNode(ns, e.1) || IsGroup(groups, e.1)
  {
    var gof := GroupOf(groups);
    if GroupPair(gof, e) {
      MemberOf(ns, groups, e.0);
    } else {
      var a, b :| Before(ns, |ns|, 0, a, b) &&
        (e == Primary(ns, gof, a, b) || (Lifts(ns, gof, a, b) && e == Lifted(ns, gof, a, b)));
      assert IsNode(ns, ns[a].id) && ValidatedNode(ns, ns[a]);
      assert ValidatedTarget(ns, ns[a].relationships[b]);
      if Lifts(ns, gof, a, b) {
        MemberOf(ns, groups, ns[a].id);
        TopIs(gof, gof[ns[a].id]);
        var x :| x in gof && gof[x] == Top(gof, gof[ns[a].id]);
        MemberOf(ns, groups, x);
      }
    }
  }

  /** The graph never has a relationship that is both a containment and a connection. */
  lemma BuiltUnmixed(ns: seq<NodeDef>, gof: map<Name, Name>, es: map<(Name, Name), PlanEdge>, e: (Name, Name))
    requires Separate(ns, gof) && Built(ns, gof, es, |ns|, 0) && e in es
    ensures !(IsContainment(es[e].relationship) && IsConnection(es[e].relationship))
  {
    if GroupPair(gof, e) {
      MemberEdgeIsPure(ns, gof, es[e], |ns|, 0, e);
    } else {
      var a, b :| Before(ns, |ns|, 0, a, b) &&
        (e == Primary(ns, gof, a, b) || (Lifts(ns, gof, a, b) && e == Lifted(ns, gof, a, b)));
      PlainApart(ns, gof, a, b);
      PlainContainment(ns, a, b);
      if IsContained(ns[a].relationships[b]) {
        ContainedIsPure(ns[a].relationships[b]);
      }
    }
  }

  lemma NodeStep(ns: seq<NodeDef>, i: nat, m: map<Name, PlanNode>)
    requires i < |ns| && OwnNames(ns, []) && Shows(ns[..i], [], m)
    ensures Shows(ns[..i + 1], [], m[ns[i].id := NodeOf(ns[i])])
  {
    var before, after := ns[..i], ns[..i + 1];
    assert after[i] == ns[i] && forall k :: 0 <= k < i ==> after[k] == before[k] == ns[k];
    forall x
      ensures IsNode(after, x) <==> IsNode(before, x) || x == ns[i].id
    {
      if a :| 0 <= a < i && before[a].id == x {
        assert after[a].id == x;
      }
    }
  }

  lemma GroupStep(ns: seq<NodeDef>, gs: seq<GroupDef>, j: nat, m: map<Name, PlanNode>)
    requires j < |gs| && OwnNames(ns, gs) && Shows(ns, gs[..j], m)
    ensures Shows(ns, gs[..j + 1], m[gs[j].name := GroupNodeOf(gs[j])])
  {
    var before, after := gs[..j], gs[..j + 1];
    assert after[j] == gs[j] && forall k :: 0 <= k < j ==> after[k] == before[k] == gs[k];
    forall x
      ensures IsGroup(after, x) <==> IsGroup(before, x) || x == gs[j].name
    {
      if a :| 0 <= a < j && before[a].name == x {
        assert after[a].name == x;
      }
    }
  }

  /** Rewriting a node rewrites it in the graph as well. */
  lemma ShowsUpdate(ns: seq<NodeDef>, groups: seq<GroupDef>, m: map<Name, PlanNode>, i: nat, n: NodeDef)
    requires OwnNames(ns, groups) && Shows(ns, groups, m) && i < |ns| && n.id == ns[i].id
    ensures OwnNames(ns[i := n], groups) && Shows(ns[i := n], groups, m[n.id := NodeOf(n)])
  {
    var after := ns[i := n];
    assert forall k :: 0 <= k < |ns| ==> after[k].id == ns[k].id;
    forall x
      ensures IsNode(after, x) <==> IsNode(ns, x)
    {
      if a :| 0 <= a < |ns| && ns[a].id == x {
        assert after[a].id == x;
      }
    }
  }

  lemma BuiltNext(ns: seq<NodeDef>, gof: map<Name, Name>, es: map<(Name, Name), PlanEdge>, i: int)
    requires Acyclic(gof) && 0 <= i < |ns| && Built(ns, gof, es, i, |ns[i].relationships|)
    ensures Built(ns, gof, es, i + 1, 0)
  {
    var k := |ns[i].relationships|;
    assert forall a, b :: Before(ns, i + 1, 0, a, b) <==> Before(ns, i, k, a, b);
    forall e | GroupPair(gof, e)
      ensures MemberEdge(ns, gof, es[e], i + 1, 0, e)
    {
      assert MemberEdge(ns, gof, es[e], i, k, e);
    }
    forall e | e in es && !GroupPair(gof, e)
      ensures FromRelationship(ns, gof, i + 1, 0, e)
    {
      assert FromRelationship(ns, gof, i, k, e);
    }
  }
}
