/**
  Adding the connected_to and depends_on relationships of a deployment to its instance graph.
*/
module Connections {
  import opened Names
  import opened Forests
  import opened Graphs
  import opened Growth
  import opened Expansion
  import opened PlanGroups
  import opened Deployments
  import opened Partition

  datatype Fault =
    | UnsupportedRelationship
    | IllegalConnectionType
    | UnsupportedAllToOneInGroup
    | IllegalAllToOneState
    | UnevenGroups

  /** One step up the containment edges; the single-successor assertion of the walk holds. */
  method Above(g: InstanceGraph, i: Id, ghost s: Inst) returns (r: Option<Id>)
    requires Represents(g, s)
    ensures r == if i in s.cont then Some(s.cont[i]) else None
  {
    var succ := set e | e in g.edges && e.0 == i :: e.1;
    assert i in s.cont ==> (i, s.cont[i]) in g.edges;
    assert forall q :: (i, q) in g.edges ==> (i, q).1 in succ;
    assert forall q :: q in succ ==> (i, q) in g.edges;
    if succ == {} {
      r := None;
    } else {
      var q :| q in succ;
      assert succ == {q};
      assert |succ| == 1;
      r := Some(q);
    }
  }

  /** The group instances are marked as such, so that the walk does not pass over them. */
  ghost predicate Walkable(g: InstanceGraph, s: Inst, group: Name) {
    && Represents(g, s) && Acyclic(s.cont)
    && (forall i :: i in s.cont ==> s.cont[i] in s.node)
    && (forall q :: q in g.nodes && g.nodes[q].name == group ==> g.nodes[q].group)
  }

  /** The instance of `group` that holds the instance `i`. */
  method ContainingGroupId(g: InstanceGraph, i: Id, group: Name, ghost s: Inst) returns (r: Option<Id>)
    requires Walkable(g, s, group) && i in g.nodes
    ensures r.Some? ==> InGroupInstance(s, i, group, r.value)
    ensures r.None? ==> forall q :: !InGroupInstance(s, i, group, q)
  {
    ghost var c := Chain(s.cont, i);
    ghost var k := 0;
    var x := i;
    var up := Above(g, x, s);
    while up.Some?
      invariant 0 <= k <= |c| && Chain(s.cont, x) == c[k..]
      invariant up == if x in s.cont then Some(s.cont[x]) else None
      invariant forall m :: 0 <= m < k ==> c[m] in s.node && s.node[c[m]] != group
      decreases |c| - k
    {
      RankDrops(s.cont, x);
      assert c[k] == up.value && c[k + 1..] == Chain(s.cont, up.value);
      x := up.value;
      if g.nodes[x].group && g.nodes[x].name == group {
        return Some(x);
      }
      k := k + 1;
      up := Above(g, x, s);
    }
    r := None;
  }

  /** `i` is in exactly one instance of `group`. */
  ghost predicate InOne(s: Inst, i: Id, group: Name)
    requires Acyclic(s.cont)
  {
    && i in s.node
    && exists q :: InGroupInstance(s, i, group, q) && forall r :: InGroupInstance(s, i, group, r) ==> r == q
  }

  /** The instances of `a` grouped by the instance of `group` that holds them. */
  ghost predicate GroupsMap(s: Inst, ids: set<Id>, group: Name, m: map<Id, set<Id>>)
    requires Acyclic(s.cont)
  {
    && (forall q, i :: q in m && i in m[q] <==> i in ids && InGroupInstance(s, i, group, q))
    && (forall q :: q in m ==> m[q] != {})
  }

  lemma GroupsMapStep(s: Inst, ids: set<Id>, group: Name, m: map<Id, set<Id>>, i: Id, id: Id)
    requires Acyclic(s.cont) && GroupsMap(s, ids, group, m)
    requires InOne(s, i, group) && InGroupInstance(s, i, group, id)
    ensures GroupsMap(s, ids + {i}, group, m[id := (if id in m then m[id] else {}) + {i}])
  {
  }

  method ScalingGroupsMap(g: InstanceGraph, ids: set<Id>, group: Name, ghost s: Inst) returns (m: map<Id, set<Id>>)
    requires Walkable(g, s, group) && forall i :: i in ids ==> InOne(s, i, group)
    ensures GroupsMap(s, ids, group, m)
  {
    m := map[];
    var todo := ids;
    while todo != {}
      invariant todo <= ids && GroupsMap(s, ids - todo, group, m)
      decreases todo
    {
      var i :| i in todo;
      assert InOne(s, i, group);
      var id := ContainingGroupId(g, i, group, s);
      assert id.Some?;
      GroupsMapStep(s, ids - todo, group, m, i, id.value);
      m := m[id.value := (if id.value in m then m[id.value] else {}) + {i}];
      assert ids - (todo - {i}) == (ids - todo) + {i};
      todo := todo - {i};
    }
    assert ids - todo == ids;
  }

  /** Every instance of either node is in one instance of `group`. */
  ghost predicate Groupable(s: Inst, a: Name, b: Name, group: Name)
    requires Acyclic(s.cont)
  {
    forall i :: i in InstancesOf(s, a) + InstancesOf(s, b) ==> InOne(s, i, group)
  }

  /** The same instances of `group` hold instances of either node. */
  ghost predicate Even(s: Inst, a: Name, b: Name, group: Name)
    requires Acyclic(s.cont)
  {
    Holders(s, a, group) == Holders(s, b, group)
  }

  /** Sources and targets, paired by group instance; fails if a group instance holds only one of the two kinds. */
  method PartitionInstances(g: InstanceGraph, a: Name, b: Name, group: Name, sources: set<Id>, targets: set<Id>,
                            ghost s: Inst)
    returns (r: Option<map<Id, (set<Id>, set<Id>)>>)
    requires Walkable(g, s, group) && Groupable(s, a, b, group)
    requires sources == InstancesOf(s, a) && targets == InstancesOf(s, b)
    ensures r.Some? <==> Even(s, a, b, group)
    ensures r.Some? ==> forall i: Id, j: Id ::
      InSamePart(r.value, i, j) <==> i in sources && j in targets && Together(s, i, j, group)
  {
    var sourceMap := ScalingGroupsMap(g, sources, group, s);
    var targetMap := ScalingGroupsMap(g, targets, group, s);
    MapKeys(s, a, group, sourceMap);
    MapKeys(s, b, group, targetMap);
    if sourceMap.Keys != targetMap.Keys {
      return None;
    }
    var parts := map q | q in sourceMap :: (sourceMap[q], targetMap[q]);
    forall i: Id, j: Id
      ensures InSamePart(parts, i, j) <==> i in sources && j in targets && Together(s, i, j, group)
    {
      Paired(s, sources, targets, group, sourceMap, targetMap, parts, i, j);
    }
    r := Some(parts);
  }

  ghost predicate InSamePart(parts: map<Id, (set<Id>, set<Id>)>, i: Id, j: Id) {
    exists q :: q in parts && i in parts[q].0 && j in parts[q].1
  }

  lemma Paired(s: Inst, sources: set<Id>, targets: set<Id>, group: Name, m: map<Id, set<Id>>, n: map<Id, set<Id>>,
               parts: map<Id, (set<Id>, set<Id>)>, i: Id, j: Id)
    requires Acyclic(s.cont) && GroupsMap(s, sources, group, m) && GroupsMap(s, targets, group, n) && m.Keys == n.Keys
    requires parts.Keys == m.Keys && forall q :: q in parts ==> parts[q] == (m[q], n[q])
    ensures InSamePart(parts, i, j) <==> i in sources && j in targets && Together(s, i, j, group)
  {
    if InSamePart(parts, i, j) {
      var q :| q in parts && i in parts[q].0 && j in parts[q].1;
      assert i in m[q] && j in n[q];
    }
    if i in sources && j in targets && Together(s, i, j, group) {
      var q :| InGroupInstance(s, i, group, q) && InGroupInstance(s, j, group, q);
      assert q in m && i in m[q] && j in n[q];
      assert parts[q] == (m[q], n[q]);
    }
  }

  lemma MapKeys(s: Inst, a: Name, group: Name, m: map<Id, set<Id>>)
    requires Acyclic(s.cont) && GroupsMap(s, InstancesOf(s, a), group, m)
    ensures m.Keys == Holders(s, a, group)
  {
    forall q | q in m
      ensures q in Holders(s, a, group)
    {
      var i :| i in m[q];
      assert i in InstancesOf(s, a) && InGroupInstance(s, i, group, q);
    }
    forall q | q in Holders(s, a, group)
      ensures q in m
    {
      var i :| i in InstancesOf(s, a) && InGroupInstance(s, i, group, q);
    }
  }

  /** In a fresh deployment the partition's assertion on the two key sets cannot fail. */
  lemma FreshPartitionable(w: World, s: Inst, a: Name, b: Name, group: Name)
    requires Grown(w, s) && a in w.nodes && b in w.nodes
    requires InstancesOf(s, a) != {} && InstancesOf(s, b) != {}
    requires group in Chain(w.parent, a) && group in Chain(w.parent, b)
    ensures Groupable(s, a, b, group) && Even(s, a, b, group)
  {
    HoldersAreAll(w, s, a, group);
    HoldersAreAll(w, s, b, group);
    PlacedGroupable(w, s, a, b, group);
  }

  /** Wherever instances are placed as the plan says, each is in one instance of every group around its node. */
  lemma PlacedGroupable(w: World, s: Inst, a: Name, b: Name, group: Name)
    requires ValidPlan(w) && WellPlaced(w, s) && Acyclic(s.cont)
    requires group in Chain(w.parent, a) && group in Chain(w.parent, b)
    ensures Groupable(s, a, b, group)
  {
    forall i | i in InstancesOf(s, a) + InstancesOf(s, b)
      ensures InOne(s, i, group)
    {
      var q := OneGroupInstance(w, s, i, group);
    }
  }

  /** The graph with an edge for each of `pairs`, carrying a copy of the plan relationship. */
  ghost function WithEdges(g: InstanceGraph, pairs: set<(Id, Id)>, e: PlanEdge): InstanceGraph {
    InstanceGraph(g.nodes, g.edges + map p | p in pairs :: Label(e, p.1))
  }

  function Label(e: PlanEdge, target: Id): InstanceEdge {
    InstanceEdge(Some(RelationshipCopy(e.relationship, target)), e.index)
  }

  ghost function Cross(a: set<Id>, b: set<Id>): (r: set<(Id, Id)>)
    ensures forall i: Id, j: Id :: (i, j) in r <==> i in a && j in b
  {
    set i, j | i in a && j in b :: (i, j)
  }

  lemma WithOneMore(g: InstanceGraph, pairs: set<(Id, Id)>, e: PlanEdge, p: (Id, Id))
    ensures InstanceGraph(g.nodes, WithEdges(g, pairs, e).edges[p := Label(e, p.1)]) == WithEdges(g, pairs + {p}, e)
  {
  }

  /** One edge for each source and target. */
  method AddEdges(g: InstanceGraph, sources: set<Id>, targets: set<Id>, e: PlanEdge) returns (r: InstanceGraph)
    ensures r == WithEdges(g, Cross(sources, targets), e)
  {
    r := g;
    ghost var done: set<(Id, Id)> := {};
    assert r == WithEdges(g, done, e);
    var todo := sources;
    while todo != {}
      invariant todo <= sources && done == Cross(sources - todo, targets) && r == WithEdges(g, done, e)
      decreases todo
    {
      var i :| i in todo;
      r := AddEdgesFrom(g, r, i, targets, e, done);
      CrossFrom(sources, todo, i, targets);
      done := done + Cross({i}, targets);
      todo := todo - {i};
    }
  }

  lemma CrossFrom(sources: set<Id>, todo: set<Id>, i: Id, targets: set<Id>)
    requires i in todo && todo <= sources
    ensures Cross(sources - todo, targets) + Cross({i}, targets) == Cross(sources - (todo - {i}), targets)
  {
  }

  lemma CrossGrows(i: Id, a: set<Id>, j: Id)
    ensures Cross({i}, a) + {(i, j)} == Cross({i}, a + {j})
  {
  }

  method AddEdgesFrom(ghost g: InstanceGraph, g0: InstanceGraph, i: Id, targets: set<Id>, e: PlanEdge,
                      ghost done: set<(Id, Id)>)
    returns (r: InstanceGraph)
    requires g0 == WithEdges(g, done, e)
    ensures r == WithEdges(g, done + Cross({i}, targets), e)
  {
    r := g0;
    var todo := targets;
    ghost var pairs := done;
    assert pairs == done + Cross({i}, targets - todo);
    while todo != {}
      invariant todo <= targets && r == WithEdges(g, pairs, e)
      invariant pairs == done + Cross({i}, targets - todo)
      decreases todo
    {
      var j :| j in todo;
      WithOneMore(g, pairs, e, (i, j));
      CrossGrows(i, targets - todo, j);
      assert targets - todo + {j} == targets - (todo - {j});
      r := InstanceGraph(r.nodes, r.edges[(i, j) := Label(e, j)]);
      pairs, todo := pairs + {(i, j)}, todo - {j};
    }
    assert targets - todo == targets;
  }

  /** The edges of all parts. */
  method AddParts(g: InstanceGraph, parts: map<Id, (set<Id>, set<Id>)>, e: PlanEdge)
    returns (r: InstanceGraph, ghost pairs: set<(Id, Id)>)
    ensures r == WithEdges(g, pairs, e)
    ensures forall i: Id, j: Id :: (i, j) in pairs <==> InSamePart(parts, i, j)
  {
    r, pairs := g, {};
    assert r == WithEdges(g, pairs, e);
    var todo := parts.Keys;
    while todo != {}
      invariant todo <= parts.Keys && r == WithEdges(g, pairs, e)
      invariant forall i: Id, j: Id :: (i, j) in pairs <==>
        exists q :: q in parts.Keys - todo && i in parts[q].0 && j in parts[q].1
      decreases todo
    {
      var q :| q in todo;
      var more := AddEdges(r, parts[q].0, parts[q].1, e);
      WithBoth(g, pairs, Cross(parts[q].0, parts[q].1), e);
      pairs := pairs + Cross(parts[q].0, parts[q].1);
      r, todo := more, todo - {q};
    }
  }

  lemma WithBoth(g: InstanceGraph, a: set<(Id, Id)>, b: set<(Id, Id)>, e: PlanEdge)
    ensures WithEdges(WithEdges(g, a, e), b, e) == WithEdges(g, a + b, e)
  {
  }

  /** Targets of the previous all_to_one edges, by source node, target node and relationship type. */
  type Targets = map<(Name, Name, string), set<Id>>

  ghost predicate IsLeast(s: set<Id>, x: Id) {
    x in s && forall y: Id :: y in s ==> x <= y
  }

  method Least(s: set<Id>) returns (x: Id)
    requires s != {}
    ensures IsLeast(s, x)
  {
    x :| x in s;
    var todo := s - {x};
    while todo != {}
      invariant todo <= s && x in s && forall y: Id :: y in s && y !in todo ==> x <= y
      decreases todo
    {
      var y :| y in todo;
      if y < x {
        x := y;
      }
      todo := todo - {y};
    }
  }

  /** The one target of an all_to_one relationship: the one it had before, else the least of the targets. */
  ghost predicate AllToOneTarget(previous: Targets, s: Inst, a: Name, b: Name, typeName: string, j: Id) {
    if (a, b, typeName) in previous then previous[(a, b, typeName)] == {j} else IsLeast(InstancesOf(s, b), j)
  }

  /** The relationship `e` of the plan nodes `a` and `b` connects their instances `i` and `j`. */
  ghost predicate Connects(plan: PlanGraph, s: Inst, previous: Targets, a: Name, b: Name, e: PlanEdge, i: Id, j: Id)
    requires ValidGraph(plan) && Acyclic(s.cont)
  {
    && i in InstancesOf(s, a) && InstancesOf(s, b) != {}
    && if e.relationship.connection == Some(ALL_TO_ONE)
       then AllToOneTarget(previous, s, a, b, e.relationship.typeName, j)
       else j in InstancesOf(s, b) && forall group :: LowestSharedGroup(plan, a, b, group) ==> Together(s, i, j, group)
  }

  /** The error that connecting `a` and `b` runs into, if any. */
  ghost function FaultOf(plan: PlanGraph, s: Inst, previous: Targets, a: Name, b: Name, e: PlanEdge): Option<Fault>
    requires ValidGraph(plan) && Acyclic(s.cont)
  {
    var r := e.relationship;
    if r.connection != Some(ALL_TO_ALL) && r.connection != Some(ALL_TO_ONE) then Some(IllegalConnectionType)
    else if InstancesOf(s, a) == {} || InstancesOf(s, b) == {} then None
    else if r.connection == Some(ALL_TO_ALL) then
      if exists group :: LowestSharedGroup(plan, a, b, group) && !Even(s, a, b, group) then Some(UnevenGroups) else None
    else if exists group :: SharedGroup(plan, a, b, group) then Some(UnsupportedAllToOneInGroup)
    else if (a, b, r.typeName) in previous && |previous[(a, b, r.typeName)]| != 1 then Some(IllegalAllToOneState)
    else None
  }

  /** The instance graph lets the walks up find the instances of the groups that both nodes share. */
  ghost predicate Connectable(plan: PlanGraph, g: InstanceGraph, s: Inst, a: Name, b: Name)
    requires ValidGraph(plan) && Acyclic(s.cont)
  {
    forall group :: SharedGroup(plan, a, b, group) && InstancesOf(s, a) != {} && InstancesOf(s, b) != {} ==>
      Walkable(g, s, group) && Groupable(s, a, b, group)
  }

  method AllToOne(previous: Targets, a: Name, b: Name, e: PlanEdge, targets: set<Id>, ghost s: Inst)
    returns (r: Option<Id>)
    requires targets == InstancesOf(s, b) != {}
    ensures r.None? <==> (a, b, e.relationship.typeName) in previous && |previous[(a, b, e.relationship.typeName)]| != 1
    ensures r.Some? ==> forall j :: AllToOneTarget(previous, s, a, b, e.relationship.typeName, j) <==> j == r.value
  {
    var key := (a, b, e.relationship.typeName);
    if key in previous {
      if |previous[key]| != 1 {
        return None;
      }
      var j :| j in previous[key];
      assert |previous[key] - {j}| == 0;
      assert previous[key] == {j};
      r := Some(j);
    } else {
      var j := Least(targets);
      r := Some(j);
    }
  }

  /** Connects every source to the one target. */
  method ConnectToOne(g: InstanceGraph, previous: Targets, a: Name, b: Name, e: PlanEdge,
                      sources: set<Id>, targets: set<Id>, ghost s: Inst)
    returns (fault: Option<Fault>, r: InstanceGraph, ghost pairs: set<(Id, Id)>)
    requires targets == InstancesOf(s, b) != {}
    ensures var key := (a, b, e.relationship.typeName);
      fault == if key in previous && |previous[key]| != 1 then Some(IllegalAllToOneState) else None
    ensures fault.None? ==> r == WithEdges(g, pairs, e)
    ensures fault.None? ==> forall i: Id, j: Id ::
      (i, j) in pairs <==> i in sources && AllToOneTarget(previous, s, a, b, e.relationship.typeName, j)
  {
    var target := AllToOne(previous, a, b, e, targets, s);
    if target.None? {
      return Some(IllegalAllToOneState), g, {};
    }
    fault := None;
    r := AddEdges(g, sources, {target.value}, e);
    pairs := Cross(sources, {target.value});
  }

  lemma OnlyLowest(plan: PlanGraph, a: Name, b: Name, group: Name)
    requires ValidGraph(plan) && LowestSharedGroup(plan, a, b, group)
    ensures forall h :: LowestSharedGroup(plan, a, b, h) <==> h == group
  {
    forall h | LowestSharedGroup(plan, a, b, h)
      ensures h == group
    {
      LowestSharedGroupUnique(plan, a, b, h, group);
    }
  }

  /** The pairs of a source and a target in the same instance of the group, or all of them without a group. */
  ghost function PairsTogether(s: Inst, sources: set<Id>, targets: set<Id>, group: Option<Name>): (r: set<(Id, Id)>)
    requires Acyclic(s.cont)
    ensures forall i: Id, j: Id :: (i, j) in r <==>
              i in sources && j in targets && (group.Some? ==> Together(s, i, j, group.value))
  {
    set i, j | i in sources && j in targets && (group.Some? ==> Together(s, i, j, group.value)) :: (i, j)
  }

  /** Connects every source to the targets in the same instance of the lowest shared group. */
  method AllToAll(plan: PlanGraph, g0: InstanceGraph, g: InstanceGraph, a: Name, b: Name, e: PlanEdge,
                  group: Option<Name>, sources: set<Id>, targets: set<Id>, ghost s: Inst)
    returns (r: Option<InstanceGraph>)
    requires Acyclic(s.cont)
    requires group.Some? ==> Walkable(g0, s, group.value) && Groupable(s, a, b, group.value)
    requires sources == InstancesOf(s, a) && targets == InstancesOf(s, b)
    ensures r == if group.Some? && !Even(s, a, b, group.value) then None
                 else Some(WithEdges(g, PairsTogether(s, sources, targets, group), e))
  {
    var all;
    if group.Some? {
      var parts := PartitionInstances(g0, a, b, group.value, sources, targets, s);
      if parts.None? {
        return None;
      }
      ghost var pairs;
      all, pairs := AddParts(g, parts.value, e);
      assert pairs == PairsTogether(s, sources, targets, group);
    } else {
      all := AddEdges(g, sources, targets, e);
      assert Cross(sources, targets) == PairsTogether(s, sources, targets, group);
    }
    r := Some(all);
  }

  /** The lowest group that `a` and `b` share is `group`, or they share none. */
  ghost predicate Lowest(plan: PlanGraph, a: Name, b: Name, group: Option<Name>)
    requires ValidGraph(plan)
  {
    if group.Some? then LowestSharedGroup(plan, a, b, group.value) else forall h :: !SharedGroup(plan, a, b, h)
  }

  lemma LowestDecides(plan: PlanGraph, s: Inst, previous: Targets, a: Name, b: Name, e: PlanEdge, group: Option<Name>)
    requires ValidGraph(plan) && Acyclic(s.cont) && Lowest(plan, a, b, group)
    requires InstancesOf(s, b) != {}
    ensures (exists h :: SharedGroup(plan, a, b, h)) <==> group.Some?
    ensures (exists h :: LowestSharedGroup(plan, a, b, h) && !Even(s, a, b, h)) <==>
      group.Some? && !Even(s, a, b, group.value)
    ensures e.relationship.connection != Some(ALL_TO_ONE) ==> forall i: Id, j: Id ::
      Connects(plan, s, previous, a, b, e, i, j) <==>
        i in InstancesOf(s, a) && j in InstancesOf(s, b) && (group.Some? ==> Together(s, i, j, group.value))
  {
    if group.Some? {
      OnlyLowest(plan, a, b, group.value);
    }
  }

  /** Connects the instances of `a` to those of `b`, as the plan relationship `e` says. */
  method ConnectNodes(plan: PlanGraph, g0: InstanceGraph, g: InstanceGraph, previous: Targets, a: Name, b: Name,
                      e: PlanEdge, sources: set<Id>, targets: set<Id>, ghost s: Inst)
    returns (fault: Option<Fault>, r: InstanceGraph, ghost pairs: set<(Id, Id)>)
    requires ValidGraph(plan) && Acyclic(s.cont) && Connectable(plan, g0, s, a, b)
    requires sources == InstancesOf(s, a) && targets == InstancesOf(s, b)
    ensures fault == FaultOf(plan, s, previous, a, b, e)
    ensures fault.None? ==> r == WithEdges(g, pairs, e)
    ensures fault.None? ==> forall i: Id, j: Id :: (i, j) in pairs <==> Connects(plan, s, previous, a, b, e, i, j)
  {
    fault, r, pairs := None, g, {};
    assert r == WithEdges(g, pairs, e);
    if e.relationship.connection != Some(ALL_TO_ALL) && e.relationship.connection != Some(ALL_TO_ONE) {
      return Some(IllegalConnectionType), r, pairs;
    }
    if sources == {} || targets == {} {
      return;
    }
    var group := MinimalContainingGroup(plan, a, b);
    LowestDecides(plan, s, previous, a, b, e, group);
    if e.relationship.connection == Some(ALL_TO_ONE) {
      if group.Some? {
        return Some(UnsupportedAllToOneInGroup), r, pairs;
      }
      fault, r, pairs := ConnectToOne(g, previous, a, b, e, sources, targets, s);
    } else {
      var all := AllToAll(plan, g0, g, a, b, e, group, sources, targets, s);
      if all.None? {
        return Some(UnevenGroups), r, pairs;
      }
      r, pairs := all.value, PairsTogether(s, sources, targets, group);
    }
  }
}
