/**
  Reading the node instances out of an instance graph: group instances disappear, and what they
  stood for is recorded on the instances they contain.
*/
module Extraction {
  import opened Names
  import opened Forests
  import opened Graphs
  import opened Growth
  import opened Expansion
  import opened Connections

  /** The groups that a chain starts with. */
  function LeadingGroups<T(==)>(chain: seq<T>, groups: set<T>): seq<T> {
    if chain != [] && chain[0] in groups then [chain[0]] + LeadingGroups(chain[1..], groups) else []
  }

  /** What comes right after them. */
  function AfterGroups<T(==)>(chain: seq<T>, groups: set<T>): Option<T> {
    if chain == [] then None
    else if chain[0] in groups then AfterGroups(chain[1..], groups)
    else Some(chain[0])
  }

  function GroupInstances(g: InstanceGraph): set<Id> {
    set q | q in g.nodes && g.nodes[q].group
  }

  function Named(g: InstanceGraph, ids: seq<Id>): (r: seq<(Name, Id)>)
    requires forall q :: q in ids ==> q in g.nodes
  {
    seq(|ids|, k requires 0 <= k < |ids| => (g.nodes[ids[k]].name, ids[k]))
  }

  /** A node instance as it is handed out and stored. */
  datatype Stored = Stored(id: Id, name: Name, groups: seq<(Name, Id)>, relationships: seq<RelationshipInstance>)

  /** The containment part `c` of the instance graph `g`, and what the edges of instances carry. */
  ghost predicate Extractable(c: InstanceGraph, g: InstanceGraph, s: Inst) {
    && Represents(c, s) && Acyclic(s.cont) && g.nodes == c.nodes
    && (forall i :: i in s.cont ==> i in c.nodes && s.cont[i] in c.nodes)
    && (forall i, t :: (i, t) in g.edges && i in c.nodes && !c.nodes[i].group ==> EdgeRecord(c, g, s, i, t))
    && (forall i :: i in s.cont && !c.nodes[i].group ==> (i, s.cont[i]) in g.edges)
  }

  /** An edge is a group edge or a redirected one exactly when it leads into a group instance. */
  ghost predicate EdgeRecord(c: InstanceGraph, g: InstanceGraph, s: Inst, i: Id, t: Id)
    requires (i, t) in g.edges && i in c.nodes && Acyclic(s.cont)
  {
    var r := g.edges[(i, t)].relationship;
    && r.Some? && r.value.targetId == t
    && t in c.nodes && r.value.targetName == c.nodes[t].name
    && (c.nodes[t].group <==> r.value.replaced || r.value.typeName == GROUP_CONTAINED_IN)
    && (c.nodes[t].group ==> i in s.cont && s.cont[i] == t)
    && (r.value.replaced ==> AfterGroups(Chain(s.cont, i), GroupInstances(c)).Some?)
    && !(r.value.replaced && r.value.typeName == GROUP_CONTAINED_IN)
  }

  /** A relationship as it is handed out: a redirected one points again at what holds the groups. */
  ghost function Handed(c: InstanceGraph, s: Inst, i: Id, r: RelationshipInstance): RelationshipInstance
    requires Acyclic(s.cont)
  {
    if !r.replaced then r
    else
      var q := AfterGroups(Chain(s.cont, i), GroupInstances(c));
      if q.Some? && q.value in c.nodes then
        RelationshipInstance(r.typeName, c.nodes[q.value].name, q.value, false)
      else r
  }

  lemma {:induction false} LeadingWithin<T>(chain: seq<T>, groups: set<T>)
    ensures forall q :: q in LeadingGroups(chain, groups) ==> q in chain && q in groups
    ensures AfterGroups(chain, groups).Some? ==>
      AfterGroups(chain, groups).value in chain && AfterGroups(chain, groups).value !in groups
    ensures AfterGroups(chain, groups).Some? ==> |LeadingGroups(chain, groups)| < |chain|
    ensures AfterGroups(chain, groups).Some? ==>
      chain[|LeadingGroups(chain, groups)|] == AfterGroups(chain, groups).value
    ensures LeadingGroups(chain, groups) <= chain
    ensures AfterGroups(chain, groups).None? ==> LeadingGroups(chain, groups) == chain
  {
    if chain != [] && chain[0] in groups {
      LeadingWithin(chain[1..], groups);
    }
  }

  lemma ChainKnown(c: InstanceGraph, s: Inst, i: Id)
    requires Acyclic(s.cont) && forall i :: i in s.cont ==> s.cont[i] in c.nodes
    ensures forall q :: q in Chain(s.cont, i) ==> q in c.nodes
  {
    forall q | q in Chain(s.cont, i)
      ensures q in c.nodes
    {
      ChainWithin(s.cont, i, q);
    }
  }

  /** The group instances that hold `i`, up to what is not a group: its scaling groups, innermost first. */
  ghost function GroupsOf(c: InstanceGraph, s: Inst, i: Id): seq<(Name, Id)>
    requires Acyclic(s.cont) && forall i :: i in s.cont ==> s.cont[i] in c.nodes
  {
    ChainKnown(c, s, i);
    LeadingWithin(Chain(s.cont, i), GroupInstances(c));
    Named(c, LeadingGroups(Chain(s.cont, i), GroupInstances(c)))
  }

  lemma LeadingStep(c: InstanceGraph, s: Inst, i: Id)
    requires Acyclic(s.cont) && i in s.cont && (forall i :: i in s.cont ==> s.cont[i] in c.nodes)
    ensures var up := s.cont[i];
            if c.nodes[up].group
            then && GroupsOf(c, s, i) == [(c.nodes[up].name, up)] + GroupsOf(c, s, up)
                 && AfterGroups(Chain(s.cont, i), GroupInstances(c)) ==
                   AfterGroups(Chain(s.cont, up), GroupInstances(c))
            else GroupsOf(c, s, i) == [] && AfterGroups(Chain(s.cont, i), GroupInstances(c)) == Some(up)
  {
    RankDrops(s.cont, i);
    ChainKnown(c, s, i);
    ChainKnown(c, s, s.cont[i]);
    LeadingCons(s.cont[i], Chain(s.cont, s.cont[i]), GroupInstances(c));
  }

  lemma LeadingCons<T>(x: T, chain: seq<T>, groups: set<T>)
    ensures LeadingGroups([x] + chain, groups) == if x in groups then [x] + LeadingGroups(chain, groups) else []
    ensures AfterGroups([x] + chain, groups) == if x in groups then AfterGroups(chain, groups) else Some(x)
    ensures forall q :: q in LeadingGroups(chain, groups) ==> q in groups
  {
    assert ([x] + chain)[1..] == chain;
    LeadingWithin(chain, groups);
  }

  /** The groups above a group instance, and what holds the outermost of them, if anything does. */
  method ContainingGroupInstances(c: InstanceGraph, id: Id, ghost s: Inst)
    returns (groups: seq<(Name, Id)>, parent: Option<Id>)
    requires Represents(c, s) && Acyclic(s.cont) && forall i :: i in s.cont ==> s.cont[i] in c.nodes
    ensures groups == GroupsOf(c, s, id)
    ensures parent == AfterGroups(Chain(s.cont, id), GroupInstances(c))
  {
    groups := [];
    var x := id;
    var up := Above(c, x, s);
    while up.Some?
      invariant up == if x in s.cont then Some(s.cont[x]) else None
      invariant groups + GroupsOf(c, s, x) == GroupsOf(c, s, id)
      invariant AfterGroups(Chain(s.cont, x), GroupInstances(c)) == AfterGroups(Chain(s.cont, id), GroupInstances(c))
      decreases Rank(s.cont, x)
    {
      RankDrops(s.cont, x);
      LeadingStep(c, s, x);
      x := up.value;
      if !c.nodes[x].group {
        return groups, Some(x);
      }
      groups := groups + [(c.nodes[x].name, x)];
      up := Above(c, x, s);
    }
    parent := None;
  }

  /** The targets of an instance in the order of its relationships. */
  ghost predicate ByIndex(g: InstanceGraph, i: Id, order: seq<Id>) {
    && (forall k :: 0 <= k < |order| ==> (i, order[k]) in g.edges)
    && (forall k, m :: 0 <= k < m < |order| ==> g.edges[(i, order[k])].index <= g.edges[(i, order[m])].index)
  }

  function InsertAt(order: seq<Id>, t: Id, k: nat): (r: seq<Id>)
    requires k <= |order|
    ensures |r| == |order| + 1
    ensures forall m :: 0 <= m < |r| ==> r[m] == if m < k then order[m] else if m == k then t else order[m - 1]
  {
    order[..k] + [t] + order[k..]
  }

  lemma InsertSorts(g: InstanceGraph, i: Id, order: seq<Id>, t: Id, k: nat)
    requires (i, t) in g.edges && ByIndex(g, i, order) && k <= |order|
    requires k > 0 ==> g.edges[(i, order[k - 1])].index <= g.edges[(i, t)].index
    requires k < |order| ==> g.edges[(i, order[k])].index >= g.edges[(i, t)].index
    ensures ByIndex(g, i, InsertAt(order, t, k))
  {
  }

  lemma InsertElements(order: seq<Id>, t: Id, k: nat)
    requires Distinct(order) && t !in order && k <= |order|
    ensures Distinct(InsertAt(order, t, k)) && Elements(InsertAt(order, t, k)) == Elements(order) + {t}
  {
    var r := InsertAt(order, t, k);
    forall x
      ensures x in r <==> x in order || x == t
    {
      if x in order {
        var m :| 0 <= m < |order| && order[m] == x;
        assert r[if m < k then m else m + 1] == x;
      }
      assert r[k] == t;
    }
  }

  /** Puts one more target behind those whose relationships come no later. */
  method Insert(g: InstanceGraph, i: Id, order: seq<Id>, t: Id) returns (r: seq<Id>)
    requires (i, t) in g.edges && ByIndex(g, i, order) && Distinct(order) && t !in order
    ensures ByIndex(g, i, r) && Distinct(r) && Elements(r) == Elements(order) + {t}
  {
    var k := |order|;
    while k > 0 && g.edges[(i, order[k - 1])].index > g.edges[(i, t)].index
      invariant 0 <= k <= |order|
      invariant k < |order| ==> g.edges[(i, order[k])].index > g.edges[(i, t)].index
    {
      k := k - 1;
    }
    InsertSorts(g, i, order, t, k);
    InsertElements(order, t, k);
    r := InsertAt(order, t, k);
  }

  /** The relationships of an instance, sorted by their position in the plan. */
  method SortedTargets(g: InstanceGraph, i: Id, targets: set<Id>) returns (order: seq<Id>)
    requires forall t :: t in targets ==> (i, t) in g.edges
    ensures ByIndex(g, i, order) && Distinct(order) && Elements(order) == targets
  {
    order := [];
    var todo := targets;
    while todo != {}
      invariant todo <= targets && ByIndex(g, i, order) && Distinct(order) && Elements(order) == targets - todo
      decreases todo
    {
      var t :| t in todo;
      assert t !in Elements(order);
      order := Insert(g, i, order, t);
      todo := todo - {t};
    }
  }

  /** The relationships handed out for `i`: one for each edge that is not a group's own, in order. */
  ghost predicate HandedOut(c: InstanceGraph, g: InstanceGraph, s: Inst, i: Id, order: seq<Id>,
                            rels: seq<RelationshipInstance>)
    requires Acyclic(s.cont)
  {
    && ByIndex(g, i, order) && Distinct(order)
    && Elements(order) == Plain(g, i)
    && |rels| == |order|
    && forall k :: 0 <= k < |order| ==> IsHanded(c, g, s, i, order[k], rels[k])
  }

  ghost predicate IsHanded(c: InstanceGraph, g: InstanceGraph, s: Inst, i: Id, t: Id, r: RelationshipInstance)
    requires Acyclic(s.cont) && (i, t) in g.edges
  {
    g.edges[(i, t)].relationship.Some? && r == Handed(c, s, i, g.edges[(i, t)].relationship.value)
  }

  predicate IsGroupEdge(e: InstanceEdge) {
    e.relationship.Some? && e.relationship.value.typeName == GROUP_CONTAINED_IN
  }

  /** The targets of the edges that are relationships of the instance itself. */
  function Plain(g: InstanceGraph, i: Id): set<Id> {
    set e | e in g.edges && e.0 == i && !IsGroupEdge(g.edges[e]) :: e.1
  }

  /** One node instance. */
  method ExtractInstance(c: InstanceGraph, g: InstanceGraph, i: Id, ghost s: Inst)
    returns (r: Stored, ghost order: seq<Id>)
    requires Extractable(c, g, s) && i in c.nodes && !c.nodes[i].group
    ensures r.id == i && r.name == c.nodes[i].name
    ensures r.groups == GroupsOf(c, s, i)
    ensures HandedOut(c, g, s, i, order, r.relationships)
  {
    assert forall t :: t in Plain(g, i) ==> (i, t) in g.edges;
    var targets := SortedTargets(g, i, Plain(g, i));
    order := targets;
    var up := Above(c, i, s);
    var groups, parent := [], None;
    if up.Some? {
      LeadingStep(c, s, i);
      assert EdgeRecord(c, g, s, i, up.value);
      if c.nodes[up.value].group {
        var above;
        above, parent := ContainingGroupInstances(c, up.value, s);
        groups := [(c.nodes[up.value].name, up.value)] + above;
      }
    }
    var rels := [];
    for k := 0 to |targets|
      invariant |rels| == k
      invariant forall m :: 0 <= m < k ==> IsHanded(c, g, s, i, targets[m], rels[m])
    {
      assert EdgeRecord(c, g, s, i, targets[k]);
      var rel := g.edges[(i, targets[k])].relationship.value;
      if rel.replaced {
        ChainKnown(c, s, i);
        LeadingWithin(Chain(s.cont, i), GroupInstances(c));
        rel := RelationshipInstance(rel.typeName, c.nodes[parent.value].name, parent.value, false);
      }
      rels := rels + [rel];
    }
    r := Stored(i, c.nodes[i].name, groups, rels);
  }

  /** What is handed out for an instance. */
  ghost predicate Extracted(c: InstanceGraph, g: InstanceGraph, s: Inst, r: Stored)
    requires Acyclic(s.cont) && forall i :: i in s.cont ==> s.cont[i] in c.nodes
  {
    && r.id in c.nodes && !c.nodes[r.id].group && r.name == c.nodes[r.id].name
    && r.groups == GroupsOf(c, s, r.id)
    && exists order: seq<Id> :: HandedOut(c, g, s, r.id, order, r.relationships)
  }

  /** All node instances: the group instances are left out, and every other one is handed out once. */
  method ExtractNodeInstances(c: InstanceGraph, g: InstanceGraph, ghost s: Inst) returns (instances: seq<Stored>)
    requires Extractable(c, g, s)
    ensures forall k :: 0 <= k < |instances| ==> Extracted(c, g, s, instances[k])
    ensures forall k, m :: 0 <= k < m < |instances| ==> instances[k].id != instances[m].id
    ensures forall i :: i in c.nodes && !c.nodes[i].group ==> exists k :: 0 <= k < |instances| && instances[k].id == i
  {
    instances := [];
    var ids := Listed(set i | i in c.nodes && !c.nodes[i].group);
    assert forall i :: i in c.nodes && !c.nodes[i].group <==> i in Elements(ids);
    for k := 0 to |ids|
      invariant |instances| == k &&
        forall m :: 0 <= m < k ==> instances[m].id == ids[m] && Extracted(c, g, s, instances[m])
    {
      assert ids[k] in Elements(ids);
      var r;
      ghost var order;
      r, order := ExtractInstance(c, g, ids[k], s);
      instances := instances + [r];
    }
    forall i | i in c.nodes && !c.nodes[i].group
      ensures exists k :: 0 <= k < |instances| && instances[k].id == i
    {
      assert i in ids;
      var k :| 0 <= k < |ids| && ids[k] == i;
      assert instances[k].id == i;
    }
  }
}
