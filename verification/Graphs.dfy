/**
  The plan graph and the instance graph: directed graphs with at most one edge for each
  ordered pair, an edge carrying a relationship and its position in the source's list.
*/
module Graphs {
  import opened Names
  import opened Forests

  const DEPENDS_ON := "cloudify.relationships.depends_on"
  const CONTAINED_IN := "cloudify.relationships.contained_in"
  const CONNECTED_TO := "cloudify.relationships.connected_to"
  const GROUP_CONTAINED_IN := "__group_contained_in__"
  const ALL_TO_ALL := "all_to_all"
  const ALL_TO_ONE := "all_to_one"

  datatype Relationship = Relationship(
    typeName: string, hierarchy: seq<string>, target: Name, connection: Option<string>, replaced: Option<Name>)

  datatype PlanNode = PlanNode(group: bool, current: int, relationships: seq<Relationship>)
  datatype PlanEdge = PlanEdge(relationship: Relationship, index: int)
  datatype PlanGraph = PlanGraph(nodes: map<Name, PlanNode>, edges: map<(Name, Name), PlanEdge>)

  datatype RelationshipInstance = RelationshipInstance(
    typeName: string, targetName: Name, targetId: Id, replaced: bool)

  /** `groups` lists the scaling group instances recorded on a stored instance, innermost first. */
  datatype InstanceNode = InstanceNode(
    name: Name, group: bool, groups: seq<(Name, Id)>, relationships: seq<RelationshipInstance>)
  datatype InstanceEdge = InstanceEdge(relationship: Option<RelationshipInstance>, index: int)
  datatype InstanceGraph = InstanceGraph(nodes: map<Id, InstanceNode>, edges: map<(Id, Id), InstanceEdge>)

  predicate IncludesOneOf(r: Relationship, types: set<string>) {
    exists k | 0 <= k < |r.hierarchy| :: r.hierarchy[k] in types
  }

  predicate IsContainment(r: Relationship) {
    IncludesOneOf(r, {CONTAINED_IN, GROUP_CONTAINED_IN})
  }

  /** contained_in derives from depends_on, so it is excluded explicitly. */
  predicate IsConnection(r: Relationship) {
    IncludesOneOf(r, {CONNECTED_TO, DEPENDS_ON}) && !IncludesOneOf(r, {CONTAINED_IN})
  }

  predicate ContainmentEdge(g: PlanGraph, s: Name, t: Name) {
    (s, t) in g.edges && IsContainment(g.edges[(s, t)].relationship)
  }

  /** No element of the plan has two containers. */
  ghost predicate SingleContainer(g: PlanGraph) {
    forall s, t, u :: ContainmentEdge(g, s, t) && ContainmentEdge(g, s, u) ==> t == u
  }

  /** The plan's containment edges, as the map from each contained element to its container. */
  function ContainedGraph(g: PlanGraph): (parent: map<Name, Name>)
    requires SingleContainer(g)
    ensures forall s, t :: s in parent && parent[s] == t <==> ContainmentEdge(g, s, t)
  {
    var keys := set e | e in g.edges && IsContainment(g.edges[e].relationship);
    assert forall e :: e in keys ==> ContainmentEdge(g, e.0, e.1);
    var parent := map e | e in keys :: e.0 := e.1;
    assert forall e :: e in keys ==> e.0 in parent && parent[e.0] == e.1;
    assert forall s, t :: ContainmentEdge(g, s, t) ==> (s, t) in keys;
    parent
  }

  ghost predicate ValidGraph(g: PlanGraph) {
    && (forall e :: e in g.edges ==> e.0 in g.nodes && e.1 in g.nodes)
    && SingleContainer(g)
    && Acyclic(ContainedGraph(g))
  }
}
