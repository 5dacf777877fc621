/**
  The dependencies between the subgraphs of node instances in the install and uninstall workflows.
*/
module Lifecycle {
  import opened Names
  import opened TaskGraphs

  /** A relationship of a node instance; without an "operation" property, `operation` is empty. */
  datatype Relationship = Relationship(targetId: Name, operation: string)

  datatype NodeInstance = NodeInstance(id: Name, relationships: seq<Relationship>)

  datatype Link = Link(instance: Name, relationship: Relationship)

  const LIFECYCLE := "cloudify.interfaces.lifecycle"

  function Reverse<T>(s: seq<T>): (r: seq<T>)
    ensures |r| == |s| && forall k :: 0 <= k < |s| ==> r[k] == s[|s| - 1 - k]
  {
    seq(|s|, k requires 0 <= k < |s| => s[|s| - 1 - k])
  }

  // ---------- the relationships that are followed ----------

  /** The relationships to instances that take part in the workflow. */
  function Linked(id: Name, relationships: seq<Relationship>, scope: set<Name>): (ls: seq<Link>)
    ensures forall l :: l in ls <==>
      l.instance == id && l.relationship in relationships && l.relationship.targetId in scope
  {
    if relationships == [] then
      []
    else
      var r := relationships[0];
      (if r.targetId in scope then [Link(id, r)] else []) + Linked(id, relationships[1..], scope)
  }

  /** On uninstall each instance's relationships are followed in reverse. */
  function Ordered(x: NodeInstance, install: bool): (rs: seq<Relationship>)
    ensures forall r :: r in rs <==> r in x.relationships
  {
    if install then x.relationships else
      var rs := Reverse(x.relationships);
      assert forall k :: 0 <= k < |rs| ==> x.relationships[k] == rs[|rs| - 1 - k];
      rs
  }

  function Links(instances: seq<NodeInstance>, scope: set<Name>, install: bool): (ls: seq<Link>)
    ensures forall l :: l in ls <==>
      && l.relationship.targetId in scope
      && exists x :: x in instances && x.id == l.instance && l.relationship in x.relationships
  {
    if instances == [] then
      []
    else
      Linked(instances[0].id, Ordered(instances[0], install), scope) + Links(instances[1..], scope, install)
  }

  lemma {:induction false} LinkedConcat(id: Name, a: seq<Relationship>, b: seq<Relationship>, scope: set<Name>)
    ensures Linked(id, a + b, scope) == Linked(id, a, scope) + Linked(id, b, scope)
  {
    if a == [] {
      assert a + b == b;
    } else {
      assert (a + b)[0] == a[0] && (a + b)[1..] == a[1..] + b;
      LinkedConcat(id, a[1..], b, scope);
    }
  }

  lemma ReverseConcat<T>(a: seq<T>, b: seq<T>)
    ensures Reverse(a + b) == Reverse(b) + Reverse(a)
  {
  }

  /** On uninstall the same relationships of an instance are followed, the last one first. */
  lemma FollowedBackwards(x: NodeInstance, scope: set<Name>)
    ensures Linked(x.id, Ordered(x, true), scope) == Linked(x.id, x.relationships, scope)
    ensures Linked(x.id, Ordered(x, false), scope) == Reverse(Linked(x.id, x.relationships, scope))
  {
    LinkedBackwards(x.id, x.relationships, scope);
  }

  lemma {:induction false} LinkedBackwards(id: Name, relationships: seq<Relationship>, scope: set<Name>)
    ensures Linked(id, Reverse(relationships), scope) == Reverse(Linked(id, relationships, scope))
    decreases |relationships|
  {
    if relationships != [] {
      var first, rest := relationships[..1], relationships[1..];
      LinkedBackwards(id, rest, scope);
      assert relationships == first + rest;
      ReverseConcat(first, rest);
      LinkedConcat(id, Reverse(rest), Reverse(first), scope);
      LinkedConcat(id, first, rest, scope);
      ReverseConcat(Linked(id, first, scope), Linked(id, rest, scope));
      OneBackwards(id, first, scope);
    }
  }

  lemma OneBackwards(id: Name, relationships: seq<Relationship>, scope: set<Name>)
    requires |relationships| == 1
    ensures Linked(id, Reverse(relationships), scope) == Reverse(Linked(id, relationships, scope))
  {
    assert Reverse(relationships) == relationships && relationships[1..] == [];
    assert |Linked(id, relationships, scope)| <= 1;
  }

  // ---------- the dependencies they create ----------

  /** The first task of the graph that runs the lifecycle operation for the instance. */
  function FirstRun(tasks: seq<Task>, operations: map<Task, Operation>, operation: string,
                    nodeId: Name): (t: Option<Task>)
    ensures t.Some? ==> t.value in tasks && t.value in operations
    ensures t.Some? ==> operations[t.value] == Operation(LIFECYCLE, operation, nodeId)
    ensures t == None ==>
      forall x :: x in tasks && x in operations ==> operations[x] != Operation(LIFECYCLE, operation, nodeId)
  {
    if tasks == [] then
      None
    else if tasks[0] in operations && operations[tasks[0]] == Operation(LIFECYCLE, operation, nodeId) then
      Some(tasks[0])
    else
      FirstRun(tasks[1..], operations, operation, nodeId)
  }

  function Dependents(edges: Relation, x: Task): (ds: set<Task>)
    ensures forall d :: d in ds <==> (d, x) in edges
  {
    set e | e in edges && e.1 == x :: e.0
  }

  /**
    What one relationship adds: the source waits for the target, or, given an operation, for the
    tasks that wait for it; nothing at all when no task runs that operation.
  */
  function Created(tasks: seq<Task>, operations: map<Task, Operation>, edges: Relation,
                   source: Task, target: Task, operation: string, targetId: Name): Relation
  {
    if operation == "" then
      Single(source, target)
    else
      match FirstRun(tasks, operations, operation, targetId)
      case None => {}
      case Some(t) => Each(source, Dependents(edges, t))
  }

  /** The two ends of a link: on uninstall the target waits for the source. */
  function Ends(l: Link, install: bool): (Name, Name) {
    if install then (l.instance, l.relationship.targetId) else (l.relationship.targetId, l.instance)
  }

  function Followed(tasks: seq<Task>, operations: map<Task, Operation>, subgraphs: map<Name, Task>, install: bool,
                    edges: Relation, l: Link): Relation
    requires Ends(l, install).0 in subgraphs && Ends(l, install).1 in subgraphs
  {
    var (source, target) := Ends(l, install);
    edges + Created(tasks, operations, edges, subgraphs[source], subgraphs[target], l.relationship.operation, target)
  }

  predicate Covered(subgraphs: map<Name, Task>, links: seq<Link>) {
    forall l :: l in links ==> l.instance in subgraphs && l.relationship.targetId in subgraphs
  }

  /** The links followed one after the other. */
  function AllFollowed(tasks: seq<Task>, operations: map<Task, Operation>, subgraphs: map<Name, Task>, install: bool,
                       edges: Relation, links: seq<Link>): Relation
    requires Covered(subgraphs, links)
    decreases |links|
  {
    if links == [] then
      edges
    else
      AllFollowed(tasks, operations, subgraphs, install,
                  Followed(tasks, operations, subgraphs, install, edges, links[0]), links[1..])
  }

  // ---------- without operations ----------

  ghost function LinkPairs(links: seq<Link>, install: bool): set<(Name, Name)> {
    set l | l in links :: Ends(l, install)
  }

  /** Which instance has a followed relationship to which. */
  ghost function Wanted(instances: seq<NodeInstance>, scope: set<Name>): set<(Name, Name)> {
    LinkPairs(Links(instances, scope, true), true)
  }

  ghost predicate Declared(instances: seq<NodeInstance>, scope: set<Name>, a: Name, b: Name) {
    b in scope && exists x, r :: x in instances && r in x.relationships && x.id == a && r.targetId == b
  }

  lemma WantedExactly(instances: seq<NodeInstance>, scope: set<Name>, a: Name, b: Name)
    ensures (a, b) in Wanted(instances, scope) <==> Declared(instances, scope, a, b)
  {
    var links := Links(instances, scope, true);
    if Declared(instances, scope, a, b) {
      var x, r :| x in instances && r in x.relationships && x.id == a && r.targetId == b;
      assert Link(a, r) in links && Ends(Link(a, r), true) == (a, b);
    }
    if (a, b) in Wanted(instances, scope) {
      var l :| l in links && Ends(l, true) == (a, b);
      var x :| x in instances && x.id == l.instance && l.relationship in x.relationships;
      assert x.id == a && l.relationship.targetId == b;
    }
  }

  ghost predicate NoOperations(links: seq<Link>) {
    forall l :: l in links ==> l.relationship.operation == ""
  }

  function Transposed<T(!new, ==)>(pairs: set<(T, T)>): (r: set<(T, T)>)
    ensures forall x, y :: (x, y) in r <==> (y, x) in pairs
  {
    set p | p in pairs :: (p.1, p.0)
  }

  /** Pairs of instances as pairs of their subgraphs; no subgraph waits for itself. */
  ghost function Image(subgraphs: map<Name, Task>, pairs: set<(Name, Name)>): (r: Relation)
    requires forall p :: p in pairs ==> p.0 in subgraphs && p.1 in subgraphs
    ensures forall x, y :: (x, y) in r <==>
      exists a, b :: (a, b) in pairs && subgraphs[a] != subgraphs[b] && (x, y) == (subgraphs[a], subgraphs[b])
  {
    var r := set p | p in pairs && subgraphs[p.0] != subgraphs[p.1] :: (subgraphs[p.0], subgraphs[p.1]);
    assert forall p :: p in pairs ==> p == (p.0, p.1);
    r
  }

  lemma {:induction false} PlainFollowed(tasks: seq<Task>, operations: map<Task, Operation>, subgraphs: map<Name, Task>,
                                         install: bool, edges: Relation, links: seq<Link>)
    requires Covered(subgraphs, links) && NoOperations(links)
    ensures AllFollowed(tasks, operations, subgraphs, install, edges, links)
         == edges + Image(subgraphs, LinkPairs(links, install))
    decreases |links|
  {
    if links != [] {
      var next := Followed(tasks, operations, subgraphs, install, edges, links[0]);
      PlainFollowed(tasks, operations, subgraphs, install, next, links[1..]);
      ImageStep(subgraphs, links, install);
    }
  }

  lemma ImageStep(subgraphs: map<Name, Task>, links: seq<Link>, install: bool)
    requires Covered(subgraphs, links) && links != []
    ensures var (source, target) := Ends(links[0], install);
      Image(subgraphs, LinkPairs(links, install))
      == Single(subgraphs[source], subgraphs[target]) + Image(subgraphs, LinkPairs(links[1..], install))
  {
    assert links == [links[0]] + links[1..];
    assert LinkPairs(links, install) == {Ends(links[0], install)} + LinkPairs(links[1..], install);
  }

  lemma SameLinks(there: seq<Link>, back: seq<Link>, install: bool)
    requires forall l :: l in there <==> l in back
    ensures LinkPairs(back, install) == (if install then LinkPairs(there, true) else Transposed(LinkPairs(there, true)))
  {
    var pairs, result := LinkPairs(there, true), LinkPairs(back, install);
    if install {
      assert result == pairs;
    } else {
      forall x, y ensures (x, y) in result <==> (y, x) in pairs {
        if (x, y) in result {
          var l :| l in back && Ends(l, false) == (x, y);
          assert Ends(l, true) == (y, x);
        }
        if (y, x) in pairs {
          var l :| l in there && Ends(l, true) == (y, x);
          assert Ends(l, false) == (x, y);
        }
      }
      SamePairs(result, Transposed(pairs));
    }
  }

  lemma SamePairs<T(!new)>(a: set<(T, T)>, b: set<(T, T)>)
    requires forall x, y :: (x, y) in a <==> (x, y) in b
    ensures a == b
  {
    forall p ensures p in a <==> p in b {
      assert p == (p.0, p.1);
    }
  }

  lemma ImageTransposed(subgraphs: map<Name, Task>, pairs: set<(Name, Name)>)
    requires forall p :: p in pairs ==> p.0 in subgraphs && p.1 in subgraphs
    ensures forall p :: p in Transposed(pairs) ==> p.0 in subgraphs && p.1 in subgraphs
    ensures Image(subgraphs, Transposed(pairs)) == Transposed(Image(subgraphs, pairs))
  {
    var left, right := Image(subgraphs, Transposed(pairs)), Transposed(Image(subgraphs, pairs));
    forall x, y ensures (x, y) in left <==> (x, y) in right {
      if (x, y) in left {
        var a, b :| (a, b) in Transposed(pairs) && subgraphs[a] != subgraphs[b] &&
          (x, y) == (subgraphs[a], subgraphs[b]);
        assert (b, a) in pairs;
      }
      if (y, x) in Image(subgraphs, pairs) {
        var a, b :| (a, b) in pairs && subgraphs[a] != subgraphs[b] && (y, x) == (subgraphs[a], subgraphs[b]);
        assert (b, a) in Transposed(pairs);
      }
    }
    SamePairs(left, right);
  }

  /** Without operations, install adds one dependency for each followed relationship, uninstall its transpose. */
  lemma UninstallTransposes(tasks: seq<Task>, operations: map<Task, Operation>, subgraphs: map<Name, Task>,
                            edges: Relation, instances: seq<NodeInstance>, scope: set<Name>, install: bool)
    requires Covered(subgraphs, Links(instances, scope, true)) && NoOperations(Links(instances, scope, true))
    ensures Covered(subgraphs, Links(instances, scope, install))
    ensures forall p :: p in Wanted(instances, scope) ==> p.0 in subgraphs && p.1 in subgraphs
    ensures var added := Image(subgraphs, Wanted(instances, scope));
      AllFollowed(tasks, operations, subgraphs, install, edges, Links(instances, scope, install))
      == edges + (if install then added else Transposed(added))
  {
    var wanted, there, back := Wanted(instances, scope), Links(instances, scope, true),
      Links(instances, scope, install);
    assert forall l :: l in back ==> l in there;
    assert LinkPairs(back, install) == (if install then wanted else Transposed(wanted)) by {
      SameLinks(there, back, install);
    }
    assert forall p :: p in wanted ==> (p.0, p.1) in wanted;
    PlainFollowed(tasks, operations, subgraphs, install, edges, back);
    ImageTransposed(subgraphs, wanted);
  }

  // ---------- with operations ----------

  /** The task runs the lifecycle operation for the instance, and none before it in the graph does. */
  ghost predicate RunsFirst(tasks: seq<Task>, operations: map<Task, Operation>, operation: string, nodeId: Name,
                            t: Task) {
    exists k :: RunsFirstAt(tasks, operations, operation, nodeId, t, k)
  }

  ghost predicate RunsFirstAt(tasks: seq<Task>, operations: map<Task, Operation>, operation: string, nodeId: Name,
                              t: Task, k: int) {
    && 0 <= k < |tasks| && tasks[k] == t && Runs(operations, operation, nodeId, t)
    && forall m :: 0 <= m < k ==> !Runs(operations, operation, nodeId, tasks[m])
  }

  ghost predicate Runs(operations: map<Task, Operation>, operation: string, nodeId: Name, t: Task) {
    t in operations && operations[t].path == LIFECYCLE && operations[t].name == operation &&
      operations[t].nodeId == nodeId
  }

  lemma {:induction false} FirstRunExactly(tasks: seq<Task>, operations: map<Task, Operation>, operation: string,
                                           nodeId: Name, t: Task)
    ensures FirstRun(tasks, operations, operation, nodeId) == Some(t) <==>
      RunsFirst(tasks, operations, operation, nodeId, t)
  {
    if tasks != [] {
      if Runs(operations, operation, nodeId, tasks[0]) {
        assert RunsFirstAt(tasks, operations, operation, nodeId, tasks[0], 0);
      } else {
        var rest := tasks[1..];
        FirstRunExactly(rest, operations, operation, nodeId, t);
        if k :| RunsFirstAt(rest, operations, operation, nodeId, t, k) {
          assert forall m :: 0 < m < k + 1 ==> tasks[m] == rest[m - 1];
          assert RunsFirstAt(tasks, operations, operation, nodeId, t, k + 1);
        }
        if k :| RunsFirstAt(tasks, operations, operation, nodeId, t, k) {
          assert forall m :: 0 <= m < k - 1 ==> rest[m] == tasks[m + 1];
          assert RunsFirstAt(rest, operations, operation, nodeId, t, k - 1);
        }
      }
    }
  }

  /**
    The link makes `x` wait for `y`: for the subgraph at its other end, or, given an operation, for a task that
    waits, by `edges`, for the first one that runs it there.
  */
  ghost predicate Asks(tasks: seq<Task>, operations: map<Task, Operation>, subgraphs: map<Name, Task>, install: bool,
                       edges: Relation, l: Link, x: Task, y: Task)
    requires l.instance in subgraphs && l.relationship.targetId in subgraphs
  {
    var here := if install then l.instance else l.relationship.targetId;
    var there := if install then l.relationship.targetId else l.instance;
    var operation := l.relationship.operation;
    && x == subgraphs[here] && x != y
    && if operation == "" then y == subgraphs[there]
       else exists t: Task :: RunsFirst(tasks, operations, operation, there, t) && (y, t) in edges
  }

  lemma FollowedExactly(tasks: seq<Task>, operations: map<Task, Operation>, subgraphs: map<Name, Task>, install: bool,
                        edges: Relation, l: Link, x: Task, y: Task)
    requires l.instance in subgraphs && l.relationship.targetId in subgraphs
    ensures (x, y) in Followed(tasks, operations, subgraphs, install, edges, l) <==>
      (x, y) in edges || Asks(tasks, operations, subgraphs, install, edges, l, x, y)
  {
    var (source, target) := Ends(l, install);
    var operation := l.relationship.operation;
    var first := FirstRun(tasks, operations, operation, target);
    forall t: Task ensures first == Some(t) <==> RunsFirst(tasks, operations, operation, target, t) {
      FirstRunExactly(tasks, operations, operation, target, t);
    }
  }

  /**
    Every edge that is there at the end was there before or is asked for by a link, and whatever is
    asked for comes.
  */
  lemma {:induction false} AllFollowedExactly(tasks: seq<Task>, operations: map<Task, Operation>,
                                              subgraphs: map<Name, Task>, install: bool, edges: Relation,
                                              links: seq<Link>, x: Task, y: Task)
    requires Covered(subgraphs, links)
    ensures var all := AllFollowed(tasks, operations, subgraphs, install, edges, links);
      && edges <= all
      && ((x, y) in all ==>
        (x, y) in edges || exists l :: l in links && Asks(tasks, operations, subgraphs, install, all, l, x, y))
      && ((exists l :: l in links && Asks(tasks, operations, subgraphs, install, edges, l, x, y)) ==> (x, y) in all)
    decreases |links|
  {
    if links != [] {
      var l, rest := links[0], links[1..];
      var next := Followed(tasks, operations, subgraphs, install, edges, l);
      FollowedExactly(tasks, operations, subgraphs, install, edges, l, x, y);
      AllFollowedExactly(tasks, operations, subgraphs, install, next, rest, x, y);
      var all := AllFollowed(tasks, operations, subgraphs, install, next, rest);
      if Asks(tasks, operations, subgraphs, install, edges, l, x, y) {
        AsksMore(tasks, operations, subgraphs, install, edges, all, l, x, y);
      }
      forall m | m in rest && Asks(tasks, operations, subgraphs, install, edges, m, x, y)
        ensures Asks(tasks, operations, subgraphs, install, next, m, x, y)
      {
        AsksMore(tasks, operations, subgraphs, install, edges, next, m, x, y);
      }
      assert links == [l] + rest;
    }
  }

  lemma AsksMore(tasks: seq<Task>, operations: map<Task, Operation>, subgraphs: map<Name, Task>, install: bool,
                 edges: Relation, more: Relation, l: Link, x: Task, y: Task)
    requires l.instance in subgraphs && l.relationship.targetId in subgraphs && edges <= more
    requires Asks(tasks, operations, subgraphs, install, edges, l, x, y)
    ensures Asks(tasks, operations, subgraphs, install, more, l, x, y)
  {
  }

  // ---------- orders of execution ----------

  /** Every instance comes after the instances it is related to. */
  ghost predicate InstanceOrder(wanted: set<(Name, Name)>, order: seq<Name>) {
    forall i, j :: 0 <= i < |order| && 0 <= j < |order| && order[i] != order[j] && (order[i], order[j]) in wanted ==>
      j < i
  }

  ghost predicate Injective(subgraphs: map<Name, Task>) {
    forall a, b :: a in subgraphs && b in subgraphs && subgraphs[a] == subgraphs[b] ==> a == b
  }

  function Subgraphs(subgraphs: map<Name, Task>, order: seq<Name>): (r: seq<Task>)
    requires forall a :: a in order ==> a in subgraphs
    ensures |r| == |order| && forall k :: 0 <= k < |order| ==> r[k] == subgraphs[order[k]]
  {
    seq(|order|, k requires 0 <= k < |order| => subgraphs[order[k]])
  }

  lemma OrderOfSubgraphs(subgraphs: map<Name, Task>, wanted: set<(Name, Name)>, order: seq<Name>)
    requires Injective(subgraphs) && forall a :: a in order ==> a in subgraphs
    requires forall p :: p in wanted ==> p.0 in subgraphs && p.1 in subgraphs
    ensures ValidOrder(Image(subgraphs, wanted), Subgraphs(subgraphs, order)) <==> InstanceOrder(wanted, order)
  {
    var edges, tasks := Image(subgraphs, wanted), Subgraphs(subgraphs, order);
    forall i, j | 0 <= i < |order| && 0 <= j < |order|
      ensures (tasks[i], tasks[j]) in edges <==> order[i] != order[j] && (order[i], order[j]) in wanted
    {
      assert order[i] in order && order[j] in order;
    }
    if ValidOrder(edges, tasks) {
      forall i, j | 0 <= i < |order| && 0 <= j < |order| && order[i] != order[j] && (order[i], order[j]) in wanted
        ensures j < i
      {
        assert (tasks[i], tasks[j]) in edges;
      }
    }
  }

  lemma ReversedOrder(wanted: set<(Name, Name)>, order: seq<Name>)
    ensures InstanceOrder(wanted, order) <==> InstanceOrder(Transposed(wanted), Reverse(order))
  {
    var back, n := Reverse(order), |order|;
    if InstanceOrder(wanted, order) {
      forall i, j | 0 <= i < n && 0 <= j < n && back[i] != back[j] && (back[i], back[j]) in Transposed(wanted)
        ensures j < i
      {
        assert order[n - 1 - i] == back[i] && order[n - 1 - j] == back[j];
      }
    }
    if InstanceOrder(Transposed(wanted), back) {
      forall i, j | 0 <= i < n && 0 <= j < n && order[i] != order[j] && (order[i], order[j]) in wanted ensures j < i {
        assert back[n - 1 - i] == order[i] && back[n - 1 - j] == order[j];
      }
    }
  }

  /**
    An order of the instances respects what install adds between their subgraphs exactly when the
    reversed order respects what uninstall adds between theirs.
  */
  lemma UninstallReversesInstall(installing: map<Name, Task>, uninstalling: map<Name, Task>,
                                 instances: seq<NodeInstance>, scope: set<Name>, order: seq<Name>)
    requires Injective(installing) && Injective(uninstalling)
    requires forall a :: a in order ==> a in installing && a in uninstalling
    requires forall p :: p in Wanted(instances, scope) ==>
      p.0 in installing && p.1 in installing && p.0 in uninstalling && p.1 in uninstalling
    ensures ValidOrder(Image(installing, Wanted(instances, scope)), Subgraphs(installing, order))
      <==> ValidOrder(Transposed(Image(uninstalling, Wanted(instances, scope))),
        Subgraphs(uninstalling, Reverse(order)))
  {
    var wanted := Wanted(instances, scope);
    ImageTransposed(uninstalling, wanted);
    assert forall k :: 0 <= k < |order| ==> order[k] in order;
    OrderOfSubgraphs(installing, wanted, order);
    OrderOfSubgraphs(uninstalling, Transposed(wanted), Reverse(order));
    ReversedOrder(wanted, order);
  }

  lemma LinkedStep(id: Name, relationships: seq<Relationship>, k: nat, scope: set<Name>, rest: seq<Link>)
    requires k < |relationships|
    ensures var r, ahead := relationships[k], Linked(id, relationships[k + 1..], scope) + rest;
      Linked(id, relationships[k..], scope) + rest == if r.targetId in scope then [Link(id, r)] + ahead else ahead
  {
    assert relationships[k..][1..] == relationships[k + 1..];
  }

  lemma FollowedFirst(tasks: seq<Task>, operations: map<Task, Operation>, subgraphs: map<Name, Task>,
                      install: bool, edges: Relation, l: Link, links: seq<Link>)
    requires Covered(subgraphs, [l] + links)
    ensures l in [l] + links && Covered(subgraphs, links)
    ensures AllFollowed(tasks, operations, subgraphs, install, edges, [l] + links)
      == AllFollowed(tasks, operations, subgraphs, install, Followed(tasks, operations, subgraphs, install, edges, l),
        links)
  {
    assert ([l] + links)[0] == l && ([l] + links)[1..] == links;
  }

  // ---------- the processor ----------

  class LifecycleProcessor {
    const graph: TaskDependencyGraph
    const nodeInstances: seq<NodeInstance>
    const intactNodes: seq<NodeInstance>

    constructor (graph: TaskDependencyGraph, nodeInstances: seq<NodeInstance>, intactNodes: seq<NodeInstance>)
      ensures this.graph == graph && this.nodeInstances == nodeInstances && this.intactNodes == intactNodes
    {
      this.graph, this.nodeInstances, this.intactNodes := graph, nodeInstances, intactNodes;
    }

    /** The instances that have a subgraph: those processed and those left intact. */
    function Scope(): set<Name> {
      set x | x in nodeInstances + intactNodes :: x.id
    }

    method HandleDependencyCreation(source: Task, target: Task, operation: string, targetId: Name)
      requires graph.Valid() && source in graph.tasks && target in graph.tasks
      modifies graph`dependencies, graph`dependents
      ensures graph.Valid()
      ensures graph.Edges() ==
        old(graph.Edges()) +
          Created(graph.tasks, graph.operations, old(graph.Edges()), source, target, operation, targetId)
    {
      if operation == "" {
        var _ := graph.AddDependency(source, target);
        return;
      }
      ghost var start := graph.Edges();
      for k := 0 to |graph.tasks|
        invariant graph.Valid() && graph.Edges() == start
        invariant FirstRun(graph.tasks[k..], graph.operations, operation, targetId)
          == FirstRun(graph.tasks, graph.operations, operation, targetId)
      {
        var task := graph.tasks[k];
        if task in graph.operations && graph.operations[task] == Operation(LIFECYCLE, operation, targetId) {
          assert forall d :: (d, task) in graph.Edges() ==> d in graph.tasks;
          assert At(graph.dependents, task) == Dependents(start, task);
          graph.AddEach(source, At(graph.dependents, task));
          return;
        }
      }
    }

    method AddDependencies(subgraphs: map<Name, Task>, instances: seq<NodeInstance>, install: bool)
      requires graph.Valid() && Covered(subgraphs, Links(instances, Scope(), install))
      requires forall a :: a in subgraphs ==> subgraphs[a] in graph.tasks
      modifies graph`dependencies, graph`dependents
      ensures graph.Valid()
      ensures graph.Edges() == AllFollowed(graph.tasks, graph.operations, subgraphs, install, old(graph.Edges()),
                                           Links(instances, Scope(), install))
    {
      ghost var start, all := graph.Edges(), Links(instances, Scope(), install);
      for k := 0 to |instances|
        invariant graph.Valid()
        invariant Covered(subgraphs, Links(instances[k..], Scope(), install))
        invariant AllFollowed(graph.tasks, graph.operations, subgraphs, install, graph.Edges(),
          Links(instances[k..], Scope(), install))
          == AllFollowed(graph.tasks, graph.operations, subgraphs, install, start, all)
      {
        AddInstance(subgraphs, instances[k], instances[k + 1..], install);
        assert instances[k..][1..] == instances[k + 1..];
      }
    }

    method FollowLink(subgraphs: map<Name, Task>, l: Link, install: bool)
      requires graph.Valid() && l.instance in subgraphs && l.relationship.targetId in subgraphs
      requires forall a :: a in subgraphs ==> subgraphs[a] in graph.tasks
      modifies graph`dependencies, graph`dependents
      ensures graph.Valid()
      ensures graph.Edges() == Followed(graph.tasks, graph.operations, subgraphs, install, old(graph.Edges()), l)
    {
      var r := l.relationship;
      if install {
        HandleDependencyCreation(subgraphs[l.instance], subgraphs[r.targetId], r.operation, r.targetId);
      } else {
        HandleDependencyCreation(subgraphs[r.targetId], subgraphs[l.instance], r.operation, l.instance);
      }
    }

    /** The relationships of one instance; `others` are the instances still to come. */
    method AddInstance(subgraphs: map<Name, Task>, x: NodeInstance, ghost others: seq<NodeInstance>, install: bool)
      requires graph.Valid() && Covered(subgraphs, Links([x] + others, Scope(), install))
      requires forall a :: a in subgraphs ==> subgraphs[a] in graph.tasks
      modifies graph`dependencies, graph`dependents
      ensures graph.Valid() && Covered(subgraphs, Links(others, Scope(), install))
      ensures AllFollowed(graph.tasks, graph.operations, subgraphs, install, graph.Edges(),
        Links(others, Scope(), install))
        == AllFollowed(graph.tasks, graph.operations, subgraphs, install, old(graph.Edges()),
          Links([x] + others, Scope(), install))
    {
      var relationships := Ordered(x, install);
      ghost var rest, start := Links(others, Scope(), install), graph.Edges();
      ghost var all := Linked(x.id, relationships, Scope()) + rest;
      assert ([x] + others)[1..] == others;
      for k := 0 to |relationships|
        invariant graph.Valid() && Covered(subgraphs, Linked(x.id, relationships[k..], Scope()) + rest)
        invariant AllFollowed(graph.tasks, graph.operations, subgraphs, install, graph.Edges(),
          Linked(x.id, relationships[k..], Scope()) + rest)
          == AllFollowed(graph.tasks, graph.operations, subgraphs, install, start, all)
      {
        LinkedStep(x.id, relationships, k, Scope(), rest);
        if relationships[k].targetId in Scope() {
          var l := Link(x.id, relationships[k]);
          ghost var ahead := Linked(x.id, relationships[k + 1..], Scope()) + rest;
          assert l in [l] + ahead;
          FollowedFirst(graph.tasks, graph.operations, subgraphs, install, graph.Edges(), l, ahead);
          FollowLink(subgraphs, l, install);
        }
      }
      assert relationships[|relationships|..] == [];
      assert [] + rest == rest;
    }

    /** First the processed instances, then the intact ones that are related to them. */
    method FinishSubgraphs(subgraphs: map<Name, Task>, install: bool)
      requires graph.Valid() && forall a :: a in Scope() ==> a in subgraphs
      requires forall a :: a in subgraphs ==> subgraphs[a] in graph.tasks
      modifies graph`dependencies, graph`dependents
      ensures graph.Valid() && Covered(subgraphs, Links(nodeInstances + intactNodes, Scope(), install))
      ensures graph.Edges() == AllFollowed(graph.tasks, graph.operations, subgraphs, install, old(graph.Edges()),
                                           Links(nodeInstances + intactNodes, Scope(), install))
    {
      LinksConcat(nodeInstances, intactNodes, Scope(), install);
      assert Covered(subgraphs, Links(nodeInstances + intactNodes, Scope(), install));
      ghost var start := graph.Edges();
      AddDependencies(subgraphs, nodeInstances, install);
      AddDependencies(subgraphs, intactNodes, install);
      FollowedConcat(graph.tasks, graph.operations, subgraphs, install, start,
                     Links(nodeInstances, Scope(), install), Links(intactNodes, Scope(), install));
    }
  }

  lemma {:induction false} LinksConcat(a: seq<NodeInstance>, b: seq<NodeInstance>, scope: set<Name>, install: bool)
    ensures Links(a + b, scope, install) == Links(a, scope, install) + Links(b, scope, install)
  {
    if a == [] {
      assert a + b == b;
    } else {
      assert (a + b)[0] == a[0] && (a + b)[1..] == a[1..] + b;
      LinksConcat(a[1..], b, scope, install);
    }
  }

  lemma {:induction false} FollowedConcat(tasks: seq<Task>, operations: map<Task, Operation>,
                                          subgraphs: map<Name, Task>,
                                          install: bool, edges: Relation, a: seq<Link>, b: seq<Link>)
    requires Covered(subgraphs, a + b)
    ensures Covered(subgraphs, a) && Covered(subgraphs, b)
    ensures AllFollowed(tasks, operations, subgraphs, install, edges, a + b)
      == AllFollowed(tasks, operations, subgraphs, install,
        AllFollowed(tasks, operations, subgraphs, install, edges, a), b)
    decreases |a|
  {
    assert forall l :: l in a ==> l in a + b;
    assert forall l :: l in b ==> l in a + b;
    if a == [] {
      assert a + b == b;
    } else {
      assert (a + b)[0] == a[0] && (a + b)[1..] == a[1..] + b;
      FollowedConcat(tasks, operations, subgraphs, install,
                     Followed(tasks, operations, subgraphs, install, edges, a[0]), a[1..], b);
    }
  }
}
