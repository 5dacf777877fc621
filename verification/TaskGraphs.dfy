/**
  The task dependency graph of a workflow, and hooking one subgraph in before another.
*/
module TaskGraphs {
  import opened Names

  /** Tasks compare and hash by their ids. */
  type Task = nat

  /** The operation a task sends: the interface it belongs to, its name there, and the node it is for. */
  datatype Operation = Operation(path: string, name: string, nodeId: Name)

  /** The pairs (source, target) of a relation: the source only runs once the target has ended. */
  type Relation = set<(Task, Task)>

  ghost predicate Ranked(edges: Relation, rank: Task -> nat) {
    forall e :: e in edges ==> rank(e.1) < rank(e.0)
  }

  /** The graph can be executed to its end. */
  ghost predicate Acyclic(edges: Relation) {
    exists rank: Task -> nat :: Ranked(edges, rank)
  }

  /** Every task runs after the tasks it depends on. */
  ghost predicate ValidOrder(edges: Relation, order: seq<Task>) {
    forall i, j :: 0 <= i < |order| && 0 <= j < |order| && (order[i], order[j]) in edges ==> j < i
  }

  // ---------- what waits for what ----------

  function Dependencies(edges: Relation, x: Task): (ds: set<Task>)
    ensures forall d :: d in ds <==> (x, d) in edges
  {
    set e | e in edges && e.0 == x :: e.1
  }

  ghost predicate Walk(edges: Relation, w: seq<Task>) {
    w != [] && forall k :: 0 <= k < |w| - 1 ==> (w[k], w[k + 1]) in edges
  }

  /** `x` is `y` or waits for it, directly or not. */
  ghost predicate WaitsFor(edges: Relation, x: Task, y: Task) {
    exists w :: Walk(edges, w) && w[0] == x && w[|w| - 1] == y
  }

  lemma WaitsRefl(edges: Relation, x: Task)
    ensures WaitsFor(edges, x, x)
  {
    assert Walk(edges, [x]);
  }

  lemma WaitsStep(edges: Relation, x: Task, y: Task, z: Task)
    requires (x, y) in edges && WaitsFor(edges, y, z)
    ensures WaitsFor(edges, x, z)
  {
    var w :| Walk(edges, w) && w[0] == y && w[|w| - 1] == z;
    var longer := [x] + w;
    assert forall k :: 0 < k < |longer| ==> longer[k] == w[k - 1];
    assert Walk(edges, longer);
  }

  lemma WaitsFirst(edges: Relation, x: Task, y: Task)
    requires WaitsFor(edges, x, y)
    ensures x == y || Dependencies(edges, x) != {}
  {
    var w :| Walk(edges, w) && w[0] == x && w[|w| - 1] == y;
    if |w| > 1 {
      assert (w[0], w[1]) in edges;
      assert w[1] in Dependencies(edges, x);
    }
  }

  lemma {:induction false} WalkDrops(edges: Relation, rank: Task -> nat, w: seq<Task>)
    requires Ranked(edges, rank) && Walk(edges, w)
    ensures w[0] == w[|w| - 1] || rank(w[|w| - 1]) < rank(w[0])
  {
    if |w| > 1 {
      assert Walk(edges, w[1..]);
      WalkDrops(edges, rank, w[1..]);
      assert (w[0], w[1]) in edges;
    }
  }

  lemma WaitsDrops(edges: Relation, rank: Task -> nat, x: Task, y: Task)
    requires Ranked(edges, rank) && WaitsFor(edges, x, y)
    ensures x == y || rank(y) < rank(x)
  {
    var w :| Walk(edges, w) && w[0] == x && w[|w| - 1] == y;
    WalkDrops(edges, rank, w);
  }

  lemma {:induction false} WalkStays(edges: Relation, members: set<Task>, w: seq<Task>)
    requires Walk(edges, w) && w[|w| - 1] in members
    requires forall e :: e in edges && e.1 in members ==> e.0 in members
    ensures w[0] in members
  {
    if |w| > 1 {
      assert Walk(edges, w[1..]);
      WalkStays(edges, members, w[1..]);
      assert (w[0], w[1]) in edges;
    }
  }

  // ---------- one subgraph before another ----------

  /** A dependency on itself is none. */
  function Single(source: Task, target: Task): Relation {
    if source == target then {} else {(source, target)}
  }

  function Each(source: Task, targets: set<Task>): (r: Relation)
    ensures forall s, t :: (s, t) in r <==> s == source && t in targets && s != t
  {
    set t | t in targets && t != source :: (source, t)
  }

  lemma EachAdd(source: Task, all: set<Task>, todo: set<Task>, d: Task)
    requires d in todo && todo <= all
    ensures Each(source, all - todo) + Single(source, d) == Each(source, all - (todo - {d}))
  {
  }

  /** `before` gets the dependencies of `after`, and `after` depends on `before`. */
  function HookedBefore(edges: Relation, before: Task, after: Task): (r: Relation)
    ensures forall s, t :: (s, t) in r <==>
      || (s, t) in edges
      || (s == before && t != before && (after, t) in edges)
      || (s == after && t == before && before != after)
  {
    edges + Each(before, Dependencies(edges, after)) + Single(after, before)
  }

  /** Nothing that `after` depends on waits for `before`, and `before` does not wait for `after`. */
  ghost predicate CanGoBefore(edges: Relation, before: Task, after: Task) {
    && !WaitsFor(edges, before, after)
    && forall d :: (after, d) in edges && d != before ==> !WaitsFor(edges, d, before)
  }

  /** The rank that lifts what waits for `before` over its new dependencies, and what waits for `after` over that. */
  ghost function Lifted(edges: Relation, rank: Task -> nat, before: Task, after: Task): Task -> nat {
    (x: Task) =>
      rank(x)
      + (if WaitsFor(edges, x, before) then rank(after) + 1 else 0)
      + (if WaitsFor(edges, x, after) then rank(before) + rank(after) + 2 else 0)
  }

  lemma OldEdgeDrops(edges: Relation, rank: Task -> nat, before: Task, after: Task, x: Task, y: Task)
    requires Ranked(edges, rank) && (x, y) in edges
    ensures var f := Lifted(edges, rank, before, after); f(y) < f(x)
  {
    assert rank((x, y).1) < rank((x, y).0);
    if WaitsFor(edges, y, before) {
      WaitsStep(edges, x, y, before);
    }
    if WaitsFor(edges, y, after) {
      WaitsStep(edges, x, y, after);
    }
  }

  lemma NewEdgesDrop(edges: Relation, rank: Task -> nat, before: Task, after: Task)
    requires Ranked(edges, rank) && before != after && CanGoBefore(edges, before, after)
    ensures var f := Lifted(edges, rank, before, after);
      f(before) < f(after) && forall d :: (after, d) in edges && d != before ==> f(d) < f(before)
  {
    WaitsRefl(edges, before);
    WaitsRefl(edges, after);
    forall d | (after, d) in edges && d != before
      ensures rank(d) < rank(after) && !WaitsFor(edges, d, after) && !WaitsFor(edges, d, before)
    {
      assert rank((after, d).1) < rank((after, d).0);
      if WaitsFor(edges, d, after) {
        WaitsDrops(edges, rank, d, after);
      }
    }
  }

  /** Hooking a subgraph in before another closes a cycle exactly when it cannot go before it. */
  lemma HookedAcyclicExactly(edges: Relation, before: Task, after: Task)
    requires Acyclic(edges) && before != after
    ensures Acyclic(HookedBefore(edges, before, after)) <==> CanGoBefore(edges, before, after)
  {
    var hooked := HookedBefore(edges, before, after);
    if CanGoBefore(edges, before, after) {
      var rank: Task -> nat :| Ranked(edges, rank);
      var f := Lifted(edges, rank, before, after);
      NewEdgesDrop(edges, rank, before, after);
      forall e | e in hooked ensures f(e.1) < f(e.0) {
        assert (e.0, e.1) in hooked;
        if e in edges {
          OldEdgeDrops(edges, rank, before, after, e.0, e.1);
        }
      }
      assert Ranked(hooked, f);
    }
    if Acyclic(hooked) {
      var rank: Task -> nat :| Ranked(hooked, rank);
      assert (after, before) in hooked;
      assert rank((after, before).1) < rank((after, before).0);
      assert Ranked(edges, rank) by {
        assert forall e :: e in edges ==> (e.0, e.1) in hooked;
      }
      if WaitsFor(edges, before, after) {
        WaitsDrops(edges, rank, before, after);
      }
      forall d | (after, d) in edges && d != before ensures !WaitsFor(edges, d, before) {
        assert (before, d) in hooked;
        assert rank((before, d).1) < rank((before, d).0);
        if WaitsFor(edges, d, before) {
          WaitsDrops(edges, rank, d, before);
        }
      }
    }
  }

  /** A subgraph of its own: only its members depend on it or on each other, and it waits for nothing. */
  ghost predicate Apart(edges: Relation, before: Task, members: set<Task>) {
    && before in members
    && (forall e :: e in edges && e.1 in members ==> e.0 in members)
    && Dependencies(edges, before) == {}
  }

  lemma ApartCanGoBefore(edges: Relation, before: Task, members: set<Task>, after: Task)
    requires Apart(edges, before, members) && after !in members
    requires Dependencies(edges, after) !! members
    ensures CanGoBefore(edges, before, after)
  {
    if WaitsFor(edges, before, after) {
      WaitsFirst(edges, before, after);
    }
    forall d | (after, d) in edges && d != before ensures !WaitsFor(edges, d, before) {
      assert d in Dependencies(edges, after);
      if WaitsFor(edges, d, before) {
        var w :| Walk(edges, w) && w[0] == d && w[|w| - 1] == before;
        WalkStays(edges, members, w);
      }
    }
  }

  /** In every run it comes after what the other depends on and before the other. */
  lemma HookedRunsBetween(edges: Relation, before: Task, after: Task, order: seq<Task>, b: nat, a: nat, k: nat)
    requires before != after && ValidOrder(HookedBefore(edges, before, after), order)
    requires b < |order| && order[b] == before && a < |order| && order[a] == after
    requires k < |order| && (after, order[k]) in edges && order[k] != before
    ensures k < b < a
  {
    var hooked := HookedBefore(edges, before, after);
    assert (order[a], order[b]) in hooked && (order[b], order[k]) in hooked;
  }

  // ---------- subgraphs that run their tasks in turn ----------

  function Sequenced(subgraph: Task, count: nat): (r: Relation)
    ensures forall e :: e in r ==> subgraph < e.0 <= subgraph + count && subgraph <= e.1 < e.0
  {
    if count == 0 then
      {}
    else
      var last := subgraph + count;
      Sequenced(subgraph, count - 1) + Single(last, subgraph) + Single(last, last - 1)
  }

  lemma SequencedGrows(edges: Relation, subgraph: Task, k: nat)
    ensures var task := subgraph + k + 1;
      edges + Sequenced(subgraph, k) + Single(task, subgraph) + Single(task, task - 1)
      == edges + Sequenced(subgraph, k + 1)
  {
  }

  /** Each task waits for the subgraph and for the task before it. */
  lemma {:induction false} SequencedExactly(subgraph: Task, count: nat, s: Task, t: Task)
    ensures (s, t) in Sequenced(subgraph, count) <==>
      subgraph < s <= subgraph + count && (t == subgraph || t == s - 1)
  {
    if count > 0 {
      SequencedExactly(subgraph, count - 1, s, t);
    }
  }

  /** A graph of the tasks below `next`. */
  ghost predicate Below(edges: Relation, next: Task) {
    forall e :: e in edges ==> e.0 < next && e.1 < next
  }

  lemma SequencedAcyclic(edges: Relation, subgraph: Task, count: nat)
    requires Below(edges, subgraph)
    ensures Acyclic(edges) ==> Acyclic(edges + Sequenced(subgraph, count))
  {
    if Acyclic(edges) {
      var rank: Task -> nat :| Ranked(edges, rank);
      var f := (x: Task) => if x < subgraph then rank(x) else x;
      forall e | e in edges + Sequenced(subgraph, count) ensures f(e.1) < f(e.0) {
        assert (e.0, e.1) in edges || (e.0, e.1) in Sequenced(subgraph, count);
      }
      assert Ranked(edges + Sequenced(subgraph, count), f);
    }
  }

  lemma SequencedApart(edges: Relation, subgraph: Task, count: nat, after: Task)
    requires Below(edges, subgraph) && after < subgraph
    ensures CanGoBefore(edges + Sequenced(subgraph, count), subgraph, after)
  {
    var own := Sequenced(subgraph, count);
    var all := edges + own;
    var members := {subgraph} + set e | e in own :: e.0;
    assert forall x :: x in members ==> subgraph <= x;
    assert forall e :: e in all && e.1 in members ==> e in own;
    assert forall d :: (subgraph, d) !in all;
    assert forall d :: (after, d) in all ==> (after, d) in edges;
    ApartCanGoBefore(all, subgraph, members, after);
  }

  /** The cleanup waits for all that the install waited for, and the install for the cleanup. */
  ghost predicate CleansUpBefore(was: Relation, edges: Relation, cleanup: Task, install: Task) {
    && (install, cleanup) in edges
    && forall d :: (install, d) in was ==> (cleanup, d) in edges
  }

  /** The cleanup of an install subgraph: the tasks `cleanup` to `cleanup + count`. */
  datatype Cleanup = Cleanup(install: Task, cleanup: Task, count: nat)

  function Paired(installs: seq<(Task, nat)>, cleanups: seq<Task>): (cs: seq<Cleanup>)
    requires |installs| == |cleanups|
    ensures |cs| == |installs|
    ensures forall k :: 0 <= k < |cs| ==> cs[k] == Cleanup(installs[k].0, cleanups[k], installs[k].1)
  {
    seq(|installs|, k requires 0 <= k < |installs| => Cleanup(installs[k].0, cleanups[k], installs[k].1))
  }

  /** What the cleanup `k` adds: its sequence, that the install waits for it, and what it waits for itself. */
  ghost predicate AddedBy(was: Relation, cs: seq<Cleanup>, k: nat, e: (Task, Task))
    requires k < |cs|
  {
    || (cs[k].cleanup < e.0 <= cs[k].cleanup + cs[k].count && (e.1 == cs[k].cleanup || e.1 == e.0 - 1))
    || e == (cs[k].install, cs[k].cleanup)
    || (e.0 == cs[k].cleanup && InstallWaited(was, cs, k, e.1))
  }

  /** The install waited for `d`, from the start or as the cleanup of an earlier entry for it. */
  ghost predicate InstallWaited(was: Relation, cs: seq<Cleanup>, k: nat, d: Task)
    requires k < |cs|
  {
    (cs[k].install, d) in was || exists j :: 0 <= j < k && cs[j].install == cs[k].install && cs[j].cleanup == d
  }

  ghost predicate Resumed(was: Relation, cs: seq<Cleanup>, e: (Task, Task)) {
    e in was || exists k :: 0 <= k < |cs| && AddedBy(was, cs, k, e)
  }

  /** The tasks below `next` are known, and each cleanup consists of new ones. */
  ghost predicate FreshCleanups(next: Task, cs: seq<Cleanup>) {
    && (forall k :: 0 <= k < |cs| ==> cs[k].install < next <= cs[k].cleanup)
    && (forall j, k :: 0 <= j < k < |cs| ==> cs[j].cleanup + cs[j].count < cs[k].cleanup)
  }

  /** What an install waits for when its cleanup is hooked in. */
  lemma InstallWaits(was: Relation, edges: Relation, next: Task, cs: seq<Cleanup>, c: Cleanup, d: Task)
    requires Below(was, next) && FreshCleanups(next, cs + [c])
    requires forall e :: e in edges <==> Resumed(was, cs, e)
    ensures (c.install, d) in edges <==> InstallWaited(was, cs + [c], |cs|, d)
  {
    var all := cs + [c];
    assert forall k :: 0 <= k < |cs| ==> all[k] == cs[k];
    assert all[|cs|] == c;
    if (c.install, d) in edges && (c.install, d) !in was {
      var k :| 0 <= k < |cs| && AddedBy(was, cs, k, (c.install, d));
      assert all[k].install == all[|cs|].install && all[k].cleanup == d;
    }
    if j :| 0 <= j < |cs| && all[j].install == c.install && all[j].cleanup == d {
      assert AddedBy(was, cs, j, (c.install, d));
    }
  }

  lemma ResumedStep(was: Relation, edges: Relation, next: Task, cs: seq<Cleanup>, c: Cleanup, e: (Task, Task))
    requires Below(was, next) && FreshCleanups(next, cs + [c])
    requires forall f :: f in edges <==> Resumed(was, cs, f)
    ensures e in HookedBefore(edges + Sequenced(c.cleanup, c.count), c.cleanup, c.install) <==>
      Resumed(was, cs + [c], e)
  {
    var all := cs + [c];
    assert forall k :: 0 <= k < |cs| ==> all[k] == cs[k] && (AddedBy(was, all, k, e) <==> AddedBy(was, cs, k, e));
    assert all[|cs|] == c;
    SequencedExactly(c.cleanup, c.count, e.0, e.1);
    InstallWaits(was, edges, next, cs, c, e.1);
    assert (c.install, c.cleanup) !in edges;
    if Resumed(was, all, e) && e !in was {
      var k :| 0 <= k < |all| && AddedBy(was, all, k, e);
      if k < |cs| {
        assert AddedBy(was, cs, k, e);
      }
    }
    if e in edges && e !in was {
      var k :| 0 <= k < |cs| && AddedBy(was, cs, k, e);
      assert AddedBy(was, all, k, e);
    }
    if e in HookedBefore(edges + Sequenced(c.cleanup, c.count), c.cleanup, c.install) && e !in edges {
      assert AddedBy(was, all, |cs|, e);
    }
  }

  /** Exactly the edges of these cleanups have been added, whose tasks are all below `end`. */
  ghost predicate ResumedAs(was: Relation, edges: Relation, next: Task, cs: seq<Cleanup>, end: Task) {
    && FreshCleanups(next, cs) && next <= end && (forall k :: 0 <= k < |cs| ==> cs[k].cleanup + cs[k].count < end)
    && (forall e :: e in edges <==> Resumed(was, cs, e))
  }

  lemma ResumedNext(was: Relation, edges: Relation, next: Task, cs: seq<Cleanup>, c: Cleanup)
    requires Below(was, next) && c.install < next && ResumedAs(was, edges, next, cs, c.cleanup)
    ensures ResumedAs(was, HookedBefore(edges + Sequenced(c.cleanup, c.count), c.cleanup, c.install), next, cs + [c],
                      c.cleanup + c.count + 1)
  {
    assert FreshCleanups(next, cs + [c]);
    forall e ensures e in HookedBefore(edges + Sequenced(c.cleanup, c.count), c.cleanup, c.install) <==>
      Resumed(was, cs + [c], e)
    {
      ResumedStep(was, edges, next, cs, c, e);
    }
  }

  lemma PairedNext(installs: seq<(Task, nat)>, cleanups: seq<Task>, cleanup: Task)
    requires |cleanups| < |installs|
    ensures var (install, count) := installs[|cleanups|]; var more := cleanups + [cleanup];
      Paired(installs[..|more|], more) ==
        Paired(installs[..|cleanups|], cleanups) + [Cleanup(install, cleanup, count)]
  {
  }

  /** The same for the next install subgraph of a list. */
  lemma ResumedOneMore(was: Relation, edges: Relation, next: Task, installs: seq<(Task, nat)>, cleanups: seq<Task>,
                       cleanup: Task)
    requires |cleanups| < |installs| && Below(was, next) && installs[|cleanups|].0 < next
    requires ResumedAs(was, edges, next, Paired(installs[..|cleanups|], cleanups), cleanup)
    ensures var (install, count) := installs[|cleanups|]; var more := cleanups + [cleanup];
      ResumedAs(was, HookedBefore(edges + Sequenced(cleanup, count), cleanup, install), next,
                Paired(installs[..|more|], more), cleanup + count + 1)
  {
    var (install, count) := installs[|cleanups|];
    ResumedNext(was, edges, next, Paired(installs[..|cleanups|], cleanups), Cleanup(install, cleanup, count));
    PairedNext(installs, cleanups, cleanup);
  }

  /** Then every install waits for its cleanup, and each cleanup for all that its install waited for. */
  lemma ResumedCleansUp(was: Relation, edges: Relation, next: Task, cs: seq<Cleanup>, end: Task, k: nat)
    requires ResumedAs(was, edges, next, cs, end) && k < |cs|
    ensures CleansUpBefore(was, edges, cs[k].cleanup, cs[k].install)
  {
    assert AddedBy(was, cs, k, (cs[k].install, cs[k].cleanup));
    forall d | (cs[k].install, d) in was ensures (cs[k].cleanup, d) in edges {
      assert AddedBy(was, cs, k, (cs[k].cleanup, d));
    }
  }

  /** Hooking a new sequence in before an older task closes no cycle. */
  lemma CleanupAcyclic(edges: Relation, cleanup: Task, count: nat, install: Task)
    requires Below(edges, cleanup) && install < cleanup
    ensures Acyclic(edges) ==> Acyclic(HookedBefore(edges + Sequenced(cleanup, count), cleanup, install))
  {
    if Acyclic(edges) {
      SequencedAcyclic(edges, cleanup, count);
      SequencedApart(edges, cleanup, count, install);
      HookedAcyclicExactly(edges + Sequenced(cleanup, count), cleanup, install);
    }
  }

  // ---------- the graph ----------

  function Pairs(m: map<Task, set<Task>>): (r: Relation)
    ensures forall x, y :: (x, y) in r <==> x in m && y in m[x]
  {
    set x, y | x in m && y in m[x] :: (x, y)
  }

  function At(m: map<Task, set<Task>>, x: Task): (s: set<Task>)
    ensures forall y :: y in s <==> (x, y) in Pairs(m)
  {
    if x in m then m[x] else {}
  }

  lemma PairsAdd(m: map<Task, set<Task>>, x: Task, y: Task)
    ensures Pairs(m[x := At(m, x) + {y}]) == Pairs(m) + {(x, y)}
  {
  }

  ghost predicate Keeps(before: seq<Task>, now: seq<Task>) {
    forall x :: x in before ==> x in now
  }

  class TaskDependencyGraph {
    var tasks: seq<Task>
    var operations: map<Task, Operation>
    var dependencies: map<Task, set<Task>>
    var dependents: map<Task, set<Task>>
    var nextId: Task

    ghost function Edges(): Relation
      reads this
    {
      Pairs(dependencies)
    }

    ghost predicate Valid()
      reads this
    {
      && (forall x :: x in tasks ==> x < nextId)
      && (forall x, y :: (x, y) in Edges() ==> x in tasks && y in tasks && x != y)
      && (forall x, y :: (x, y) in Pairs(dependents) <==> (y, x) in Edges())
    }

    /** A dependency on itself is ignored; a task that is not in the graph raises. */
    method AddDependency(source: Task, target: Task) returns (ok: bool)
      requires Valid()
      modifies `dependencies, `dependents
      ensures Valid()
      ensures ok <==> source == target || (source in tasks && target in tasks)
      ensures Edges() == old(Edges()) + (if ok then Single(source, target) else {})
    {
      if source == target {
        return true;
      }
      if source !in tasks || target !in tasks {
        return false;
      }
      PairsAdd(dependencies, source, target);
      PairsAdd(dependents, target, source);
      dependencies := dependencies[source := At(dependencies, source) + {target}];
      dependents := dependents[target := At(dependents, target) + {source}];
      ok := true;
    }

    /** A new task is waited for by nothing and waits for nothing. */
    method AddTask() returns (task: Task)
      requires Valid()
      modifies `tasks, `nextId
      ensures Valid() && task == old(nextId) && nextId == task + 1 && tasks == old(tasks) + [task]
    {
      task := nextId;
      tasks, nextId := tasks + [task], nextId + 1;
    }

    /** One dependency after the other. */
    method AddEach(source: Task, targets: set<Task>)
      requires Valid() && source in tasks && forall d :: d in targets ==> d in tasks
      modifies `dependencies, `dependents
      ensures Valid() && Edges() == old(Edges()) + Each(source, targets)
    {
      ghost var start := Edges();
      var todo := targets;
      while todo != {}
        invariant Valid() && todo <= targets && Edges() == start + Each(source, targets - todo)
        decreases todo
      {
        var d :| d in todo;
        var _ := AddDependency(source, d);
        EachAdd(source, targets, todo, d);
        todo := todo - {d};
      }
    }

    method RunSubgraphBefore(before: Task, after: Task)
      requires Valid() && before in tasks && after in tasks
      modifies `dependencies, `dependents
      ensures Valid() && Edges() == HookedBefore(old(Edges()), before, after)
    {
      assert forall d :: (after, d) in Edges() ==> d in tasks;
      AddEach(before, At(dependencies, after));
      var _ := AddDependency(after, before);
    }

    /** A new task of a subgraph, after the last one of its sequence (the subgraph itself when it is the first). */
    method AddToSequence(subgraph: Task, last: Task) returns (task: Task)
      requires Valid() && subgraph in tasks && last in tasks
      modifies `tasks, `nextId, `dependencies, `dependents
      ensures Valid() && task == old(nextId) && nextId == task + 1 && Keeps(old(tasks), tasks) && task in tasks
      ensures Edges() == old(Edges()) + Single(task, subgraph) + Single(task, last)
    {
      task := AddTask();
      assert tasks[|old(tasks)|] == task && Keeps(old(tasks), tasks);
      var _ := AddDependency(task, subgraph);
      var _ := AddDependency(task, last);
    }

    /** A subgraph whose tasks run one after the other: each waits for the subgraph and for the one before it. */
    method AddSequence(count: nat) returns (subgraph: Task)
      requires Valid()
      modifies `tasks, `nextId, `dependencies, `dependents
      ensures Valid() && subgraph == old(nextId) && Keeps(old(tasks), tasks) && subgraph in tasks
      ensures nextId == subgraph + count + 1
      ensures Edges() == old(Edges()) + Sequenced(subgraph, count)
    {
      ghost var first, already := Edges(), tasks;
      subgraph := AddTask();
      assert tasks[|already|] == subgraph && Keeps(already, tasks);
      var last := subgraph;
      for k := 0 to count
        invariant Valid() && Keeps(already, tasks) && subgraph in tasks
        invariant last == subgraph + k && nextId == last + 1 && last in tasks
        invariant Edges() == first + Sequenced(subgraph, k)
        modifies `tasks, `nextId, `dependencies, `dependents
      {
        last := AddToSequence(subgraph, last);
        SequencedGrows(first, subgraph, k);
      }
    }

    /** One cleanup subgraph of `count` tasks, hooked in before an install subgraph. */
    method AddCleanup(install: Task, count: nat) returns (cleanup: Task)
      requires Valid() && install in tasks
      modifies `tasks, `nextId, `dependencies, `dependents
      ensures Valid() && Keeps(old(tasks), tasks)
      ensures cleanup == old(nextId) && nextId == cleanup + count + 1
      ensures Edges() == HookedBefore(old(Edges()) + Sequenced(cleanup, count), cleanup, install)
      ensures Acyclic(old(Edges())) ==> Acyclic(Edges())
    {
      assert Below(Edges(), nextId);
      CleanupAcyclic(Edges(), nextId, count, install);
      cleanup := AddSequence(count);
      RunSubgraphBefore(cleanup, install);
    }

    /**
      Before a resumed install, the tasks that clean up after the interrupted one are hooked in
      before the install subgraphs of the instances concerned. Nothing else is added.
    */
    method UpdateResumedInstall(installs: seq<(Task, nat)>) returns (cleanups: seq<Task>)
      requires Valid() && forall p :: p in installs ==> p.0 in tasks
      modifies `tasks, `nextId, `dependencies, `dependents
      ensures Valid() && Keeps(old(tasks), tasks) && |cleanups| == |installs|
      ensures ResumedAs(old(Edges()), Edges(), old(nextId), Paired(installs, cleanups), nextId)
      ensures Acyclic(old(Edges())) ==> Acyclic(Edges())
    {
      ghost var first, known, next := Edges(), tasks, nextId;
      assert Below(first, next);
      cleanups := [];
      for k := 0 to |installs|
        invariant Valid() && |cleanups| == k && Keeps(known, tasks)
        invariant ResumedAs(first, Edges(), next, Paired(installs[..k], cleanups), nextId)
        invariant Acyclic(first) ==> Acyclic(Edges())
        modifies `tasks, `nextId, `dependencies, `dependents
      {
        assert installs[k] in installs;
        ghost var was := Edges();
        var cleanup := AddCleanup(installs[k].0, installs[k].1);
        ResumedOneMore(first, was, next, installs, cleanups, cleanup);
        cleanups := cleanups + [cleanup];
      }
      assert installs[..|installs|] == installs;
    }
  }
}
