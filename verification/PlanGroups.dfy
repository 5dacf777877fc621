/**
  Ancestor walks over the plan's containment graph, and the smallest scaling group that
  contains two plan elements.
*/
module PlanGroups {
  import opened Names
  import opened Forests
  import opened Graphs

  /** Everything that can be reached by walking up from `starts`. */
  function Reach<T(!new, ==)>(parent: map<T, T>, starts: set<T>): set<T>
    requires Acyclic(parent)
  {
    set x, y | x in starts && y in Path(parent, x) :: y
  }

  /** A topological order of what is reachable from `starts`: each element before its container. */
  ghost predicate IsTopologicalOrder<T(!new)>(parent: map<T, T>, starts: set<T>, order: seq<T>)
    requires Acyclic(parent)
  {
    && Distinct(order)
    && Elements(order) == Reach(parent, starts)
    && Ordered(parent, order)
  }

  lemma ReachClosed<T(!new)>(parent: map<T, T>, starts: set<T>, x: T)
    requires Acyclic(parent) && x in Reach(parent, starts) && x in parent
    ensures parent[x] in Reach(parent, starts)
  {
    var s :| s in starts && x in Path(parent, s);
    assert parent[x] in Chain(parent, x);
    if x != s {
      ChainTransitive(parent, s, x, parent[x]);
    }
    assert parent[x] in Path(parent, s);
  }

  /** In any topological order an element stands before everything that contains it. */
  lemma {:induction false} ContainersLater<T(!new)>(parent: map<T, T>, starts: set<T>, order: seq<T>, i: nat, y: T)
    requires Acyclic(parent) && IsTopologicalOrder(parent, starts, order)
    requires i < |order| && y in Chain(parent, order[i])
    ensures exists j :: i < j < |order| && order[j] == y
    decreases Rank(parent, order[i])
  {
    var x := order[i];
    ChainWithin(parent, x, y);
    RankDrops(parent, x);
    assert x in Elements(order);
    ReachClosed(parent, starts, x);
    assert parent[x] in Elements(order);
    var j :| 0 <= j < |order| && order[j] == parent[x];
    if y != parent[x] {
      ContainersLater(parent, starts, order, j, y);
    }
  }

  /** When every start lies above `lowest`, which is itself a start, `lowest` comes first in every order. */
  lemma {:induction false} LowestFirst<T(!new)>(parent: map<T, T>, starts: set<T>, order: seq<T>, lowest: T)
    requires Acyclic(parent) && IsTopologicalOrder(parent, starts, order)
    requires lowest in starts && forall s :: s in starts ==> s in Path(parent, lowest)
    ensures order != [] && order[0] == lowest
  {
    assert lowest in Path(parent, lowest);
    assert lowest in Elements(order);
    var x := order[0];
    assert x in Elements(order);
    var s :| s in starts && x in Path(parent, s);
    if x != lowest {
      if s != lowest && x != s {
        ChainTransitive(parent, lowest, s, x);
      }
      var k :| 0 <= k < |order| && order[k] == lowest;
      ContainersLater(parent, starts, order, k, x);
      assert false;
    }
  }

  /** The lowest of a nonempty set of containers of `x`. */
  lemma {:induction false} LowestExists<T(!new)>(parent: map<T, T>, x: T, s: set<T>) returns (lowest: T)
    requires Acyclic(parent) && s != {} && forall y :: y in s ==> y in Chain(parent, x)
    ensures lowest in s && forall y :: y in s ==> y in Path(parent, lowest)
    decreases s
  {
    var y :| y in s;
    if s == {y} {
      lowest := y;
    } else {
      var low := LowestExists(parent, x, s - {y});
      ChainComparable(parent, x, y, low);
      if y in Chain(parent, low) {
        lowest := low;
      } else {
        lowest := y;
        forall z | z in s && z != y && z != low
          ensures z in Path(parent, y)
        {
          assert z in Path(parent, low) && z in Chain(parent, low);
          ChainTransitive(parent, y, low, z);
        }
      }
    }
  }

  /** Some element of a finite set that holds `x` contains no other element of it. */
  lemma {:induction false} LowestInSet<T(!new)>(parent: map<T, T>, s: set<T>, x: T)
    requires Acyclic(parent) && x in s
    ensures exists z :: z in s && forall y :: y in s && y in parent ==> parent[y] != z
    decreases set y | y in s && Rank(parent, y) > Rank(parent, x)
  {
    if y :| y in s && y in parent && parent[y] == x {
      RankDrops(parent, y);
      var below := set z | z in s && Rank(parent, z) > Rank(parent, x);
      assert y in below;
      assert (set z | z in s && Rank(parent, z) > Rank(parent, y)) < below;
      LowestInSet(parent, s, y);
    }
  }

  /** The order built so far puts each element before its container. */
  ghost predicate Ordered<T(!new)>(parent: map<T, T>, order: seq<T>) {
    forall i, j :: 0 <= i < |order| && 0 <= j < |order| && order[i] in parent && parent[order[i]] == order[j] ==> i < j
  }

  /** A topological order of `all`, but for the elements in `todo`. */
  ghost predicate Sorting<T(!new)>(parent: map<T, T>, all: set<T>, order: seq<T>, todo: set<T>) {
    && todo <= all && Distinct(order) && Elements(order) == all - todo && Ordered(parent, order)
    && forall x :: x in todo && x in parent ==> parent[x] !in order
  }

  lemma SortingStep<T(!new)>(parent: map<T, T>, all: set<T>, order: seq<T>, todo: set<T>, x: T)
    requires Acyclic(parent) && Sorting(parent, all, order, todo)
    requires x in todo && forall y :: y in todo && y in parent ==> parent[y] != x
    ensures Sorting(parent, all, order + [x], todo - {x})
  {
    if x in parent {
      RankDrops(parent, x);
    }
    assert x !in Elements(order);
    assert Elements(order + [x]) == Elements(order) + {x};
  }

  /** The library's topological sort of what is reachable from `starts`. */
  method TopologicalSort<T(!new, ==)>(parent: map<T, T>, starts: set<T>) returns (order: seq<T>)
    requires Acyclic(parent)
    ensures IsTopologicalOrder(parent, starts, order)
  {
    order := [];
    ghost var all := Reach(parent, starts);
    var todo := Reach(parent, starts);
    while todo != {}
      invariant Sorting(parent, all, order, todo)
      decreases todo
    {
      ghost var some :| some in todo;
      LowestInSet(parent, todo, some);
      var x :| x in todo && forall y :: y in todo && y in parent ==> parent[y] != x;
      SortingStep(parent, all, order, todo, x);
      order, todo := order + [x], todo - {x};
    }
  }

  /** The groups among `chain`, in order. */
  function Filtered<T(!new, ==)>(chain: seq<T>, groups: set<T>): (r: seq<T>)
    ensures forall x :: x in r <==> x in chain && x in groups
  {
    if chain == [] then []
    else (if chain[0] in groups then [chain[0]] else []) + Filtered(chain[1..], groups)
  }

  function GroupNames(g: PlanGraph): set<Name> {
    set n | n in g.nodes && g.nodes[n].group
  }

  /** The successors of `n` in the containment graph. */
  function Successors(g: PlanGraph, n: Name): set<Name> {
    set e | e in g.edges && e.0 == n && IsContainment(g.edges[e].relationship) :: e.1
  }

  lemma SuccessorsAre(g: PlanGraph, n: Name)
    requires SingleContainer(g)
    ensures var parent := ContainedGraph(g);
            Successors(g, n) == if n in parent then {parent[n]} else {}
  {
    var parent := ContainedGraph(g);
    forall t | t in Successors(g, n)
      ensures n in parent && parent[n] == t
    {
      assert ContainmentEdge(g, n, t);
    }
    if n in parent {
      assert ContainmentEdge(g, n, parent[n]);
      assert (n, parent[n]).1 in Successors(g, n);
    }
  }

  /** One step of an ancestor walk; the single-successor assertion of the walk holds. */
  method Container(g: PlanGraph, n: Name) returns (r: Option<Name>)
    requires ValidGraph(g)
    ensures r == if n in ContainedGraph(g) then Some(ContainedGraph(g)[n]) else None
    ensures r.Some? ==> r.value in g.nodes
  {
    var succ := Successors(g, n);
    SuccessorsAre(g, n);
    if succ == {} {
      r := None;
    } else {
      assert |succ| == 1;
      var t :| t in succ;
      assert ContainmentEdge(g, n, t);
      r := Some(t);
    }
  }

  lemma FilteredStep(parent: map<Name, Name>, groups: set<Name>, n: Name)
    requires Acyclic(parent) && n in parent
    ensures Filtered(Chain(parent, n), groups) ==
            (if parent[n] in groups then [parent[n]] else []) + Filtered(Chain(parent, parent[n]), groups)
  {
    RankDrops(parent, n);
    assert Chain(parent, n)[1..] == Chain(parent, parent[n]);
  }

  lemma WalkStep(parent: map<Name, Name>, groups: set<Name>, n: Name, result: seq<Name>)
    requires Acyclic(parent) && n in parent
    ensures result + Filtered(Chain(parent, n), groups) ==
            (if parent[n] in groups then result + [parent[n]] else result) + Filtered(Chain(parent, parent[n]), groups)
  {
    FilteredStep(parent, groups, n);
    var first := if parent[n] in groups then [parent[n]] else [];
    Regroup(result, first, Filtered(Chain(parent, parent[n]), groups));
  }

  lemma Regroup(a: seq<Name>, b: seq<Name>, c: seq<Name>)
    ensures a + (b + c) == (a + b) + c && a + [] == a
  {
  }

  /** The groups that contain a node, innermost first: the walk up the containment graph. */
  method ContainingGroups(g: PlanGraph, node: Name) returns (result: seq<Name>)
    requires ValidGraph(g)
    ensures result == Filtered(Chain(ContainedGraph(g), node), GroupNames(g))
  {
    ghost var parent, groups := ContainedGraph(g), GroupNames(g);
    ghost var all := Filtered(Chain(parent, node), groups);
    result := [];
    var n := node;
    var up := Container(g, n);
    while up.Some?
      invariant result + Filtered(Chain(parent, n), groups) == all
      invariant up == (if n in parent then Some(parent[n]) else None) && (up.Some? ==> up.value in g.nodes)
      decreases Rank(parent, n)
    {
      RankDrops(parent, n);
      WalkStep(parent, groups, n, result);
      n := up.value;
      if g.nodes[n].group {
        result := result + [n];
      }
      up := Container(g, n);
    }
  }

  ghost predicate SharedGroup(g: PlanGraph, a: Name, b: Name, group: Name)
    requires ValidGraph(g)
  {
    var parent := ContainedGraph(g);
    group in GroupNames(g) && group in Chain(parent, a) && group in Chain(parent, b)
  }

  /** The lowest common group ancestor: every other group that contains both contains it too. */
  ghost predicate LowestSharedGroup(g: PlanGraph, a: Name, b: Name, group: Name)
    requires ValidGraph(g)
  {
    && SharedGroup(g, a, b, group)
    && forall h :: SharedGroup(g, a, b, h) && h != group ==> h in Chain(ContainedGraph(g), group)
  }

  /** The smallest group that contains both nodes, if any group does. */
  method MinimalContainingGroup(g: PlanGraph, a: Name, b: Name) returns (r: Option<Name>)
    requires ValidGraph(g)
    ensures r.None? ==> forall h :: !SharedGroup(g, a, b, h)
    ensures r.Some? ==> LowestSharedGroup(g, a, b, r.value)
  {
    var aGroups := ContainingGroups(g, a);
    var bGroups := ContainingGroups(g, b);
    var shared := set h | h in aGroups && h in bGroups;
    assert forall h :: h in shared <==> SharedGroup(g, a, b, h);
    if shared == {} {
      r := None;
    } else {
      var parent := ContainedGraph(g);
      var order := TopologicalSort(parent, shared);
      ghost var lowest := LowestExists(parent, a, shared);
      LowestFirst(parent, shared, order, lowest);
      r := Some(order[0]);
    }
  }

  /** There is only one such group. */
  lemma LowestSharedGroupUnique(g: PlanGraph, a: Name, b: Name, x: Name, y: Name)
    requires ValidGraph(g) && LowestSharedGroup(g, a, b, x) && LowestSharedGroup(g, a, b, y)
    ensures x == y
  {
    var parent := ContainedGraph(g);
    if x != y {
      ChainRanks(parent, x, y);
      ChainRanks(parent, y, x);
    }
  }
}
