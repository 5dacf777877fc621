/**
  Plan graphs in which an element may have several containers: what the expansion of a fresh deployment
  builds from one, and the ancestor walks of connections, which then fail.
*/
module Forks {
  import opened Names
  import opened Forests
  import opened Graphs
  import opened PlanGroups

  /** Containment does not loop. */
  ghost predicate Ranks(g: PlanGraph, rank: map<Name, nat>) {
    && (forall s, t :: ContainmentEdge(g, s, t) ==> s in rank && t in rank && rank[t] < rank[s])
    && forall e :: e in g.edges ==> e.0 in g.nodes && e.1 in g.nodes
  }

  // ---------- ancestor walks ----------

  /** A way up. */
  ghost predicate Upwards(g: PlanGraph, path: seq<Name>) {
    path != [] && forall k :: 0 <= k < |path| - 1 ==> ContainmentEdge(g, path[k], path[k + 1])
  }

  /** It leads from `n` to an element with several containers. */
  ghost predicate LeadsToFork(g: PlanGraph, n: Name, path: seq<Name>) {
    Upwards(g, path) && path[0] == n && |Successors(g, path[|path| - 1])| > 1
  }

  ghost predicate ForkAbove(g: PlanGraph, n: Name) {
    exists path :: LeadsToFork(g, n, path)
  }

  lemma InSuccessors(g: PlanGraph, n: Name, t: Name)
    ensures t in Successors(g, n) <==> ContainmentEdge(g, n, t)
  {
    if ContainmentEdge(g, n, t) {
      assert (n, t).1 in Successors(g, n);
    }
  }

  lemma ForkHere(g: PlanGraph, n: Name)
    requires |Successors(g, n)| > 1
    ensures ForkAbove(g, n)
  {
    assert LeadsToFork(g, n, [n]);
  }

  lemma NoForkAtTop(g: PlanGraph, n: Name)
    requires Successors(g, n) == {}
    ensures !ForkAbove(g, n)
  {
    if path :| LeadsToFork(g, n, path) {
      if |path| > 1 {
        InSuccessors(g, n, path[1]);
      }
    }
  }

  /** If there is one way up, the fork is above if it is above that. */
  lemma ForkFurtherUp(g: PlanGraph, n: Name, t: Name)
    requires Successors(g, n) == {t}
    ensures ForkAbove(g, n) <==> ForkAbove(g, t)
  {
    if path :| LeadsToFork(g, n, path) {
      if |path| > 1 {
        InSuccessors(g, n, path[1]);
        assert LeadsToFork(g, t, path[1..]);
      }
    }
    if path :| LeadsToFork(g, t, path) {
      InSuccessors(g, n, t);
      var longer := [n] + path;
      assert forall k :: 0 < k < |longer| - 1 ==> longer[k] == path[k - 1] && longer[k + 1] == path[k];
      assert LeadsToFork(g, n, longer);
    }
  }

  lemma OneOf(s: set<Name>, t: Name)
    requires t in s && |s| == 1
    ensures s == {t}
  {
    assert |s - {t}| == 0;
  }

  /** The groups around a node, or nothing where the walk's assertion fails: it does if a fork is above. */
  method ContainingGroupsOrFail(g: PlanGraph, node: Name, ghost rank: map<Name, nat>) returns (r: Option<seq<Name>>)
    requires Ranks(g, rank)
    ensures r.None? <==> ForkAbove(g, node)
  {
    var result, n := [], node;
    var succ := Successors(g, n);
    while succ != {}
      invariant succ == Successors(g, n) && (ForkAbove(g, node) <==> ForkAbove(g, n))
      decreases if n in rank then rank[n] + 1 else if succ == {} then 0 else 1
    {
      if |succ| != 1 {
        ForkHere(g, n);
        return None;
      }
      var t :| t in succ;
      OneOf(succ, t);
      InSuccessors(g, n, t);
      ForkFurtherUp(g, n, t);
      n := t;
      if g.nodes[n].group {
        result := result + [n];
      }
      succ := Successors(g, n);
    }
    NoForkAtTop(g, n);
    r := Some(result);
  }

  // ---------- the expansion ----------

  /** A step of the expansion builds the instance number `index` of an element in some instance. */
  datatype Step = Step(element: Name, index: nat)

  /** An instance, named by the steps that lead to it from the root: it is in the instance without the last one. */
  type Instance = seq<Step>

  predicate StepOk(g: PlanGraph, s: Step) {
    s.element in g.nodes && s.index < NonNegative(g.nodes[s.element].current)
  }

  /** `p` is an instance of `x`, directly in the instance `above`, or is further down in one. */
  ghost predicate Below(g: PlanGraph, above: Instance, x: Name, p: Instance) {
    && |above| < |p| && above <= p && p[|above|].element == x
    && (forall k :: |above| <= k < |p| ==> StepOk(g, p[k]))
    && forall k :: |above| < k < |p| ==> ContainmentEdge(g, p[k].element, p[k - 1].element)
  }

  /** Everything that is expanded from `root`. */
  ghost predicate Expanded(g: PlanGraph, root: Name, all: set<Instance>) {
    forall p :: p in all <==> Below(g, [], root, p)
  }

  function Contents(g: PlanGraph, x: Name): (r: set<Name>)
    ensures forall c :: c in r <==> ContainmentEdge(g, c, x)
  {
    var r := set e | e in g.edges && e.1 == x && IsContainment(g.edges[e].relationship) :: e.0;
    assert forall c :: ContainmentEdge(g, c, x) ==> (c, x).0 in r;
    r
  }

  /** What is below an instance is it, or below one of its contents. */
  lemma BelowHere(g: PlanGraph, above: Instance, x: Name, i: nat, p: Instance)
    requires StepOk(g, Step(x, i))
    ensures Below(g, above, x, p) && p[|above|].index == i <==>
      p == above + [Step(x, i)] || exists c :: ContainmentEdge(g, c, x) && Below(g, above + [Step(x, i)], c, p)
  {
    var here := above + [Step(x, i)];
    if Below(g, above, x, p) && p[|above|].index == i && |p| > |here| {
      assert p[|here| - 1] == Step(x, i);
      assert Below(g, here, p[|here|].element, p);
    }
    if c :| ContainmentEdge(g, c, x) && Below(g, here, c, p) {
      assert p[|above|] == here[|above|];
    }
  }

  /** Builds the tree of `x` in one instance: each instance of `x` with the trees of what `x` contains. */
  method BuildTree(g: PlanGraph, x: Name, above: Instance, ghost rank: map<Name, nat>, ghost bound: nat)
    returns (all: set<Instance>)
    requires Ranks(g, rank) && x in g.nodes && forall y :: y in rank ==> rank[y] <= bound
    ensures forall p :: p in all <==> Below(g, above, x, p)
    decreases if x in rank then bound - rank[x] else bound + 1
  {
    all := {};
    for i := 0 to NonNegative(g.nodes[x].current)
      invariant forall p: Instance :: p in all <==> Below(g, above, x, p) && p[|above|].index < i
    {
      var here := above + [Step(x, i)];
      var trees := BuildContents(g, x, here, rank, bound);
      forall p: Instance ensures p in all + {here} + trees <==> Below(g, above, x, p) && p[|above|].index < i + 1 {
        BelowHere(g, above, x, i, p);
      }
      all := all + {here} + trees;
    }
  }

  method BuildContents(g: PlanGraph, x: Name, here: Instance, ghost rank: map<Name, nat>, ghost bound: nat)
    returns (all: set<Instance>)
    requires Ranks(g, rank) && x in g.nodes && forall y :: y in rank ==> rank[y] <= bound
    ensures forall p :: p in all <==> exists c :: ContainmentEdge(g, c, x) && Below(g, here, c, p)
    decreases if x in rank then bound - rank[x] else bound + 1, 0
  {
    all := {};
    var todo := Contents(g, x);
    while todo != {}
      invariant todo <= Contents(g, x)
      invariant forall p :: p in all <==> exists c :: ContainmentEdge(g, c, x) && c !in todo && Below(g, here, c, p)
      decreases todo
    {
      var c :| c in todo;
      var tree := BuildTree(g, c, here, rank, bound);
      all, todo := all + tree, todo - {c};
    }
  }

  lemma {:induction false} Bounded(rank: map<Name, nat>) returns (bound: nat)
    ensures forall y :: y in rank ==> rank[y] <= bound
  {
    if rank == map[] {
      bound := 0;
    } else {
      var x :| x in rank;
      var rest := Bounded(rank - {x});
      assert forall y :: y in rank && y != x ==> y in rank - {x} && rank[y] == (rank - {x})[y];
      bound := if rest < rank[x] then rank[x] else rest;
    }
  }

  /** The expansion of one connected part of the plan, from the one root that is taken. */
  method Expand(g: PlanGraph, root: Name, ghost rank: map<Name, nat>) returns (all: set<Instance>)
    requires Ranks(g, rank) && root in g.nodes && Successors(g, root) == {}
    ensures Expanded(g, root, all)
  {
    ghost var bound := Bounded(rank);
    all := BuildTree(g, root, [], rank, bound);
  }

  // ---------- what it amounts to ----------

  function Last(p: Instance): Name
    requires p != []
  {
    p[|p| - 1].element
  }

  ghost function Of(all: set<Instance>, x: Name): set<Instance> {
    set p | p in all && p != [] && Last(p) == x
  }

  /** The instances of the containers of `x`. */
  ghost function Holders(g: PlanGraph, all: set<Instance>, x: Name): set<Instance> {
    set p | p in all && p != [] && ContainmentEdge(g, x, Last(p))
  }

  /** Whatever contains it, an instance gets all instances of what it may contain, and is in one of its containers. */
  lemma KidsExactly(g: PlanGraph, root: Name, all: set<Instance>, w: Instance, x: Name, i: nat)
    requires Expanded(g, root, all) && x in g.nodes && w != []
    ensures w + [Step(x, i)] in all <==>
      w in all && ContainmentEdge(g, x, Last(w)) && i < NonNegative(g.nodes[x].current)
  {
    var p := w + [Step(x, i)];
    assert p[|w|] == Step(x, i) && p[|w| - 1] == w[|w| - 1];
    assert forall k :: 0 <= k < |w| ==> p[k] == w[k];
    if Below(g, [], root, p) {
      assert StepOk(g, p[|w|]) && ContainmentEdge(g, p[|w|].element, p[|w| - 1].element);
      assert forall k :: 0 <= k < |w| ==> StepOk(g, p[k]);
      assert Below(g, [], root, w);
    }
  }

  /** Only what the chosen root is or contains is expanded; an element that is in nothing else is lost. */
  lemma OtherRootsLost(g: PlanGraph, root: Name, all: set<Instance>, x: Name)
    requires Expanded(g, root, all) && x != root && Successors(g, x) == {}
    ensures Of(all, x) == {}
  {
    forall p: Instance | p in all && p != [] ensures Last(p) != x {
      if |p| > 1 {
        InSuccessors(g, Last(p), p[|p| - 2].element);
      }
    }
  }

  ghost function KidsOf(holders: set<Instance>, x: Name, n: nat): set<Instance> {
    set w, i | w in holders && 0 <= i < n :: w + [Step(x, i)]
  }

  lemma KidsOfIs(holders: set<Instance>, x: Name, n: nat, p: Instance)
    ensures p in KidsOf(holders, x, n) <==>
      p != [] && p[..|p| - 1] in holders && p[|p| - 1].element == x && p[|p| - 1].index < n
  {
    if w, i :| w in holders && 0 <= i < n && p == w + [Step(x, i)] {
      assert p[..|p| - 1] == w;
    }
    if p != [] && p[..|p| - 1] in holders && p[|p| - 1].element == x && p[|p| - 1].index < n {
      assert p == p[..|p| - 1] + [Step(x, p[|p| - 1].index)];
    }
  }

  lemma {:induction false} KidsOfOne(w: Instance, x: Name, n: nat)
    ensures |KidsOf({w}, x, n)| == n
  {
    if n == 0 {
      assert KidsOf({w}, x, n) == {};
    } else {
      KidsOfOne(w, x, n - 1);
      var last := w + [Step(x, n - 1)];
      forall p ensures p in KidsOf({w}, x, n) <==> p in KidsOf({w}, x, n - 1) || p == last {
        KidsOfIs({w}, x, n, p);
        KidsOfIs({w}, x, n - 1, p);
        assert p != [] ==> p == p[..|p| - 1] + [p[|p| - 1]];
      }
      KidsOfIs({w}, x, n - 1, last);
      assert KidsOf({w}, x, n) == KidsOf({w}, x, n - 1) + {last};
    }
  }

  lemma {:induction false} KidsCount(holders: set<Instance>, x: Name, n: nat)
    ensures |KidsOf(holders, x, n)| == |holders| * n
  {
    if holders == {} {
      KidsOfNone(x, n);
    } else {
      var w :| w in holders;
      KidsCount(holders - {w}, x, n);
      KidsOfOne(w, x, n);
      KidsSplit(w, holders, x, n);
      OneHolderMore(|holders - {w}|, n);
      assert |holders| == |holders - {w}| + 1;
    }
  }

  lemma KidsSplit(w: Instance, holders: set<Instance>, x: Name, n: nat)
    requires w in holders
    ensures KidsOf(holders, x, n) == KidsOf({w}, x, n) + KidsOf(holders - {w}, x, n)
    ensures |KidsOf(holders, x, n)| == |KidsOf({w}, x, n)| + |KidsOf(holders - {w}, x, n)|
  {
    forall p
      ensures p in KidsOf(holders, x, n) <==> p in KidsOf({w}, x, n) + KidsOf(holders - {w}, x, n)
      ensures p in KidsOf({w}, x, n) ==> p !in KidsOf(holders - {w}, x, n)
    {
      KidsOfIs(holders, x, n, p);
      KidsOfIs({w}, x, n, p);
      KidsOfIs(holders - {w}, x, n, p);
    }
  }

  lemma KidsOfNone(x: Name, n: nat)
    ensures KidsOf({}, x, n) == {}
  {
  }

  lemma OneHolderMore(k: nat, n: nat)
    ensures (k + 1) * n == k * n + n
  {
  }

  /** So there are as many instances as all containers together have, times the element's own number. */
  lemma CountExactly(g: PlanGraph, root: Name, all: set<Instance>, x: Name)
    requires Expanded(g, root, all) && x in g.nodes && x != root
    ensures |Of(all, x)| == |Holders(g, all, x)| * NonNegative(g.nodes[x].current)
  {
    var holders, n := Holders(g, all, x), NonNegative(g.nodes[x].current);
    forall p: Instance ensures p in Of(all, x) <==> p in KidsOf(holders, x, n) {
      KidsOfIs(holders, x, n, p);
      if p != [] && Last(p) == x {
        if |p| > 1 {
          assert p == p[..|p| - 1] + [Step(x, p[|p| - 1].index)];
          KidsExactly(g, root, all, p[..|p| - 1], x, p[|p| - 1].index);
        }
      }
    }
    assert Of(all, x) == KidsOf(holders, x, n);
    KidsCount(holders, x, n);
  }

  lemma RootCount(g: PlanGraph, root: Name, all: set<Instance>)
    requires Expanded(g, root, all) && root in g.nodes && Successors(g, root) == {}
    ensures |Of(all, root)| == NonNegative(g.nodes[root].current)
  {
    var n := NonNegative(g.nodes[root].current);
    forall p: Instance ensures p in Of(all, root) <==> p in KidsOf({[]}, root, n) {
      KidsOfIs({[]}, root, n, p);
      if |p| > 1 {
        InSuccessors(g, root, p[|p| - 2].element);
      }
    }
    assert Of(all, root) == KidsOf({[]}, root, n);
    KidsOfOne([], root, n);
  }

  ghost function OfAny(all: set<Instance>, some: set<Name>): set<Instance> {
    set p | p in all && p != [] && Last(p) in some
  }

  lemma HoldersAre(g: PlanGraph, all: set<Instance>, x: Name)
    ensures Holders(g, all, x) == OfAny(all, Successors(g, x))
  {
    forall p: Instance | p != [] ensures ContainmentEdge(g, x, Last(p)) <==> Last(p) in Successors(g, x) {
      InSuccessors(g, x, Last(p));
    }
  }

  /** The instances of several elements add up. */
  lemma OneMoreContainer(all: set<Instance>, some: set<Name>, y: Name)
    requires y !in some
    ensures |OfAny(all, some + {y})| == |OfAny(all, some)| + |Of(all, y)|
  {
    assert OfAny(all, some + {y}) == OfAny(all, some) + Of(all, y);
    assert OfAny(all, some) !! Of(all, y);
  }
}
