/**
  A plan that the parser hands on as it is written, although the members of its group are in different
  containers: what is expanded from it, and what becomes of a connection between the members.
*/
module ApartExamples {
  import opened Names
  import opened Forests
  import opened Graphs
  import opened PlanBuilder
  import opened PlanGroups
  import opened MemberCheck
  import opened MemberExamples
  import opened PlanValidation
  import opened Forks

  function Connected(target: Name): Relationship {
    Relationship(CONNECTED_TO, [DEPENDS_ON, CONNECTED_TO], target, Some(ALL_TO_ALL), None)
  }

  lemma ConnectedIsNot(target: Name)
    ensures !IsContained(Connected(target)) && GROUP_CONTAINED_IN !in Connected(target).hierarchy
    ensures CONNECTED_TO in Connected(target).hierarchy
  {
    assert Connected(target).hierarchy[1] == CONNECTED_TO;
    assert DEPENDS_ON != CONTAINED_IN && CONNECTED_TO != CONTAINED_IN by {
      assert DEPENDS_ON[23] == 'd' && CONNECTED_TO[25] == 'n' && CONTAINED_IN[23] == 'c' && CONTAINED_IN[26] == 't';
    }
  }

  /**
    Two hosts `p` and `q` in one rack `r`, and a group `g` of two nodes: `a` in `p`, which may be connected to
    the other one, and `b` in `q`.
  */
  datatype Apart = Apart(r: Name, p: Name, q: Name, a: Name, b: Name, g: Name, connected: bool) {
    ghost predicate NamesApart() {
      r !in {p, q, a, b, g} && p !in {q, a, b, g} && q !in {a, b, g} && a !in {b, g} && b != g
    }

    function Nodes(): seq<NodeDef> {
      [NodeDef(r, 1, []), NodeDef(p, 1, [In(r)]), NodeDef(q, 1, [In(r)]),
       NodeDef(a, 1, if connected then [In(p), Connected(b)] else [In(p)]), NodeDef(b, 1, [In(q)])]
    }

    function Groups(): seq<GroupDef> {
      [GroupDef(g, 1, [a, b])]
    }

    function GroupsOf(): map<Name, Name> {
      map[a := g, b := g]
    }

    function ContainersOf(): map<Name, Name> {
      map[p := r, q := r, a := p, b := q]
    }
  }

  lemma ApartGroupOf(pl: Apart)
    ensures GroupOf(pl.Groups()) == pl.GroupsOf()
  {
    OneMoreGroup([], pl.Groups()[0]);
    assert pl.Groups() == [] + [pl.Groups()[0]];
  }

  lemma ApartContainers(pl: Apart)
    requires pl.NamesApart()
    ensures Containers(pl.Nodes()) == pl.ContainersOf()
  {
    var ns := pl.Nodes();
    assert ns[..0] == [] && ns[..5] == ns;
    InContains(pl.r);
    InContains(pl.p);
    InContains(pl.q);
    OneMore(ns, 0, map[]);
    OneMore(ns, 1, map[]);
    OneMore(ns, 2, map[pl.p := pl.r]);
    OneMore(ns, 3, map[pl.p := pl.r, pl.q := pl.r]);
    OneMore(ns, 4, map[pl.p := pl.r, pl.q := pl.r, pl.a := pl.p]);
  }

  lemma ApartAcyclic(pl: Apart)
    requires pl.NamesApart()
    ensures Acyclic(pl.GroupsOf()) && Acyclic(pl.ContainersOf())
  {
    assert Ranked(pl.GroupsOf(), map[pl.a := 1, pl.b := 1, pl.g := 0]);
    assert Ranked(pl.ContainersOf(), map[pl.r := 0, pl.p := 1, pl.q := 1, pl.a := 2, pl.b := 2]);
  }

  lemma ApartNodes(pl: Apart)
    requires pl.NamesApart()
    ensures AllNodes(pl.Nodes())
  {
    var ns := pl.Nodes();
    assert ns[0].id == pl.r && ns[1].id == pl.p && ns[2].id == pl.q && ns[4].id == pl.b;
    PlainNode(ns, ns[0]);
    PlainNode(ns, ns[1]);
    PlainNode(ns, ns[2]);
    PlainNode(ns, ns[4]);
    ConnectedIsNot(pl.b);
    InContains(pl.p);
  }

  lemma ApartMembers(pl: Apart)
    requires pl.NamesApart()
    ensures OwnNames(pl.Nodes(), pl.Groups()) && MembersKnown(pl.Nodes(), pl.Groups())
  {
    assert pl.Nodes()[3].id == pl.a && pl.Nodes()[4].id == pl.b;
  }

  lemma ApartValidated(pl: Apart)
    requires pl.NamesApart()
    ensures Validated(pl.Nodes(), pl.Groups())
  {
    ApartNodes(pl);
    ApartMembers(pl);
    ApartGroupOf(pl);
    ApartAcyclic(pl);
    AllValidated(pl.Nodes(), pl.Groups());
  }

  lemma ApartAbove(pl: Apart)
    requires pl.NamesApart() && Acyclic(pl.ContainersOf()) && Acyclic(pl.GroupsOf())
    ensures Chain(pl.ContainersOf(), pl.a) == [pl.p, pl.r] && Chain(pl.ContainersOf(), pl.b) == [pl.q, pl.r]
    ensures forall x :: Chain(pl.GroupsOf(), x) == if x == pl.a || x == pl.b then [pl.g] else []
  {
    ChainOfTwo(pl.ContainersOf(), pl.a);
    ChainOfTwo(pl.ContainersOf(), pl.b);
    ChainOfOne(pl.GroupsOf(), pl.a);
    ChainOfOne(pl.GroupsOf(), pl.b);
  }

  lemma ApartPairs(pl: Apart, ns: seq<NodeDef>)
    requires pl.NamesApart() && Acyclic(pl.GroupsOf()) && Acyclic(pl.ContainersOf()) &&
      Containers(ns) == pl.ContainersOf()
    ensures Problematic(ns, pl.GroupsOf()) == {}
  {
    var gof, containers := pl.GroupsOf(), Containers(ns);
    ApartAbove(pl);
    assert pl.r == Chain(containers, pl.a)[1] && pl.r == Chain(containers, pl.b)[1];
    forall q | q in Pairs(ns, gof) ensures PairOk(containers, q) {
      var c, d :| c in NodeNames(ns) && d in NodeNames(ns) && ShareGroup(gof, c, d) && q == {c, d};
      assert pl.r in Chain(containers, c) && pl.r in Chain(containers, d);
      PairOkIs(containers, c, d);
    }
  }

  lemma ApartNoneToRemove(pl: Apart, ns: seq<NodeDef>)
    requires pl.NamesApart() && Acyclic(pl.GroupsOf()) && Acyclic(pl.ContainersOf()) &&
      Containers(ns) == pl.ContainersOf()
    ensures NoneToRemove(ns, pl.GroupsOf())
  {
    ApartAbove(pl);
  }

  lemma NoProblem(ns: seq<NodeDef>, gof: map<Name, Name>)
    requires Acyclic(gof) && Acyclic(Containers(ns)) && Problematic(ns, gof) == {}
    ensures AcceptedInOrder(ns, gof, [])
  {
  }

  /** All pairs pass at once, and nothing has to be taken out. */
  lemma ApartAccepted(pl: Apart)
    requires pl.NamesApart()
    ensures Accepted(pl.Nodes(), pl.Groups()) && HandedOn(pl.Nodes(), pl.Groups()) == pl.Groups()
  {
    var ns := pl.Nodes();
    ApartValidated(pl);
    ApartGroupOf(pl);
    ApartContainers(pl);
    ApartAcyclic(pl);
    ApartPairs(pl, ns);
    NoProblem(ns, pl.GroupsOf());
    ApartNoneToRemove(pl, ns);
    HandedUnchangedExactly(ns, pl.Groups());
  }

  lemma ApartNotShared(pl: Apart)
    requires pl.NamesApart() && Acyclic(pl.GroupsOf())
    ensures !SharedContainer(pl.Nodes(), pl.GroupsOf())
  {
    var ns, gof := pl.Nodes(), pl.GroupsOf();
    InContains(pl.p);
    InContains(pl.q);
    assert Lifts(ns, gof, 3, 0) && Lifts(ns, gof, 4, 0);
    assert Path(gof, pl.g) == [pl.g];
    assert Lifted(ns, gof, 3, 0) == (pl.g, pl.p) && Lifted(ns, gof, 4, 0) == (pl.g, pl.q);
  }

  /** The parser hands this plan on as it is, though its group has two containers. */
  lemma AcceptedButApart(pl: Apart)
    requires pl.NamesApart()
    ensures Accepted(pl.Nodes(), pl.Groups()) && HandedOn(pl.Nodes(), pl.Groups()) == pl.Groups()
    ensures !SharedContainer(pl.Nodes(), GroupOf(pl.Groups()))
  {
    ApartAccepted(pl);
    ApartGroupOf(pl);
    ApartNotShared(pl);
  }

  // ---------- the graph of the plan ----------

  /** A graph that is built from the plan. */
  ghost predicate GraphOf(pl: Apart, g: PlanGraph) {
    && Acyclic(pl.GroupsOf()) && Built(pl.Nodes(), pl.GroupsOf(), g.edges, |pl.Nodes()|, 0)
    && Shows(RedirectedNodes(pl.GroupsOf(), pl.Nodes()), pl.Groups(), g.nodes)
  }

  lemma ApartRels(pl: Apart)
    requires pl.NamesApart()
    ensures forall i, k ::
      Rel(pl.Nodes(), i, k) && IsContained(pl.Nodes()[i].relationships[k]) <==> 1 <= i <= 4 && k == 0
    ensures forall i :: 1 <= i <= 4 ==>
      pl.Nodes()[i].relationships[0] == In(if i == 3 then pl.p else if i == 4 then pl.q else pl.r)
  {
    ConnectedIsNot(pl.b);
    InContains(pl.r);
    InContains(pl.p);
    InContains(pl.q);
  }

  ghost predicate ApartEdge(pl: Apart, s: Name, t: Name) {
    || (s == pl.a && t == pl.g) || (s == pl.b && t == pl.g) || (s == pl.g && t == pl.p) || (s == pl.g && t == pl.q)
    || (s == pl.p && t == pl.r) || (s == pl.q && t == pl.r)
  }

  lemma ApartPlanned(pl: Apart, s: Name, t: Name)
    requires pl.NamesApart() && Acyclic(pl.GroupsOf())
    ensures PlanContainer(pl.Nodes(), pl.GroupsOf(), s, t) <==> ApartEdge(pl, s, t)
  {
    var ns, gof := pl.Nodes(), pl.GroupsOf();
    ApartRels(pl);
    assert Path(gof, pl.g) == [pl.g];
    assert ns[1].id == pl.p && ns[2].id == pl.q && ns[3].id == pl.a && ns[4].id == pl.b;
    assert Lifted(ns, gof, 3, 0) == (pl.g, pl.p) && Lifted(ns, gof, 4, 0) == (pl.g, pl.q);
    assert Uncovered(ns, gof, 1, 0) && Primary(ns, gof, 1, 0) == (pl.p, pl.r);
    assert Uncovered(ns, gof, 2, 0) && Primary(ns, gof, 2, 0) == (pl.q, pl.r);
  }

  lemma ApartEdges(pl: Apart, g: PlanGraph, s: Name, t: Name)
    requires pl.NamesApart() && GraphOf(pl, g)
    ensures ContainmentEdge(g, s, t) <==> ApartEdge(pl, s, t)
  {
    ApartGroupOf(pl);
    ApartValidated(pl);
    ValidatedSeparate(pl.Nodes(), pl.Groups());
    ContainmentIsPlan(pl.Nodes(), pl.GroupsOf(), g, s, t);
    ApartPlanned(pl, s, t);
  }

  /** What there is to see in such a graph. */
  ghost predicate Looks(pl: Apart, g: PlanGraph) {
    && (forall s, t :: ContainmentEdge(g, s, t) <==> ApartEdge(pl, s, t))
    && (forall x :: x in g.nodes <==> x in {pl.r, pl.p, pl.q, pl.a, pl.b, pl.g})
    && (forall x :: x in g.nodes ==> g.nodes[x].current == 1 && (g.nodes[x].group <==> x == pl.g))
    && (forall e :: e in g.edges ==> e.0 in g.nodes && e.1 in g.nodes)
  }

  /** The nodes keep their names and counts when they are redirected. */
  ghost predicate ApartNamed(pl: Apart, ns: seq<NodeDef>) {
    && |ns| == 5 && (forall i :: 0 <= i < 5 ==> ns[i].current == 1)
    && ns[0].id == pl.r && ns[1].id == pl.p && ns[2].id == pl.q && ns[3].id == pl.a && ns[4].id == pl.b
  }

  lemma ApartRedirected(pl: Apart)
    ensures ApartNamed(pl, RedirectedNodes(pl.GroupsOf(), pl.Nodes()))
  {
  }

  lemma ApartShown(pl: Apart, ns: seq<NodeDef>, m: map<Name, PlanNode>)
    requires pl.NamesApart() && ApartNamed(pl, ns) && Shows(ns, pl.Groups(), m)
    ensures forall x :: x in m <==> x in {pl.r, pl.p, pl.q, pl.a, pl.b, pl.g}
    ensures forall x :: x in m ==> m[x].current == 1 && (m[x].group <==> x == pl.g)
  {
    assert pl.Groups()[0].name == pl.g;
  }

  lemma ApartNames(pl: Apart, x: Name)
    requires IsNode(pl.Nodes(), x) || IsGroup(pl.Groups(), x)
    ensures x in {pl.r, pl.p, pl.q, pl.a, pl.b, pl.g}
  {
  }

  lemma ApartLooks(pl: Apart, g: PlanGraph)
    requires pl.NamesApart() && GraphOf(pl, g)
    ensures Looks(pl, g)
  {
    ApartRedirected(pl);
    ApartShown(pl, RedirectedNodes(pl.GroupsOf(), pl.Nodes()), g.nodes);
    forall s, t ensures ContainmentEdge(g, s, t) <==> ApartEdge(pl, s, t) {
      ApartEdges(pl, g, s, t);
    }
    ApartGroupOf(pl);
    ApartValidated(pl);
    forall e | e in g.edges ensures e.0 in g.nodes && e.1 in g.nodes {
      EndpointsKnown(pl.Nodes(), pl.Groups(), g.edges, e);
      ApartNames(pl, e.0);
      ApartNames(pl, e.1);
    }
  }

  lemma ApartUp(pl: Apart, g: PlanGraph)
    requires pl.NamesApart() && Looks(pl, g)
    ensures Successors(g, pl.a) == Successors(g, pl.b) == {pl.g} && Successors(g, pl.g) == {pl.p, pl.q}
    ensures Successors(g, pl.p) == Successors(g, pl.q) == {pl.r} && Successors(g, pl.r) == {}
  {
    UpIs(pl, g, pl.a, {pl.g});
    UpIs(pl, g, pl.b, {pl.g});
    UpIs(pl, g, pl.g, {pl.p, pl.q});
    UpIs(pl, g, pl.p, {pl.r});
    UpIs(pl, g, pl.q, {pl.r});
    UpIs(pl, g, pl.r, {});
  }

  lemma UpIs(pl: Apart, g: PlanGraph, s: Name, above: set<Name>)
    requires pl.NamesApart() && Looks(pl, g) && forall t :: t in above <==> ApartEdge(pl, s, t)
    ensures Successors(g, s) == above
  {
    forall t ensures t in Successors(g, s) <==> t in above {
      InSuccessors(g, s, t);
    }
  }

  /** Walking up from either member, the group is found to have two containers. */
  lemma ApartForks(pl: Apart, g: PlanGraph)
    requires pl.NamesApart() && Looks(pl, g)
    ensures ForkAbove(g, pl.a) && ForkAbove(g, pl.b)
  {
    ApartUp(pl, g);
    assert |{pl.p, pl.q}| == 2;
    ForkHere(g, pl.g);
    ForkFurtherUp(g, pl.a, pl.g);
    ForkFurtherUp(g, pl.b, pl.g);
  }

  /** Which is done for the connection, if there is one. */
  lemma ApartConnection(pl: Apart, g: PlanGraph)
    requires pl.NamesApart() && GraphOf(pl, g) && pl.connected
    ensures (pl.a, pl.b) in g.edges && IsConnection(g.edges[(pl.a, pl.b)].relationship)
  {
    var ns, gof := pl.Nodes(), pl.GroupsOf();
    ConnectedIsNot(pl.b);
    assert ns[3].relationships[1] == Connected(pl.b) && ns[3].id == pl.a;
    assert Before(ns, |ns|, 0, 3, 1);
    assert RelationshipIn(ns, gof, g.edges, 3, 1);
    assert Primary(ns, gof, 3, 1) == (pl.a, pl.b);
  }

  // ---------- the expansion ----------

  lemma ApartRanks(pl: Apart, g: PlanGraph)
    requires pl.NamesApart() && Looks(pl, g)
    ensures Ranks(g, map[pl.r := 0, pl.p := 1, pl.q := 1, pl.g := 2, pl.a := 3, pl.b := 3])
  {
  }

  /** One in each container. */
  lemma OneEach(pl: Apart, g: PlanGraph, all: set<Instance>, x: Name, y: Name)
    requires pl.NamesApart() && Looks(pl, g) && Expanded(g, pl.r, all)
    requires x in g.nodes && x != pl.r && Successors(g, x) == {y}
    ensures |Of(all, x)| == |Of(all, y)|
  {
    CountExactly(g, pl.r, all, x);
    HoldersAre(g, all, x);
    assert OfAny(all, {y}) == Of(all, y);
  }

  /** Every declared number is one, and yet there are two instances of the group and of each of its members. */
  lemma ApartDoubled(pl: Apart, g: PlanGraph, all: set<Instance>)
    requires pl.NamesApart() && Looks(pl, g) && Expanded(g, pl.r, all)
    ensures |Of(all, pl.p)| == |Of(all, pl.q)| == 1
    ensures |Of(all, pl.g)| == |Of(all, pl.a)| == |Of(all, pl.b)| == 2
  {
    ApartUp(pl, g);
    RootCount(g, pl.r, all);
    OneEach(pl, g, all, pl.p, pl.r);
    OneEach(pl, g, all, pl.q, pl.r);
    CountExactly(g, pl.r, all, pl.g);
    HoldersAre(g, all, pl.g);
    OneMoreContainer(all, {pl.p}, pl.q);
    assert {pl.p} + {pl.q} == {pl.p, pl.q} && OfAny(all, {pl.p}) == Of(all, pl.p);
    OneEach(pl, g, all, pl.a, pl.g);
    OneEach(pl, g, all, pl.b, pl.g);
  }

  /** And `b`, which is declared to be in `q`, has an instance in `p`: nothing but the group's is in between. */
  lemma ApartMisplaced(pl: Apart, g: PlanGraph, all: set<Instance>)
    requires pl.NamesApart() && Looks(pl, g) && Expanded(g, pl.r, all)
    ensures [Step(pl.r, 0), Step(pl.p, 0), Step(pl.g, 0), Step(pl.b, 0)] in all
    ensures pl.b in Containers(pl.Nodes()) && Containers(pl.Nodes())[pl.b] == pl.q
  {
    ApartContainers(pl);
    var instance := [Step(pl.r, 0), Step(pl.p, 0), Step(pl.g, 0), Step(pl.b, 0)];
    assert Below(g, [], pl.r, instance);
  }

  /**
    What a fresh deployment makes of the plan: two instances of each member, one of them not in the declared
    container; and if the members are connected, the walk for that connection, both ends of which have
    instances, fails.
  */
  method ExpandApart(pl: Apart, g: PlanGraph) returns (all: set<Instance>, groups: Option<seq<Name>>)
    requires pl.NamesApart() && GraphOf(pl, g)
    ensures Expanded(g, pl.r, all) && |Of(all, pl.a)| == |Of(all, pl.b)| == 2
    ensures [Step(pl.r, 0), Step(pl.p, 0), Step(pl.g, 0), Step(pl.b, 0)] in all
    ensures pl.b in Containers(pl.Nodes()) && Containers(pl.Nodes())[pl.b] == pl.q
    ensures groups.None?
    ensures pl.connected ==> (pl.a, pl.b) in g.edges && IsConnection(g.edges[(pl.a, pl.b)].relationship)
  {
    ApartLooks(pl, g);
    ApartRanks(pl, g);
    ApartUp(pl, g);
    ghost var rank: map<Name, nat> := map[pl.r := 0, pl.p := 1, pl.q := 1, pl.g := 2, pl.a := 3, pl.b := 3];
    all := Expand(g, pl.r, rank);
    ApartDoubled(pl, g, all);
    ApartMisplaced(pl, g, all);
    groups := ContainingGroupsOrFail(g, pl.a, rank);
    ApartForks(pl, g);
    if pl.connected {
      ApartConnection(pl, g);
    }
  }

  /** There are such names. */
  const APART := Apart("r", "p", "q", "a", "b", "g", true)

  lemma ApartExists()
    ensures APART.NamesApart()
  {
    var pl := APART;
    assert pl.r[0] == 'r' && pl.p[0] == 'p' && pl.q[0] == 'q' && pl.a[0] == 'a' && pl.b[0] == 'b' && pl.g[0] == 'g';
  }
}
