/**
  Plans whose groups the parser accepts because of members that it then takes out of them.
*/
module MemberExamples {
  import opened Names
  import opened Forests
  import opened Graphs
  import opened PlanBuilder
  import opened MemberCheck
  import opened PlanValidation

  function In(target: Name): Relationship {
    Relationship(CONTAINED_IN, [DEPENDS_ON, CONTAINED_IN], target, None, None)
  }

  lemma InContains(target: Name)
    ensures IsContained(In(target)) && GROUP_CONTAINED_IN !in In(target).hierarchy
  {
    assert In(target).hierarchy[1] == CONTAINED_IN && In(target).hierarchy[0] == DEPENDS_ON;
  }

  /** A node with at most one relationship, to a known node that contains it. */
  lemma PlainNode(ns: seq<NodeDef>, n: NodeDef)
    requires n.relationships == [] || exists t :: IsNode(ns, t) && n.relationships == [In(t)]
    ensures ValidatedNode(ns, n)
  {
    if n.relationships != [] {
      var t :| IsNode(ns, t) && n.relationships == [In(t)];
      InContains(t);
    }
  }

  /** The containers of the first nodes, one more at a time. */
  lemma OneMore(ns: seq<NodeDef>, n: nat, m: map<Name, Name>)
    requires n < |ns| && Containers(ns[..n]) == m
    ensures var c := DeclaredContainer(ns[n].relationships);
      Containers(ns[..n + 1]) == if c.Some? then m[ns[n].id := c.value] else m
  {
    assert ns[..n + 1][..n] == ns[..n];
  }

  lemma OneMoreGroup(groups: seq<GroupDef>, g: GroupDef)
    ensures GroupOf(groups + [g]) == GroupOf(groups) + map x | x in g.members :: g.name
  {
    assert (groups + [g])[..|groups|] == groups;
  }

  ghost predicate MembersKnown(ns: seq<NodeDef>, groups: seq<GroupDef>) {
    && (forall i, m :: 0 <= i < |groups| && m in groups[i].members ==> IsNode(ns, m) || IsGroup(groups, m))
    && forall i, j, m :: 0 <= i < |groups| && 0 <= j < |groups| && m in groups[i].members && m in groups[j].members ==>
      i == j
  }

  ghost predicate AllNodes(ns: seq<NodeDef>) {
    forall i :: 0 <= i < |ns| ==> ValidatedNode(ns, ns[i])
  }

  lemma AllValidated(ns: seq<NodeDef>, groups: seq<GroupDef>)
    requires OwnNames(ns, groups) && MembersKnown(ns, groups) && AllNodes(ns) && Acyclic(GroupOf(groups))
    ensures Validated(ns, groups)
  {
  }

  // ---------- a contained and an uncontained member ----------

  /** `a` is in `x`, and shares the group `g` with `b`, and `h` with `x`. */
  const MIXED_NODES := [NodeDef("x", 1, []), NodeDef("b", 1, []), NodeDef("a", 1, [In("x")])]
  const MIXED_GROUPS := [GroupDef("g", 1, ["a", "b"]), GroupDef("h", 1, ["g", "x"])]

  /** The later group comes first. */
  lemma TwoGroups(g: GroupDef, h: GroupDef, x: Name)
    ensures var gof := GroupOf([g, h]);
      && (x in gof <==> x in g.members || x in h.members)
      && (x in gof ==> gof[x] == if x in h.members then h.name else g.name)
  {
    OneMoreGroup([], g);
    OneMoreGroup([g], h);
    assert [g, h] == [g] + [h] && [] + [g] == [g];
  }

  lemma MixedGroupOf()
    ensures GroupOf(MIXED_GROUPS) == map["a" := "g", "b" := "g", "g" := "h", "x" := "h"]
  {
    var gof, m := GroupOf(MIXED_GROUPS), map["a" := "g", "b" := "g", "g" := "h", "x" := "h"];
    forall x ensures x in gof <==> x in m
      ensures x in gof ==> gof[x] == m[x]
    {
      TwoGroups(MIXED_GROUPS[0], MIXED_GROUPS[1], x);
      MixedGroupAt(x);
    }
  }

  lemma MixedGroupAt(x: Name)
    ensures var m := map["a" := "g", "b" := "g", "g" := "h", "x" := "h"];
      && (x in m <==> x in ["a", "b"] || x in ["g", "x"])
      && (x in m ==> m[x] == if x in ["g", "x"] then "h" else "g")
  {
  }

  lemma MixedContainers()
    ensures Containers(MIXED_NODES) == map["a" := "x"]
  {
    var ns := MIXED_NODES;
    assert ns[..0] == [] && ns[..3] == ns;
    InContains("x");
    OneMore(ns, 0, map[]);
    OneMore(ns, 1, map[]);
    OneMore(ns, 2, map[]);
  }

  lemma MixedNames()
    ensures NodeNames(MIXED_NODES) == {"a", "b", "x"}
  {
    var ns := MIXED_NODES;
    assert ns[0].id == "x" && ns[1].id == "b" && ns[2].id == "a";
    forall y | y in NodeNames(ns) ensures y in {"a", "b", "x"} {
      var i :| 0 <= i < |ns| && ns[i].id == y;
    }
  }

  lemma MixedOwnNames()
    ensures OwnNames(MIXED_NODES, MIXED_GROUPS)
  {
    var ns, groups := MIXED_NODES, MIXED_GROUPS;
    assert ns[0].id[0] == 'x' && ns[1].id[0] == 'b' && ns[2].id[0] == 'a';
    assert groups[0].name[0] == 'g' && groups[1].name[0] == 'h';
  }

  lemma MixedNodes()
    ensures AllNodes(MIXED_NODES)
    ensures IsNode(MIXED_NODES, "a") && IsNode(MIXED_NODES, "b") && IsNode(MIXED_NODES, "x")
  {
    var ns := MIXED_NODES;
    assert ns[0].id == "x" && ns[1].id == "b" && ns[2].id == "a";
    PlainNode(ns, ns[0]);
    PlainNode(ns, ns[1]);
    PlainNode(ns, ns[2]);
  }

  lemma MixedMembers()
    ensures MembersKnown(MIXED_NODES, MIXED_GROUPS)
  {
    var groups := MIXED_GROUPS;
    MixedNodes();
    assert groups[0] == GroupDef("g", 1, ["a", "b"]) && groups[1] == GroupDef("h", 1, ["g", "x"]);
    assert IsGroup(groups, "g") by {
      assert groups[0].name == "g";
    }
  }

  lemma MixedValidated()
    ensures Validated(MIXED_NODES, MIXED_GROUPS)
  {
    MixedOwnNames();
    MixedNodes();
    MixedMembers();
    MixedGroupOf();
    MixedChains(GroupOf(MIXED_GROUPS), map["a" := "x"]);
    AllValidated(MIXED_NODES, MIXED_GROUPS);
  }

  ghost predicate MixedAre(gof: map<Name, Name>, containers: map<Name, Name>) {
    gof == map["a" := "g", "b" := "g", "g" := "h", "x" := "h"] && containers == map["a" := "x"]
  }

  lemma MixedChains(gof: map<Name, Name>, containers: map<Name, Name>)
    requires MixedAre(gof, containers)
    ensures Acyclic(gof) && Acyclic(containers)
    ensures Chain(gof, "a") == ["g", "h"] && Chain(gof, "b") == ["g", "h"] && Chain(gof, "x") == ["h"]
    ensures Chain(containers, "a") == ["x"] && Chain(containers, "b") == [] && Chain(containers, "x") == []
  {
    assert Ranked(gof, map["a" := 2, "b" := 2, "g" := 1, "x" := 1, "h" := 0]);
    assert Ranked(containers, map["a" := 1, "x" := 0]);
    ChainOfTwo(gof, "a");
    ChainOfTwo(gof, "b");
    ChainOfOne(gof, "x");
    ChainOfOne(containers, "a");
  }

  lemma MixedRelated(gof: map<Name, Name>, containers: map<Name, Name>, a: Name, b: Name)
    requires MixedAre(gof, containers) && Acyclic(gof) && Acyclic(containers)
    requires a in {"a", "b", "x"} && b in {"a", "b", "x"}
    ensures ShareGroup(gof, a, b)
    ensures Related(containers, a, b) <==> {a, b} != {"a", "b"}
  {
    MixedChains(gof, containers);
    assert "h" in Chain(gof, a) && "h" in Chain(gof, b);
    assert {a, b} == {"a", "b"} <==> (a == "a" && b == "b") || (a == "b" && b == "a") by {
      if {a, b} == {"a", "b"} {
        assert "a" in {a, b} && "b" in {a, b};
      }
    }
  }

  lemma MixedPairs(ns: seq<NodeDef>, gof: map<Name, Name>)
    requires NodeNames(ns) == {"a", "b", "x"} && MixedAre(gof, Containers(ns)) && Acyclic(gof) &&
      Acyclic(Containers(ns))
    ensures Problematic(ns, gof) == {{"a", "b"}} && {"b", "x"} in OkPairs(ns, gof)
  {
    var containers := Containers(ns);
    forall p | p in Pairs(ns, gof) ensures PairOk(containers, p) <==> p != {"a", "b"} {
      var c, d :| c in NodeNames(ns) && d in NodeNames(ns) && p == {c, d};
      MixedRelated(gof, containers, c, d);
      PairOkIs(containers, c, d);
    }
    MixedRelated(gof, containers, "a", "b");
    MixedRelated(gof, containers, "b", "x");
    assert {"b", "x"} != {"a", "b"} by { assert "x" !in {"a", "b"}; }
  }

  /** `{a, b}` leans on `{b, x}`. */
  lemma MixedLeans(ns: seq<NodeDef>, gof: map<Name, Name>)
    requires NodeNames(ns) == {"a", "b", "x"} && MixedAre(gof, Containers(ns)) && Acyclic(gof) &&
      Acyclic(Containers(ns))
    ensures AcceptedInOrder(ns, gof, [{"a", "b"}])
  {
    var containers, p := Containers(ns), {"a", "b"};
    MixedPairs(ns, gof);
    MixedChains(gof, containers);
    assert Path(containers, "a") == ["a", "x"] && Path(containers, "a")[1] == "x";
    assert LeansOn(containers, OkPairs(ns, gof), "a", "b");
    assert Leans(containers, OkPairs(ns, gof), p);
    AllLean(containers, OkPairs(ns, gof), [p]);
    assert Elements([p]) == {p};
  }

  /** Because `x` contains `a`, the group `g` is taken out of `h`. */
  lemma MixedTaken(names: set<Name>, gof: map<Name, Name>, containers: map<Name, Name>)
    requires names == {"a", "b", "x"} && MixedAre(gof, containers) && Acyclic(gof) && Acyclic(containers)
    ensures TakenOf(names, containers, gof) == {"g"}
  {
    MixedChains(gof, containers);
    assert "g" !in Chain(gof, "x") && "h" in Chain(gof, "x");
    assert TakenFor(gof, "a", "x") == TakenFor(gof, "g", "x") == Some("g");
    assert TakenBy(names, containers, gof, "a", "x", "g");
    forall m ensures m in TakenOf(names, containers, gof) <==> m == "g" {
      TakenOfIs(names, containers, gof, m);
    }
  }

  /**
    The parser accepts this plan, since `b` and `x` share a group, takes `g` out of that group, and hands on
    a group of which one member is contained and the other is not.
  */
  lemma MixedHandedOn()
    ensures Accepted(MIXED_NODES, MIXED_GROUPS)
    ensures HandedOn(MIXED_NODES, MIXED_GROUPS) == [GroupDef("g", 1, ["a", "b"]), GroupDef("h", 1, ["x"])]
    ensures "a" in Containers(MIXED_NODES) && "b" !in Containers(MIXED_NODES)
  {
    var ns, groups, gof := MIXED_NODES, MIXED_GROUPS, GroupOf(MIXED_GROUPS);
    MixedGroupOf();
    MixedContainers();
    MixedNames();
    MixedChains(gof, Containers(ns));
    MixedValidated();
    MixedLeans(ns, gof);
    MixedTaken(NodeNames(ns), gof, Containers(ns));
    MixedKept();
  }

  lemma MixedKept()
    ensures Without(MIXED_GROUPS, {"g"}) == [GroupDef("g", 1, ["a", "b"]), GroupDef("h", 1, ["x"])]
  {
    assert Keep(["x"], {"g"}) == ["x"] && Keep(["g", "x"], {"g"}) == ["x"];
    assert Keep(["b"], {"g"}) == ["b"] && Keep(["a", "b"], {"g"}) == ["a", "b"];
  }

  // ---------- groups that end up around each other ----------

  lemma ChainOfOne(parent: map<Name, Name>, x: Name)
    requires Acyclic(parent) && x in parent && parent[x] !in parent
    ensures Chain(parent, x) == [parent[x]]
  {
    assert Chain(parent, parent[x]) == [];
  }

  lemma ChainOfTwo(parent: map<Name, Name>, x: Name)
    requires Acyclic(parent) && x in parent && parent[x] in parent && parent[parent[x]] !in parent
    ensures Chain(parent, x) == [parent[x], parent[parent[x]]]
  {
    ChainOfOne(parent, parent[x]);
  }

  lemma SamePair(c: Name, d: Name, e: Name, f: Name)
    ensures {c, d} == {e, f} <==> (c == e && d == f) || (c == f && d == e)
  {
    if {c, d} == {e, f} {
      assert c in {e, f} && d in {e, f} && e in {c, d} && f in {c, d};
    }
  }

  /** `a` is in `x` and `z` in `b`; the group `g` has `a` and `b`, the group `h` has `x` and `z`, and `s` has both. */
  datatype Loop = Loop(a: Name, b: Name, x: Name, z: Name, g: Name, h: Name, s: Name) {
    ghost predicate NamesApart() {
      a !in {b, x, z, g, h, s} && b !in {x, z, g, h, s} && x !in {z, g, h, s} && z !in {g, h, s} && g !in {h, s} &&
        h != s
    }

    function Nodes(): seq<NodeDef> {
      [NodeDef(x, 1, []), NodeDef(b, 1, []), NodeDef(a, 1, [In(x)]), NodeDef(z, 1, [In(b)])]
    }

    function Groups(): seq<GroupDef> {
      [GroupDef(g, 1, [a, b]), GroupDef(h, 1, [x, z]), GroupDef(s, 1, [g, h])]
    }

    /** What is left of the groups. */
    function Handed(): seq<GroupDef> {
      [GroupDef(g, 1, [a, b]), GroupDef(h, 1, [x, z]), GroupDef(s, 1, [])]
    }

    function GroupsOf(): map<Name, Name> {
      map[a := g, b := g, x := h, z := h, g := s, h := s]
    }

    function ContainersOf(): map<Name, Name> {
      map[a := x, z := b]
    }

    function Names(): set<Name> {
      {a, b, x, z}
    }

    /** The pairs that fail. */
    function Bad(): set<Pair> {
      {{a, b}, {x, z}, {a, z}}
    }
  }

  /** Later groups come first. */
  lemma ThreeGroups(g: GroupDef, h: GroupDef, s: GroupDef, x: Name)
    ensures var gof := GroupOf([g, h, s]);
      && (x in gof <==> x in g.members || x in h.members || x in s.members)
      && (x in gof ==> gof[x] == if x in s.members then s.name else if x in h.members then h.name else g.name)
  {
    OneMoreGroup([], g);
    OneMoreGroup([g], h);
    OneMoreGroup([g, h], s);
    assert [g, h, s] == [g, h] + [s] && [g] + [h] == [g, h] && [] + [g] == [g];
  }

  lemma LoopGroupOf(p: Loop)
    requires p.NamesApart()
    ensures GroupOf(p.Groups()) == p.GroupsOf()
  {
    var gof := GroupOf(p.Groups());
    forall x ensures x in gof <==> x in p.GroupsOf()
      ensures x in gof ==> gof[x] == p.GroupsOf()[x]
    {
      ThreeGroups(p.Groups()[0], p.Groups()[1], p.Groups()[2], x);
      LoopGroupAt(p, x);
    }
  }

  lemma LoopGroupAt(p: Loop, x: Name)
    requires p.NamesApart()
    ensures x in p.GroupsOf() <==> x in [p.a, p.b] || x in [p.x, p.z] || x in [p.g, p.h]
    ensures x in p.GroupsOf() ==>
      p.GroupsOf()[x] == if x in [p.g, p.h] then p.s else if x in [p.x, p.z] then p.h else p.g
  {
  }

  lemma LoopContainers(p: Loop)
    requires p.NamesApart()
    ensures Containers(p.Nodes()) == p.ContainersOf()
  {
    var ns := p.Nodes();
    assert ns[..0] == [] && ns[..4] == ns;
    InContains(p.x);
    InContains(p.b);
    OneMore(ns, 0, map[]);
    OneMore(ns, 1, map[]);
    OneMore(ns, 2, map[]);
    OneMore(ns, 3, map[p.a := p.x]);
  }

  lemma LoopNames(p: Loop)
    ensures NodeNames(p.Nodes()) == p.Names()
  {
    var ns := p.Nodes();
    assert ns[0].id == p.x && ns[1].id == p.b && ns[2].id == p.a && ns[3].id == p.z;
    forall y | y in NodeNames(ns) ensures y in p.Names() {
      var i :| 0 <= i < |ns| && ns[i].id == y;
    }
  }

  lemma LoopAcyclic(p: Loop)
    requires p.NamesApart()
    ensures Acyclic(p.GroupsOf()) && Acyclic(p.ContainersOf())
  {
    assert Ranked(p.GroupsOf(), map[p.a := 2, p.b := 2, p.x := 2, p.z := 2, p.g := 1, p.h := 1, p.s := 0]);
    assert Ranked(p.ContainersOf(), map[p.a := 1, p.z := 1, p.x := 0, p.b := 0]);
  }

  lemma LoopShared(p: Loop, c: Name, d: Name)
    requires p.NamesApart() && Acyclic(p.GroupsOf()) && c in p.Names() && d in p.Names()
    ensures ShareGroup(p.GroupsOf(), c, d)
  {
    ChainOfTwo(p.GroupsOf(), c);
    ChainOfTwo(p.GroupsOf(), d);
    assert p.s in Chain(p.GroupsOf(), c) && p.s in Chain(p.GroupsOf(), d);
  }

  lemma LoopAbove(p: Loop)
    requires p.NamesApart() && Acyclic(p.ContainersOf())
    ensures Chain(p.ContainersOf(), p.a) == [p.x] && Chain(p.ContainersOf(), p.z) == [p.b]
    ensures Chain(p.ContainersOf(), p.b) == Chain(p.ContainersOf(), p.x) == []
  {
    ChainOfOne(p.ContainersOf(), p.a);
    ChainOfOne(p.ContainersOf(), p.z);
  }

  lemma LoopPair(p: Loop, c: Name, d: Name)
    requires p.NamesApart() && Acyclic(p.ContainersOf()) && c in p.Names() && d in p.Names()
    ensures PairOk(p.ContainersOf(), {c, d}) <==> {c, d} !in p.Bad()
  {
    LoopAbove(p);
    PairOkIs(p.ContainersOf(), c, d);
    SamePair(c, d, p.a, p.b);
    SamePair(c, d, p.x, p.z);
    SamePair(c, d, p.a, p.z);
  }

  lemma LoopPairs(p: Loop, ns: seq<NodeDef>)
    requires p.NamesApart() && Acyclic(p.GroupsOf()) && Acyclic(p.ContainersOf())
    requires NodeNames(ns) == p.Names() && Containers(ns) == p.ContainersOf()
    ensures Problematic(ns, p.GroupsOf()) == p.Bad() && {p.b, p.x} in OkPairs(ns, p.GroupsOf())
    ensures {p.b, p.x} !in p.Bad()
  {
    forall c, d | c in p.Names() && d in p.Names()
      ensures ShareGroup(p.GroupsOf(), c, d)
      ensures PairOk(p.ContainersOf(), {c, d}) <==> {c, d} !in p.Bad()
    {
      LoopShared(p, c, d);
      LoopPair(p, c, d);
    }
    BadIsPairs(p, ns);
    BadOnes(ns, p.GroupsOf(), p.Names(), p.Bad());
    OtherPair(p);
  }

  lemma BadIsPairs(p: Loop, ns: seq<NodeDef>)
    requires p.NamesApart() && Acyclic(p.GroupsOf()) && NodeNames(ns) == p.Names()
    ensures p.Bad() <= Pairs(ns, p.GroupsOf())
  {
    LoopShared(p, p.a, p.b);
    LoopShared(p, p.x, p.z);
    LoopShared(p, p.a, p.z);
  }

  lemma OtherPair(p: Loop)
    requires p.NamesApart()
    ensures {p.b, p.x} !in p.Bad()
  {
    SamePair(p.b, p.x, p.a, p.b);
    SamePair(p.b, p.x, p.x, p.z);
    SamePair(p.b, p.x, p.a, p.z);
  }

  lemma BadOnes(ns: seq<NodeDef>, gof: map<Name, Name>, names: set<Name>, bad: set<Pair>)
    requires Acyclic(gof) && Acyclic(Containers(ns)) && NodeNames(ns) == names
    requires forall c, d :: c in names && d in names ==> ShareGroup(gof, c, d)
    requires forall c, d :: c in names && d in names ==> (PairOk(Containers(ns), {c, d}) <==> {c, d} !in bad)
    requires bad <= Pairs(ns, gof)
    ensures Problematic(ns, gof) == bad
    ensures forall c, d :: c in names && d in names && {c, d} !in bad ==> {c, d} in OkPairs(ns, gof)
  {
    forall p | p in Pairs(ns, gof) ensures PairOk(Containers(ns), p) <==> p !in bad {
      var c, d :| c in names && d in names && p == {c, d};
    }
  }

  lemma LoopNodes(p: Loop)
    requires p.NamesApart()
    ensures AllNodes(p.Nodes()) && forall y :: y in p.Names() ==> IsNode(p.Nodes(), y)
  {
    var ns := p.Nodes();
    assert ns[0].id == p.x && ns[1].id == p.b && ns[2].id == p.a && ns[3].id == p.z;
    PlainNode(ns, ns[0]);
    PlainNode(ns, ns[1]);
    PlainNode(ns, ns[2]);
    PlainNode(ns, ns[3]);
  }

  lemma LoopMembers(p: Loop)
    requires p.NamesApart()
    ensures MembersKnown(p.Nodes(), p.Groups())
  {
    LoopNodes(p);
    assert p.Groups()[0].name == p.g && p.Groups()[1].name == p.h;
  }

  lemma LoopOwnNames(p: Loop)
    requires p.NamesApart()
    ensures OwnNames(p.Nodes(), p.Groups())
  {
  }

  lemma LoopValidated(p: Loop)
    requires p.NamesApart()
    ensures Validated(p.Nodes(), p.Groups())
  {
    LoopOwnNames(p);
    LoopNodes(p);
    LoopMembers(p);
    LoopGroupOf(p);
    LoopAcyclic(p);
    AllValidated(p.Nodes(), p.Groups());
  }

  /** The first two pairs lean on `{b, x}`, and the third one on the second. */
  lemma LoopLeans(p: Loop, ok: set<Pair>)
    requires p.NamesApart() && Acyclic(p.ContainersOf()) && {p.b, p.x} in ok
    ensures LeaningInTurn(p.ContainersOf(), ok, [{p.a, p.b}, {p.x, p.z}, {p.a, p.z}])
  {
    var containers, order := p.ContainersOf(), [{p.a, p.b}, {p.x, p.z}, {p.a, p.z}];
    LoopAbove(p);
    assert Path(containers, p.a)[1] == p.x && Path(containers, p.z)[1] == p.b;
    assert LeansOn(containers, ok, p.a, p.b) && LeansOn(containers, ok, p.z, p.x) by {
      assert {p.x, p.b} == {p.b, p.x};
    }
    assert Leans(containers, ok, {p.a, p.b}) && Leans(containers, ok, {p.x, p.z});
    LeansMore(containers, ok, ok + Elements(order[..0]), order[0]);
    LeansMore(containers, ok, ok + Elements(order[..1]), order[1]);
    assert order[..2][1] == {p.x, p.z} && {p.z, p.x} == {p.x, p.z};
    assert LeansOn(containers, ok + Elements(order[..2]), p.a, p.z);
  }

  lemma LoopAccepted(p: Loop)
    requires p.NamesApart()
    ensures Accepted(p.Nodes(), p.Groups())
  {
    var ns := p.Nodes();
    LoopValidated(p);
    LoopAcyclic(p);
    LoopGroupOf(p);
    LoopContainers(p);
    LoopNames(p);
    LoopPairs(p, ns);
    LoopLeans(p, OkPairs(ns, p.GroupsOf()));
    LoopOrder(p);
    assert AcceptedInOrder(ns, p.GroupsOf(), [{p.a, p.b}, {p.x, p.z}, {p.a, p.z}]);
  }

  lemma LoopOrder(p: Loop)
    requires p.NamesApart()
    ensures var order := [{p.a, p.b}, {p.x, p.z}, {p.a, p.z}]; Distinct(order) && Elements(order) == p.Bad()
  {
    SamePair(p.a, p.b, p.x, p.z);
    SamePair(p.a, p.b, p.a, p.z);
    SamePair(p.x, p.z, p.a, p.z);
  }

  lemma LoopLeansNot(p: Loop, ok: set<Pair>)
    requires p.NamesApart() && Acyclic(p.ContainersOf()) && ok !! p.Bad()
    ensures !Leans(p.ContainersOf(), ok, {p.a, p.z})
  {
    LoopAbove(p);
    assert {p.z, p.a} == {p.a, p.z} && {p.z, p.x} == {p.x, p.z};
    forall c, d | c in {p.a, p.z} && d in {p.a, p.z} &&
      {p.a, p.z} == {c, d} ensures !LeansOn(p.ContainersOf(), ok, c, d) {
      SamePair(p.a, p.z, c, d);
    }
  }

  /** Both inner groups are taken out of the outer one. */
  lemma LoopTaken(p: Loop)
    requires p.NamesApart() && Acyclic(p.GroupsOf()) && Acyclic(p.ContainersOf())
    ensures TakenOf(p.Names(), p.ContainersOf(), p.GroupsOf()) == {p.g, p.h}
  {
    var gof, containers := p.GroupsOf(), p.ContainersOf();
    LoopAbove(p);
    TakenAbove(gof, p.a, p.x);
    TakenAbove(gof, p.z, p.b);
    assert TakenBy(p.Names(), containers, gof, p.a, p.x, p.g) && TakenBy(p.Names(), containers, gof, p.z, p.b, p.h);
    forall m ensures m in TakenOf(p.Names(), containers, gof) <==> m in {p.g, p.h} {
      TakenOfIs(p.Names(), containers, gof, m);
    }
  }

  /** Of two nodes in different groups of one group, the first one's group is taken out. */
  lemma TakenAbove(gof: map<Name, Name>, c: Name, y: Name)
    requires Acyclic(gof) && c in gof && y in gof && gof[c] in gof && gof[y] in gof && gof[c] != gof[y]
    requires gof[gof[c]] == gof[gof[y]] && gof[gof[c]] !in gof
    ensures TakenFor(gof, c, y) == Some(gof[c])
  {
    ChainOfTwo(gof, y);
    assert gof[c] !in Chain(gof, y) && gof[gof[c]] in Chain(gof, y);
    assert TakenFor(gof, gof[c], y) == Some(gof[c]);
  }

  lemma ThreeWithout(g: GroupDef, h: GroupDef, s: GroupDef, taken: set<Name>, all: seq<Name>, more: seq<Name>)
    requires Keep(g.members, taken) == all && Keep(h.members, taken) == more && Keep(s.members, taken) == []
    ensures Without([g, h, s], taken) == [g.(members := all), h.(members := more), s.(members := [])]
  {
  }

  lemma LoopKept(p: Loop)
    requires p.NamesApart()
    ensures Without(p.Groups(), {p.g, p.h}) == p.Handed()
  {
    var groups, taken := p.Groups(), {p.g, p.h};
    KeepAll(groups[0].members, taken);
    KeepAll(groups[1].members, taken);
    KeepNothing(groups[2].members, taken);
    ThreeWithout(groups[0], groups[1], groups[2], taken, [p.a, p.b], [p.x, p.z]);
    assert groups == [groups[0], groups[1], groups[2]];
  }

  lemma KeepNothing(members: seq<Name>, taken: set<Name>)
    requires forall m :: m in members ==> m in taken
    ensures Keep(members, taken) == []
  {
    if Keep(members, taken) != [] {
      assert Keep(members, taken)[0] in Keep(members, taken);
    }
  }

  lemma LoopTops(p: Loop, gof: map<Name, Name>)
    requires p.NamesApart() && gof == p.GroupsOf() - {p.g, p.h} && Acyclic(gof)
    ensures Top(gof, p.a) == Top(gof, p.b) == Top(gof, p.g) == p.g
    ensures Top(gof, p.x) == Top(gof, p.z) == Top(gof, p.h) == p.h
  {
    ChainOfOne(gof, p.a);
    ChainOfOne(gof, p.b);
    ChainOfOne(gof, p.x);
    ChainOfOne(gof, p.z);
  }

  /** The only declared containments. */
  lemma LoopRels(p: Loop)
    ensures forall i, k :: Rel(p.Nodes(), i, k) <==> (i == 2 || i == 3) && k == 0
    ensures p.Nodes()[2].relationships == [In(p.x)] && p.Nodes()[3].relationships == [In(p.b)]
    ensures IsContained(In(p.x)) && IsContained(In(p.b))
  {
    InContains(p.x);
    InContains(p.b);
  }

  /** The groups are around each other. */
  lemma LoopNests(p: Loop, gof: map<Name, Name>)
    requires p.NamesApart() && gof == p.GroupsOf() - {p.g, p.h} && Acyclic(gof)
    ensures SharedContainer(p.Nodes(), gof) && !NestsWell(p.Nodes(), gof)
  {
    var ns := p.Nodes();
    LoopTops(p, gof);
    LoopRels(p);
    forall rank: map<Name, nat> ensures !Nests(ns, gof, rank) {
      assert Rel(ns, 2, 0) && Rel(ns, 3, 0);
      assert !NestsAt(ns, gof, rank, 2, 0) || !NestsAt(ns, gof, rank, 3, 0);
    }
  }

  /**
    The parser accepts this plan if it does not come to the pair of the two contained nodes first. It takes
    both inner groups out of the outer one, and then each of them is, by what it contains, in the other one.
  */
  lemma LoopHandedOn(p: Loop)
    requires p.NamesApart()
    ensures Accepted(p.Nodes(), p.Groups()) && HandedOn(p.Nodes(), p.Groups()) == p.Handed()
    ensures var gof := GroupOf(p.Handed()); Acyclic(gof) && SharedContainer(p.Nodes(), gof) && !NoLoops(p.Nodes(), gof)
  {
    LoopAccepted(p);
    LoopGroupOf(p);
    LoopContainers(p);
    LoopNames(p);
    LoopTaken(p);
    LoopKept(p);
    HandedValidated(p.Nodes(), p.Groups(), {p.g, p.h});
    HandedGroupOf(p.Nodes(), p.Groups(), {p.g, p.h});
    LoopNests(p, GroupOf(p.Handed()));
    LoopsExactly(p.Nodes(), p.Handed());
  }

  /** In another order of the same pairs it rejects the plan. */
  lemma LoopRejected(p: Loop) returns (order: seq<Pair>)
    requires p.NamesApart()
    ensures Acyclic(GroupOf(p.Groups())) && Acyclic(Containers(p.Nodes()))
    ensures Ordering(p.Nodes(), GroupOf(p.Groups()), order) && !AcceptedInOrder(p.Nodes(), GroupOf(p.Groups()), order)
  {
    var ns := p.Nodes();
    LoopGroupOf(p);
    LoopContainers(p);
    LoopAcyclic(p);
    LoopNames(p);
    LoopPairs(p, ns);
    LoopLeansNot(p, OkPairs(ns, p.GroupsOf()));
    order := RejectedFirst(ns, p.GroupsOf(), {p.a, p.z});
  }

  /** There are such names. */
  const LOOP := Loop("a", "b", "x", "z", "g", "h", "s")

  lemma LoopExists()
    ensures LOOP.NamesApart()
  {
    var p := LOOP;
    assert p.a[0] == 'a' && p.b[0] == 'b' && p.x[0] == 'x' && p.z[0] == 'z';
    assert p.g[0] == 'g' && p.h[0] == 'h' && p.s[0] == 's';
  }
}
