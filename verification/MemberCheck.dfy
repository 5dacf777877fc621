/**
  What the parser does with the members of scaling groups: it checks that the nodes in a group have
  something to do with each other, and then takes out members that share a group with their container.
*/
module MemberCheck {
  import opened Names
  import opened Forests
  import opened Graphs
  import opened PlanBuilder

  /** The container that the first contained_in relationship declares. */
  function DeclaredContainer(rels: seq<Relationship>): Option<Name> {
    if rels == [] then None
    else if IsContained(rels[0]) then Some(rels[0].target)
    else DeclaredContainer(rels[1..])
  }

  /** The declared containment of the plan's nodes, whatever groups they are in. */
  function Containers(ns: seq<NodeDef>): (m: map<Name, Name>) {
    if ns == [] then map[]
    else
      var n := ns[|ns| - 1];
      var container := DeclaredContainer(n.relationships);
      var rest := Containers(ns[..|ns| - 1]);
      if container.Some? then rest[n.id := container.value] else rest
  }

  function NodeNames(ns: seq<NodeDef>): (names: set<Name>)
    ensures forall x :: x in names <==> IsNode(ns, x)
  {
    set i | 0 <= i < |ns| :: ns[i].id
  }

  /** Both nodes are, through groups, in one group. */
  predicate ShareGroup(gof: map<Name, Name>, a: Name, b: Name)
    requires Acyclic(gof)
  {
    exists group | group in Chain(gof, a) :: group in Chain(gof, b)
  }

  // ---------- declared containers ----------

  lemma {:induction false} DeclaredContainerIs(rels: seq<Relationship>)
    ensures DeclaredContainer(rels).None? ==> forall k :: 0 <= k < |rels| ==> !IsContained(rels[k])
    ensures DeclaredContainer(rels).Some? ==>
      exists k :: 0 <= k < |rels| && IsContained(rels[k]) && rels[k].target == DeclaredContainer(rels).value
  {
    if rels != [] && !IsContained(rels[0]) {
      DeclaredContainerIs(rels[1..]);
      if DeclaredContainer(rels).Some? {
        var k :| 0 <= k < |rels[1..]| && IsContained(rels[1..][k]) &&
          rels[1..][k].target == DeclaredContainer(rels).value;
        assert IsContained(rels[k + 1]) && rels[k + 1].target == DeclaredContainer(rels).value;
      }
    }
  }

  lemma {:induction false} ContainersAt(ns: seq<NodeDef>, a: int)
    requires 0 <= a < |ns| && forall i, j :: 0 <= i < j < |ns| ==> ns[i].id != ns[j].id
    ensures ns[a].id in Containers(ns) <==> DeclaredContainer(ns[a].relationships).Some?
    ensures ns[a].id in Containers(ns) ==> Containers(ns)[ns[a].id] == DeclaredContainer(ns[a].relationships).value
  {
    if a < |ns| - 1 {
      ContainersAt(ns[..|ns| - 1], a);
    } else {
      ContainersOnly(ns[..|ns| - 1], ns[a].id);
    }
  }

  lemma {:induction false} ContainersOnly(ns: seq<NodeDef>, x: Name)
    ensures x in Containers(ns) ==> IsNode(ns, x)
  {
    if ns != [] {
      var n := |ns| - 1;
      ContainersOnly(ns[..n], x);
      if IsNode(ns[..n], x) {
        var i :| 0 <= i < n && ns[..n][i].id == x;
        assert ns[i].id == x;
      }
      assert ns[n].id == ns[n].id;
    }
  }

  /** A node's contained_in relationship is where its declared container comes from. */
  lemma ContainerExactly(ns: seq<NodeDef>, groups: seq<GroupDef>, a: int, b: int)
    requires Validated(ns, groups) && Rel(ns, a, b) && IsContained(ns[a].relationships[b])
    ensures ns[a].id in Containers(ns) && Containers(ns)[ns[a].id] == ns[a].relationships[b].target
  {
    ContainersAt(ns, a);
    DeclaredContainerIs(ns[a].relationships);
    assert ValidatedNode(ns, ns[a]);
  }

  lemma ContainedRelationship(ns: seq<NodeDef>, groups: seq<GroupDef>, a: int) returns (b: int)
    requires Validated(ns, groups) && 0 <= a < |ns| && ns[a].id in Containers(ns)
    ensures Rel(ns, a, b) && IsContained(ns[a].relationships[b]) &&
      ns[a].relationships[b].target == Containers(ns)[ns[a].id]
  {
    ContainersAt(ns, a);
    DeclaredContainerIs(ns[a].relationships);
    b :| 0 <= b < |ns[a].relationships| && IsContained(ns[a].relationships[b])
      && ns[a].relationships[b].target == DeclaredContainer(ns[a].relationships).value;
  }

  // ---------- the check of pairs ----------

  /** Two nodes that may be the same, in no order. */
  type Pair = set<Name>

  /** The check of one pair: neither is contained, or one contains the other, or something contains both. */
  predicate Related(containers: map<Name, Name>, a: Name, b: Name)
    requires Acyclic(containers)
  {
    var above, other := Chain(containers, a), Chain(containers, b);
    a == b || (above == [] && other == []) || b in above || a in other || exists x | x in above :: x in other
  }

  predicate PairOk(containers: map<Name, Name>, p: Pair)
    requires Acyclic(containers)
  {
    forall a, b | a in p && b in p :: p == {a, b} ==> Related(containers, a, b)
  }

  lemma PairOkIs(containers: map<Name, Name>, a: Name, b: Name)
    requires Acyclic(containers)
    ensures PairOk(containers, {a, b}) <==> Related(containers, a, b)
  {
  }

  /** The pairs of nodes that share a group. */
  function Pairs(ns: seq<NodeDef>, gof: map<Name, Name>): (r: set<Pair>)
    requires Acyclic(gof)
    ensures forall a, b :: IsNode(ns, a) && IsNode(ns, b) && ShareGroup(gof, a, b) ==> {a, b} in r
  {
    var names := NodeNames(ns);
    set a, b | a in names && b in names && ShareGroup(gof, a, b) :: {a, b}
  }

  ghost function OkPairs(ns: seq<NodeDef>, gof: map<Name, Name>): set<Pair>
    requires Acyclic(gof) && Acyclic(Containers(ns))
  {
    set p | p in Pairs(ns, gof) && PairOk(Containers(ns), p)
  }

  ghost function Problematic(ns: seq<NodeDef>, gof: map<Name, Name>): set<Pair>
    requires Acyclic(gof) && Acyclic(Containers(ns))
  {
    set p | p in Pairs(ns, gof) && !PairOk(Containers(ns), p)
  }

  /** One of the two is in a pair of `ok` with the other one or something that contains it. */
  predicate Leans(containers: map<Name, Name>, ok: set<Pair>, p: Pair)
    requires Acyclic(containers)
  {
    exists a, b | a in p && b in p :: p == {a, b} && LeansOn(containers, ok, a, b)
  }

  predicate LeansOn(containers: map<Name, Name>, ok: set<Pair>, a: Name, b: Name)
    requires Acyclic(containers)
  {
    exists x | x in Path(containers, a) :: {b, x} in ok
  }

  lemma LeansMore(containers: map<Name, Name>, ok: set<Pair>, more: set<Pair>, p: Pair)
    requires Acyclic(containers) && ok <= more && Leans(containers, ok, p)
    ensures Leans(containers, more, p)
  {
    var a, b :| a in p && b in p && p == {a, b} && LeansOn(containers, ok, a, b);
    assert LeansOn(containers, more, a, b);
  }

  /** Taken in this order, each pair leans on one of `ok` or one before it. */
  ghost predicate LeaningInTurn(containers: map<Name, Name>, ok: set<Pair>, order: seq<Pair>)
    requires Acyclic(containers)
  {
    forall k :: 0 <= k < |order| ==> Leans(containers, ok + Elements(order[..k]), order[k])
  }

  /** The problematic pairs in some order. */
  ghost predicate Ordering(ns: seq<NodeDef>, gof: map<Name, Name>, order: seq<Pair>)
    requires Acyclic(gof) && Acyclic(Containers(ns))
  {
    Distinct(order) && Elements(order) == Problematic(ns, gof)
  }

  ghost predicate AcceptedInOrder(ns: seq<NodeDef>, gof: map<Name, Name>, order: seq<Pair>)
    requires Acyclic(gof) && Acyclic(Containers(ns))
  {
    Ordering(ns, gof, order) && LeaningInTurn(Containers(ns), OkPairs(ns, gof), order)
  }

  /** All problematic pairs are listed, each leaning on what is accepted by then. */
  ghost predicate AllAccepted(containers: map<Name, Name>, ok: set<Pair>, problematic: set<Pair>, order: seq<Pair>)
    requires Acyclic(containers)
  {
    Distinct(order) && Elements(order) == problematic && LeaningInTurn(containers, ok, order)
  }

  /** The check gets as far as `order`, and then to a pair that leans on nothing. */
  ghost predicate RejectedAt(containers: map<Name, Name>, ok: set<Pair>, problematic: set<Pair>, order: seq<Pair>,
                             p: Pair)
    requires Acyclic(containers)
  {
    && LeaningInTurn(containers, ok, order) && Elements(order) <= problematic - {p} && p in problematic
    && !Leans(containers, ok + Elements(order), p)
  }

  /** In some order of the problematic pairs the check comes to such a pair. */
  ghost predicate Rejected(ns: seq<NodeDef>, gof: map<Name, Name>)
    requires Acyclic(gof) && Acyclic(Containers(ns))
  {
    exists order, p :: RejectedAt(Containers(ns), OkPairs(ns, gof), Problematic(ns, gof), order, p)
  }

  lemma OneMoreLeans(containers: map<Name, Name>, ok: set<Pair>, order: seq<Pair>, p: Pair)
    requires Acyclic(containers) && LeaningInTurn(containers, ok, order)
    requires Leans(containers, ok + Elements(order), p)
    ensures LeaningInTurn(containers, ok, order + [p])
  {
    var more := order + [p];
    forall k | 0 <= k < |more| ensures Leans(containers, ok + Elements(more[..k]), more[k]) {
      Prefixes(order, p, k);
    }
  }

  lemma Prefixes(order: seq<Pair>, p: Pair, k: nat)
    requires k <= |order|
    ensures (order + [p])[..k] == order[..k] && order[..|order|] == order
    ensures (order + [p])[k] == if k == |order| then p else order[k]
  {
  }

  lemma Appended(order: seq<Pair>, p: Pair)
    requires Distinct(order) && p !in order
    ensures Distinct(order + [p]) && Elements(order + [p]) == Elements(order) + {p}
  {
  }

  /** One of those that are left goes to the end of the others. */
  lemma TakeNext(order: seq<Pair>, all: set<Pair>, todo: set<Pair>, p: Pair)
    requires Distinct(order) && Elements(order) == all - todo && todo <= all && p in todo
    ensures Distinct(order + [p]) && Elements(order + [p]) == all - (todo - {p}) == Elements(order) + {p}
    ensures Elements(order) <= all - {p}
  {
    assert p !in Elements(order);
    Appended(order, p);
  }

  /** The problematic pairs once more, in any order: each has to lean on what is accepted by then. */
  method CheckProblematic(containers: map<Name, Name>, passed: set<Pair>, problematic: set<Pair>)
    returns (accepted: bool)
    requires Acyclic(containers)
    ensures accepted ==> exists order :: AllAccepted(containers, passed, problematic, order)
    ensures !accepted ==> exists order, p :: RejectedAt(containers, passed, problematic, order, p)
  {
    var ok, todo := passed, problematic;
    ghost var order: seq<Pair> := [];
    assert Elements(order) == {};
    while todo != {}
      invariant todo <= problematic && Elements(order) == problematic - todo
      invariant Distinct(order) && LeaningInTurn(containers, passed, order) && ok == passed + Elements(order)
      decreases todo
    {
      var p :| p in todo;
      TakeNext(order, problematic, todo, p);
      if !Leans(containers, ok, p) {
        assert RejectedAt(containers, passed, problematic, order, p);
        return false;
      }
      OneMoreLeans(containers, passed, order, p);
      order := order + [p];
      ok, todo := ok + {p}, todo - {p};
    }
    assert AllAccepted(containers, passed, problematic, order);
    accepted := true;
  }

  /** The check of the nodes that share a group. */
  method CheckPairs(ns: seq<NodeDef>, gof: map<Name, Name>) returns (accepted: bool)
    requires Acyclic(gof) && Acyclic(Containers(ns))
    ensures accepted ==> exists order :: AcceptedInOrder(ns, gof, order)
    ensures !accepted ==> Rejected(ns, gof)
  {
    var ok, problematic := SplitPairs(ns, gof);
    accepted := CheckProblematic(Containers(ns), ok, problematic);
    if accepted {
      ghost var order :| AllAccepted(Containers(ns), ok, problematic, order);
      assert AcceptedInOrder(ns, gof, order);
    }
  }

  /** The pairs that pass the check, and those that do not. */
  method SplitPairs(ns: seq<NodeDef>, gof: map<Name, Name>) returns (ok: set<Pair>, problematic: set<Pair>)
    requires Acyclic(gof) && Acyclic(Containers(ns))
    ensures ok == OkPairs(ns, gof) && problematic == Problematic(ns, gof)
  {
    var containers, all := Containers(ns), Pairs(ns, gof);
    ok, problematic := {}, {};
    var todo := all;
    while todo != {}
      invariant todo <= all
      invariant ok == (set p | p in all && p !in todo && PairOk(containers, p))
      invariant problematic == (set p | p in all && p !in todo && !PairOk(containers, p))
      decreases todo
    {
      var p :| p in todo;
      if PairOk(containers, p) {
        ok := ok + {p};
      } else {
        problematic := problematic + {p};
      }
      todo := todo - {p};
    }
  }

  lemma LeanAnyway(ns: seq<NodeDef>, gof: map<Name, Name>, order: seq<Pair>)
    requires Acyclic(gof) && Acyclic(Containers(ns)) && Ordering(ns, gof, order)
    requires forall p :: p in Problematic(ns, gof) ==> Leans(Containers(ns), OkPairs(ns, gof), p)
    ensures AcceptedInOrder(ns, gof, order)
  {
    assert forall p :: p in order ==> p in Elements(order);
    AllLean(Containers(ns), OkPairs(ns, gof), order);
  }

  lemma RejectedFirst(ns: seq<NodeDef>, gof: map<Name, Name>, p: Pair) returns (order: seq<Pair>)
    requires Acyclic(gof) && Acyclic(Containers(ns))
    requires p in Problematic(ns, gof) && !Leans(Containers(ns), OkPairs(ns, gof), p)
    ensures Ordering(ns, gof, order) && !AcceptedInOrder(ns, gof, order)
  {
    var rest := Listing(Problematic(ns, gof) - {p});
    FirstOfAll(p, rest, Problematic(ns, gof));
    order := [p] + rest;
    if LeaningInTurn(Containers(ns), OkPairs(ns, gof), order) {
      FirstLeans(Containers(ns), OkPairs(ns, gof), p, rest);
    }
  }

  /** The verdict depends on the order in which the pairs come, unless each leans on a pair that passed at once. */
  lemma EveryOrderExactly(ns: seq<NodeDef>, gof: map<Name, Name>)
    requires Acyclic(gof) && Acyclic(Containers(ns))
    ensures (forall order :: Ordering(ns, gof, order) ==> AcceptedInOrder(ns, gof, order)) <==>
      forall p :: p in Problematic(ns, gof) ==> Leans(Containers(ns), OkPairs(ns, gof), p)
  {
    if p :| p in Problematic(ns, gof) && !Leans(Containers(ns), OkPairs(ns, gof), p) {
      var order := RejectedFirst(ns, gof, p);
    } else {
      forall order | Ordering(ns, gof, order) ensures AcceptedInOrder(ns, gof, order) {
        LeanAnyway(ns, gof, order);
      }
    }
  }

  lemma AllLean(containers: map<Name, Name>, ok: set<Pair>, order: seq<Pair>)
    requires Acyclic(containers) && forall p :: p in order ==> Leans(containers, ok, p)
    ensures LeaningInTurn(containers, ok, order)
  {
    forall k | 0 <= k < |order| ensures Leans(containers, ok + Elements(order[..k]), order[k]) {
      LeansMore(containers, ok, ok + Elements(order[..k]), order[k]);
    }
  }

  lemma FirstLeans(containers: map<Name, Name>, ok: set<Pair>, p: Pair, rest: seq<Pair>)
    requires Acyclic(containers) && LeaningInTurn(containers, ok, [p] + rest)
    ensures Leans(containers, ok, p)
  {
    var order := [p] + rest;
    assert order[..0] == [] && ok + Elements(order[..0]) == ok && order[0] == p;
  }

  lemma FirstOfAll(p: Pair, rest: seq<Pair>, all: set<Pair>)
    requires p in all && Distinct(rest) && Elements(rest) == all - {p}
    ensures Distinct([p] + rest) && Elements([p] + rest) == all
  {
    assert forall q :: q in rest <==> q in Elements(rest);
    assert forall q :: q in [p] + rest <==> q == p || q in rest;
  }

  lemma {:induction false} Listing(all: set<Pair>) returns (s: seq<Pair>)
    ensures Distinct(s) && Elements(s) == all
  {
    if all == {} {
      s := [];
    } else {
      var x :| x in all;
      var rest := Listing(all - {x});
      s := [x] + rest;
      FirstOfAll(x, rest, all);
    }
  }

  // ---------- taking members out ----------

  /**
    The member to be taken out because the node `y` contains the node `a`: the one on the way up from `a`
    that is directly in the lowest group that they share.
  */
  function TakenFor(gof: map<Name, Name>, a: Name, y: Name): Option<Name>
    requires Acyclic(gof)
    decreases Rank(gof, a)
  {
    if a !in gof then None
    else
      RankDrops(gof, a);
      if gof[a] in Chain(gof, y) then Some(a) else TakenFor(gof, gof[a], y)
  }

  /** The node `a` and its container `y` are the reason for taking out `m`. */
  predicate TakenBy(names: set<Name>, containers: map<Name, Name>, gof: map<Name, Name>, a: Name, y: Name, m: Name)
    requires Acyclic(gof) && Acyclic(containers)
  {
    a in names && y in Chain(containers, a) && TakenFor(gof, a, y) == Some(m)
  }

  /** All members to be taken out on account of these nodes. */
  ghost function TakenOf(names: set<Name>, containers: map<Name, Name>, gof: map<Name, Name>): set<Name>
    requires Acyclic(gof) && Acyclic(containers)
  {
    set a, y | a in names && y in Chain(containers, a) && TakenFor(gof, a, y).Some? :: TakenFor(gof, a, y).value
  }

  lemma TakenOfIs(names: set<Name>, containers: map<Name, Name>, gof: map<Name, Name>, m: Name)
    requires Acyclic(gof) && Acyclic(containers)
    ensures m in TakenOf(names, containers, gof) <==> exists a, y :: TakenBy(names, containers, gof, a, y, m)
  {
    if m in TakenOf(names, containers, gof) {
      var a, y :| a in names && y in Chain(containers, a) && TakenFor(gof, a, y).Some? &&
        TakenFor(gof, a, y).value == m;
      assert TakenBy(names, containers, gof, a, y, m);
    }
    if a, y :| TakenBy(names, containers, gof, a, y, m) {
      assert TakenFor(gof, a, y).Some?;
    }
  }

  ghost function Taken(ns: seq<NodeDef>, gof: map<Name, Name>): set<Name>
    requires Acyclic(gof) && Acyclic(Containers(ns))
  {
    TakenOf(NodeNames(ns), Containers(ns), gof)
  }

  function Keep(members: seq<Name>, taken: set<Name>): (r: seq<Name>)
    ensures forall m :: m in r <==> m in members && m !in taken
  {
    if members == [] then []
    else (if members[0] in taken then [] else [members[0]]) + Keep(members[1..], taken)
  }

  function Without(groups: seq<GroupDef>, taken: set<Name>): (r: seq<GroupDef>)
    ensures |r| == |groups|
    ensures forall i :: 0 <= i < |r| ==> r[i] == groups[i].(members := Keep(groups[i].members, taken))
  {
    seq(|groups|, i requires 0 <= i < |groups| => groups[i].(members := Keep(groups[i].members, taken)))
  }

  /** The groups that the parser hands on. */
  ghost function HandedOn(ns: seq<NodeDef>, groups: seq<GroupDef>): seq<GroupDef>
    requires Acyclic(GroupOf(groups)) && Acyclic(Containers(ns))
  {
    Without(groups, Taken(ns, GroupOf(groups)))
  }

  // ---------- taking them out step by step ----------

  /** Going up from `a`, everything above a group around `y` is around `y`. */
  lemma {:induction false} AroundAbove(gof: map<Name, Name>, a: Name, y: Name, k: nat, m: nat)
    requires Acyclic(gof) && k <= m < |Path(gof, a)| && Path(gof, a)[k] in Chain(gof, y)
    ensures Path(gof, a)[m] in Chain(gof, y)
  {
    if k < m {
      var x := Path(gof, a)[k];
      PathSuffix(gof, a, k);
      assert Path(gof, a)[m] == Path(gof, x)[m - k] == Chain(gof, x)[m - k - 1];
      ChainTransitive(gof, y, x, Path(gof, a)[m]);
    }
  }

  lemma PathSuffix(gof: map<Name, Name>, a: Name, k: nat)
    requires Acyclic(gof) && k < |Path(gof, a)|
    ensures Path(gof, Path(gof, a)[k]) == Path(gof, a)[k..]
  {
    if k > 0 {
      ChainSuffix(gof, a, k - 1);
      assert Path(gof, a)[k..] == Chain(gof, a)[k - 1..];
    }
  }

  /** The member is the last one on the way up that is not around `y`. */
  lemma {:induction false} TakenAt(gof: map<Name, Name>, a: Name, y: Name, k: nat)
    requires Acyclic(gof) && k + 1 < |Path(gof, a)|
    requires Path(gof, a)[k + 1] in Chain(gof, y) && forall m :: 1 <= m <= k ==> Path(gof, a)[m] !in Chain(gof, y)
    ensures TakenFor(gof, a, y) == Some(Path(gof, a)[k])
    decreases k
  {
    var path := Path(gof, a);
    assert path[1] == gof[a];
    if k > 0 {
      PathSuffix(gof, a, 1);
      var up := Path(gof, gof[a]);
      assert up == path[1..];
      TakenAt(gof, gof[a], y, k - 1);
    }
  }

  lemma {:induction false} TakenNowhere(gof: map<Name, Name>, a: Name, y: Name)
    requires Acyclic(gof) && forall m :: 1 <= m < |Path(gof, a)| ==> Path(gof, a)[m] !in Chain(gof, y)
    ensures TakenFor(gof, a, y) == None
    decreases Rank(gof, a)
  {
    if a in gof {
      RankDrops(gof, a);
      var path := Path(gof, a);
      PathSuffix(gof, a, 1);
      assert path[1] == gof[a] && Path(gof, gof[a]) == path[1..];
      TakenNowhere(gof, gof[a], y);
    }
  }

  /** The lowest group that both are in, and the last one on the way up to it that only `a` is in, or `a` itself. */
  method FindTaken(gof: map<Name, Name>, a: Name, y: Name) returns (r: Option<Name>)
    requires Acyclic(gof) && y !in Chain(gof, a) && a !in Chain(gof, y)
    ensures r == TakenFor(gof, a, y)
  {
    var path, around := Path(gof, a), Chain(gof, y);
    var low := 1;
    while low < |path| && path[low] !in around
      invariant 1 <= low <= |path| && forall m :: 1 <= m < low ==> path[m] !in around
    {
      low := low + 1;
    }
    if low == |path| {
      TakenNowhere(gof, a, y);
      return None;
    }
    TakenAt(gof, a, y, low - 1);
    forall m | low <= m < |path| ensures path[m] in around {
      AroundAbove(gof, a, y, low, m);
    }
    var k := |path| - 1;
    while path[k] in around
      invariant low - 1 <= k < |path|
      decreases k
    {
      k := k - 1;
    }
    r := Some(path[k]);
  }

  lemma {:induction false} KeepTwice(members: seq<Name>, a: set<Name>, b: set<Name>)
    ensures Keep(Keep(members, a), b) == Keep(members, a + b)
  {
    if members != [] {
      var rest := Keep(members[1..], a);
      KeepTwice(members[1..], a, b);
      assert ([members[0]] + rest)[1..] == rest && [] + rest == rest;
    }
  }

  lemma KeepAll(members: seq<Name>, taken: set<Name>)
    requires forall m :: m in members ==> m !in taken
    ensures Keep(members, taken) == members
  {
  }

  /** Nodes are nodes, and only groups have members: the names are apart. */
  lemma NodesApart(ns: seq<NodeDef>, groups: seq<GroupDef>, a: Name, y: Name)
    requires Validated(ns, groups) && IsNode(ns, y)
    ensures y !in Chain(GroupOf(groups), a)
  {
    ValidatedSeparate(ns, groups);
    if y in Chain(GroupOf(groups), a) {
      HoldsSome(GroupOf(groups), a, y);
    }
  }

  lemma {:induction false} HoldsSome(gof: map<Name, Name>, a: Name, y: Name)
    requires Acyclic(gof) && y in Chain(gof, a)
    ensures exists x :: x in gof && gof[x] == y
    decreases Rank(gof, a)
  {
    RankDrops(gof, a);
    if y != gof[a] {
      HoldsSome(gof, gof[a], y);
    }
  }

  lemma {:induction false} TakenIsMember(gof: map<Name, Name>, a: Name, y: Name)
    requires Acyclic(gof) && TakenFor(gof, a, y).Some?
    ensures TakenFor(gof, a, y).value in gof
    decreases Rank(gof, a)
  {
    RankDrops(gof, a);
    if gof[a] !in Chain(gof, y) {
      TakenIsMember(gof, gof[a], y);
    }
  }

  /** One member is taken out of its group. */
  method TakeOut(ns: seq<NodeDef>, ghost written: seq<GroupDef>, groups: seq<GroupDef>, ghost taken: set<Name>,
                 group: Name, m: Name)
    returns (r: seq<GroupDef>)
    requires Validated(ns, written) && groups == Without(written, taken)
    requires m in GroupOf(written) && GroupOf(written)[m] == group
    ensures r == Without(written, taken + {m})
  {
    GroupOfIs(written, m);
    ghost var j :| 0 <= j < |written| && m in written[j].members && written[j].name == group;
    var i := 0;
    while groups[i].name != group
      invariant 0 <= i <= j
      decreases j - i
    {
      i := i + 1;
    }
    assert i == j;
    r := groups[i := groups[i].(members := Keep(groups[i].members, {m}))];
    forall k | 0 <= k < |r| ensures r[k] == written[k].(members := Keep(written[k].members, taken + {m})) {
      KeepTwice(written[k].members, taken, {m});
      if k != i {
        KeepAll(groups[k].members, {m});
      }
    }
  }

  /** What the first `n` containers of `a` take out. */
  ghost function TakenUpTo(gof: map<Name, Name>, a: Name, above: seq<Name>, n: nat): set<Name>
    requires Acyclic(gof) && n <= |above|
  {
    if n == 0 then {}
    else
      var m := TakenFor(gof, a, above[n - 1]);
      TakenUpTo(gof, a, above, n - 1) + if m.Some? then {m.value} else {}
  }

  lemma {:induction false} TakenUpToIs(gof: map<Name, Name>, a: Name, above: seq<Name>, n: nat, m: Name)
    requires Acyclic(gof) && n <= |above|
    ensures m in TakenUpTo(gof, a, above, n) <==> exists k :: 0 <= k < n && TakenFor(gof, a, above[k]) == Some(m)
  {
    if n > 0 {
      TakenUpToIs(gof, a, above, n - 1, m);
    }
  }

  lemma OneMoreNode(names: set<Name>, containers: map<Name, Name>, gof: map<Name, Name>, a: Name)
    requires Acyclic(gof) && Acyclic(containers)
    ensures TakenOf(names + {a}, containers, gof) ==
      TakenOf(names, containers, gof) + TakenUpTo(gof, a, Chain(containers, a), |Chain(containers, a)|)
  {
    var above := Chain(containers, a);
    forall m
      ensures m in TakenOf(names + {a}, containers, gof) <==>
        m in TakenOf(names, containers, gof) + TakenUpTo(gof, a, above, |above|)
    {
      TakenOfIs(names + {a}, containers, gof, m);
      TakenOfIs(names, containers, gof, m);
      TakenUpToIs(gof, a, above, |above|, m);
      if b, y :| TakenBy(names + {a}, containers, gof, b, y, m) {
        assert b != a ==> TakenBy(names, containers, gof, b, y, m);
      }
      if b, y :| TakenBy(names, containers, gof, b, y, m) {
        assert TakenBy(names + {a}, containers, gof, b, y, m);
      }
      if k :| 0 <= k < |above| && TakenFor(gof, a, above[k]) == Some(m) {
        assert TakenBy(names + {a}, containers, gof, a, above[k], m);
      }
    }
  }

  lemma NextTaken(gof: map<Name, Name>, a: Name, above: seq<Name>, k: nat, taken: set<Name>)
    requires Acyclic(gof) && k < |above|
    ensures var m, some := TakenFor(gof, a, above[k]), taken + TakenUpTo(gof, a, above, k);
      taken + TakenUpTo(gof, a, above, k + 1) == if m.Some? then some + {m.value} else some
  {
  }

  /** Takes out what the containers of one node ask for. */
  method RemoveFor(ns: seq<NodeDef>, ghost written: seq<GroupDef>, gof: map<Name, Name>, groups: seq<GroupDef>,
                   ghost taken: set<Name>, a: Name, above: seq<Name>)
    returns (r: seq<GroupDef>)
    requires Validated(ns, written) && gof == GroupOf(written) && groups == Without(written, taken)
    requires IsNode(ns, a) && forall y :: y in above ==> IsNode(ns, y)
    ensures r == Without(written, taken + TakenUpTo(gof, a, above, |above|))
  {
    r := groups;
    assert taken + {} == taken;
    for k := 0 to |above|
      invariant r == Without(written, taken + TakenUpTo(gof, a, above, k))
    {
      NodesApart(ns, written, a, above[k]);
      NodesApart(ns, written, above[k], a);
      var m := FindTaken(gof, a, above[k]);
      if m.Some? {
        TakenIsMember(gof, a, above[k]);
        r := TakeOut(ns, written, r, taken + TakenUpTo(gof, a, above, k), gof[m.value], m.value);
      }
      NextTaken(gof, a, above, k, taken);
    }
  }

  lemma KeepNone(groups: seq<GroupDef>)
    ensures Without(groups, {}) == groups
  {
    forall i | 0 <= i < |groups| ensures Without(groups, {})[i] == groups[i] {
      KeepAll(groups[i].members, {});
    }
  }

  /** Declared containers are nodes. */
  lemma {:induction false} ContainerIsNode(ns: seq<NodeDef>, groups: seq<GroupDef>, a: Name, y: Name)
    requires Validated(ns, groups) && Acyclic(Containers(ns)) && y in Chain(Containers(ns), a)
    ensures IsNode(ns, y)
    decreases Rank(Containers(ns), a)
  {
    RankDrops(Containers(ns), a);
    if y == Containers(ns)[a] {
      ContainersOnly(ns, a);
      var i :| 0 <= i < |ns| && ns[i].id == a;
      var b := ContainedRelationship(ns, groups, i);
      assert ValidatedNode(ns, ns[i]) && ValidatedTarget(ns, ns[i].relationships[b]);
    } else {
      ContainerIsNode(ns, groups, Containers(ns)[a], y);
    }
  }

  /** Takes members out, for each node and each of its containers that it shares a group with. */
  method RemoveContainedNodes(ns: seq<NodeDef>, groups: seq<GroupDef>) returns (r: seq<GroupDef>)
    requires Validated(ns, groups) && Acyclic(Containers(ns))
    ensures r == HandedOn(ns, groups)
  {
    var gof, containers, names := GroupOf(groups), Containers(ns), NodeNames(ns);
    r := groups;
    KeepNone(groups);
    var todo := names;
    assert TakenOf(names - todo, containers, gof) == {};
    while todo != {}
      invariant todo <= names && r == Without(groups, TakenOf(names - todo, containers, gof))
      decreases todo
    {
      var a :| a in todo;
      var above := Chain(containers, a);
      forall y | y in above ensures IsNode(ns, y) {
        ContainerIsNode(ns, groups, a, y);
      }
      OneMoreNode(names - todo, containers, gof, a);
      assert names - todo + {a} == names - (todo - {a});
      r := RemoveFor(ns, groups, gof, r, TakenOf(names - todo, containers, gof), a, above);
      todo := todo - {a};
    }
    assert names - todo == names;
  }

  // ---------- both together ----------

  /** What the parser lets through, as it is written. */
  ghost predicate Accepted(ns: seq<NodeDef>, groups: seq<GroupDef>) {
    && Validated(ns, groups) && Acyclic(Containers(ns))
    && exists order :: AcceptedInOrder(ns, GroupOf(groups), order)
  }

  /** The groups that are handed on, if the check lets the plan through in the order that it happens to take. */
  method ValidateAndUpdateGroups(ns: seq<NodeDef>, groups: seq<GroupDef>)
    returns (r: Option<seq<GroupDef>>)
    requires Validated(ns, groups) && Acyclic(Containers(ns))
    ensures r.Some? ==> Accepted(ns, groups) && r.value == HandedOn(ns, groups)
    ensures r.None? ==> Rejected(ns, GroupOf(groups))
  {
    var accepted := CheckPairs(ns, GroupOf(groups));
    if !accepted {
      return None;
    }
    var handed := RemoveContainedNodes(ns, groups);
    r := Some(handed);
  }

  /** Fewer members: each is in the group that it was in. */
  lemma HandedGroupOf(ns: seq<NodeDef>, groups: seq<GroupDef>, taken: set<Name>)
    requires Validated(ns, groups)
    ensures GroupOf(Without(groups, taken)) == GroupOf(groups) - taken
  {
    var handed := Without(groups, taken);
    forall x ensures x in GroupOf(handed) <==> x in GroupOf(groups) && x !in taken
      ensures x in GroupOf(handed) ==> x in GroupOf(groups) && GroupOf(handed)[x] == GroupOf(groups)[x]
    {
      GroupOfIs(handed, x);
      GroupOfIs(groups, x);
    }
  }

  lemma FewerAcyclic(gof: map<Name, Name>, taken: set<Name>)
    requires Acyclic(gof)
    ensures Acyclic(gof - taken)
  {
    var rank: map<Name, nat> :| Ranked(gof, rank);
    assert Ranked(gof - taken, rank);
  }

  /** What is handed on is as valid as what was written. */
  lemma HandedValidated(ns: seq<NodeDef>, groups: seq<GroupDef>, taken: set<Name>)
    requires Validated(ns, groups)
    ensures Validated(ns, Without(groups, taken))
  {
    HandedGroupOf(ns, groups, taken);
    FewerAcyclic(GroupOf(groups), taken);
    var handed := Without(groups, taken);
    forall x ensures IsGroup(handed, x) <==> IsGroup(groups, x) {
      if i :| 0 <= i < |groups| && groups[i].name == x {
        assert handed[i].name == x;
      }
    }
  }

  /** No node shares a group with a node that contains it. */
  ghost predicate NoneToRemove(ns: seq<NodeDef>, gof: map<Name, Name>)
    requires Acyclic(Containers(ns)) && Acyclic(gof)
  {
    forall a, x :: IsNode(ns, a) && x in Chain(Containers(ns), a) ==> !ShareGroup(gof, a, x)
  }

  /** Something is taken out for `a` and `y` exactly if they share a group. */
  lemma {:induction false} TakenExactly(gof: map<Name, Name>, a: Name, y: Name)
    requires Acyclic(gof)
    ensures TakenFor(gof, a, y).Some? <==> ShareGroup(gof, a, y)
    decreases Rank(gof, a)
  {
    if a in gof {
      RankDrops(gof, a);
      assert Chain(gof, a) == [gof[a]] + Chain(gof, gof[a]);
      assert gof[a] in Chain(gof, a) &&
        forall group :: group in Chain(gof, a) <==> group == gof[a] || group in Chain(gof, gof[a]);
      TakenExactly(gof, gof[a], y);
    }
  }

  /** The groups are handed on as written exactly if no node shares a group with its container. */
  lemma HandedUnchangedExactly(ns: seq<NodeDef>, groups: seq<GroupDef>)
    requires Validated(ns, groups) && Acyclic(Containers(ns))
    ensures HandedOn(ns, groups) == groups <==> NoneToRemove(ns, GroupOf(groups))
  {
    var gof, containers, names := GroupOf(groups), Containers(ns), NodeNames(ns);
    if NoneToRemove(ns, gof) {
      forall m ensures m !in Taken(ns, gof) {
        TakenOfIs(names, containers, gof, m);
        if a, y :| TakenBy(names, containers, gof, a, y, m) {
          TakenExactly(gof, a, y);
        }
      }
      assert Taken(ns, gof) == {};
      KeepNone(groups);
    } else {
      var a, y :| IsNode(ns, a) && y in Chain(containers, a) && ShareGroup(gof, a, y);
      TakenExactly(gof, a, y);
      TakenIsMember(gof, a, y);
      var m := TakenFor(gof, a, y).value;
      assert TakenBy(names, containers, gof, a, y, m);
      TakenOfIs(names, containers, gof, m);
      HandedGroupOf(ns, groups, Taken(ns, gof));
    }
  }
}
