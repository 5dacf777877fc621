/**
  What it means to expand a containment plan into instances, and how expansions of
  subtrees compose. The expansion itself is `Expansion.Context.BuildTree`.
*/
module Growth {
  import opened Names
  import opened Forests
  import opened ScaleIn

  /** Instances with the plan element each one instantiates and the instance that contains it. */
  datatype Inst = Inst(node: map<Id, Name>, cont: map<Id, Id>)

  /**
    The inputs of an expansion: the plan's containment forest, the declared instance counts,
    the previous instances (none for a fresh deployment), the counts a modification requests, and
    the ids it asks to remove or to spare, each of which may stand for the group it is a member of.
  */
  datatype World = World(
    nodes: set<Name>, parent: map<Name, Name>, current: map<Name, int>,
    prevNode: map<Id, Name>, prevEdges: set<(Id, Id)>, requested: map<Name, int>,
    wanted: map<Name, seq<Id>>, spared: map<Name, seq<Id>>, members: map<Id, set<Id>>)

  ghost predicate ValidPlan(w: World) {
    && Acyclic(w.parent)
    && w.parent.Keys <= w.nodes && w.parent.Values <= w.nodes
    && w.current.Keys == w.nodes
    && w.wanted.Keys == w.requested.Keys && w.spared.Keys == w.requested.Keys
  }

  /** Every previous instance had at most one container. */
  ghost predicate ValidPrevious(w: World) {
    && (forall e :: e in w.prevEdges ==> e.0 in w.prevNode && e.1 in w.prevNode)
    && (forall i, p, q :: PlacedIn(w, i, p) && PlacedIn(w, i, q) ==> p == q)
  }

  /** The previous instance `i` was in the instance `p` of its plan container. */
  ghost predicate PlacedIn(w: World, i: Id, p: Id) {
    && (i, p) in w.prevEdges && i in w.prevNode && p in w.prevNode
    && w.prevNode[i] in w.parent && w.prevNode[p] == w.parent[w.prevNode[i]]
  }

  ghost predicate ValidWorld(w: World) {
    ValidPlan(w) && ValidPrevious(w)
  }

  /** The instances of `c` in container `p`; all instances of `c` when no container is given. */
  ghost function Kids(s: Inst, c: Name, p: Option<Id>): set<Id> {
    set i | i in s.node && s.node[i] == c && (p.Some? ==> i in s.cont && s.cont[i] == p.value)
  }

  ghost function PrevKids(w: World, c: Name, p: Option<Id>): set<Id> {
    set i | i in w.prevNode && w.prevNode[i] == c && (p.Some? ==> (i, p.value) in w.prevEdges)
  }

  /** How many instances of `c` each container must get. */
  ghost function Want(w: World, c: Name, p: Option<Id>): nat
    requires c in w.current
  {
    if c in w.requested then NonNegative(w.requested[c]) else Max(|PrevKids(w, c, p)|, w.current[c])
  }

  /** Every instance sits in an instance of the container its plan element has, and only roots sit in none. */
  ghost predicate WellPlaced(w: World, s: Inst) {
    && s.cont.Keys <= s.node.Keys
    && (forall i :: i in s.node ==> s.node[i] in w.nodes && (i in s.cont <==> s.node[i] in w.parent))
    && (forall i :: i in s.cont ==> s.cont[i] in s.node && s.node[s.cont[i]] == w.parent[s.node[i]])
  }

  /** A previous instance keeps its plan element and its container. */
  ghost predicate Kept(w: World, s: Inst) {
    forall i :: i in s.node && i in w.prevNode ==>
      w.prevNode[i] == s.node[i] && (i in s.cont ==> (i, s.cont[i]) in w.prevEdges)
  }

  ghost predicate Sound(w: World, s: Inst) {
    WellPlaced(w, s) && Kept(w, s)
  }

  ghost predicate Extends(a: Inst, b: Inst) {
    && (forall i :: i in a.node ==> i in b.node && b.node[i] == a.node[i])
    && (forall i :: i in a.node ==> (i in b.cont <==> i in a.cont) && (i in a.cont ==> b.cont[i] == a.cont[i]))
  }

  /** All that `b` adds to `a` are instances of `n` in `p` and whatever those contain. */
  ghost predicate Placed(w: World, a: Inst, b: Inst, n: Name, p: Option<Id>)
    requires ValidPlan(w)
  {
    forall i :: i in b.node && i !in a.node ==>
      && b.node[i] in Subtree(w.nodes, w.parent, n)
      && (if b.node[i] == n then p.Some? ==> i in b.cont && b.cont[i] == p.value
          else i in b.cont && b.cont[i] !in a.node)
  }

  /** The survivors of a scale-in are those that the hints make the last to go. */
  ghost predicate ChosenByHints(w: World, c: Name, p: Option<Id>, kept: seq<Id>)
    requires c in w.wanted && c in w.spared
  {
    exists order: seq<Id>, asked: set<Id>, kindly: set<Id> :: ChoiceAmong(w, c, p, kept, order, asked, kindly)
  }

  /** The previous instances in some order, with the hints resolved against them. */
  ghost predicate ChoiceAmong(w: World, c: Name, p: Option<Id>, kept: seq<Id>,
                              order: seq<Id>, asked: set<Id>, kindly: set<Id>)
    requires c in w.wanted && c in w.spared
  {
    && Distinct(order) && Elements(order) == PrevKids(w, c, p)
    && (forall x :: x in asked <==> Hinted(w.wanted[c], order, w.members, x))
    && (forall x :: x in kindly <==> Hinted(w.spared[c], order, w.members, x))
    && Choice(order, asked, kindly, kept)
  }

  /** Which previous instances of `c` in `p` stay: all of them, unless no larger count is requested: then that many. */
  ghost predicate SurvivorsOk(w: World, c: Name, p: Option<Id>, survivors: set<Id>)
    requires w.wanted.Keys == w.requested.Keys && w.spared.Keys == w.requested.Keys
  {
    if c in w.requested && w.requested[c] <= |PrevKids(w, c, p)|
    then |survivors| == NonNegative(w.requested[c])
         && exists kept: seq<Id> :: Elements(kept) == survivors && ChosenByHints(w, c, p, kept)
    else survivors == PrevKids(w, c, p)
  }

  /** `kids` are the right instances of `c` for `p`: as many as wanted, with the right survivors. */
  ghost predicate KidsOk(w: World, c: Name, p: Option<Id>, kids: set<Id>)
    requires ValidPlan(w) && c in w.current
  {
    |kids| == Want(w, c, p) && SurvivorsOk(w, c, p, kids * PrevKids(w, c, p))
  }

  /** The instance `j` holds the right instances of `c`. */
  ghost predicate CountOk(w: World, b: Inst, j: Id, c: Name)
    requires ValidPlan(w) && c in w.current
  {
    KidsOk(w, c, Some(j), Kids(b, c, Some(j)))
  }

  /** The children `c` of the instance `i` are settled; those of `j` in `todo` are still missing altogether. */
  ghost predicate Settled(w: World, b: Inst, j: Option<Id>, todo: set<Name>, i: Id, c: Name)
    requires ValidPlan(w) && c in w.current
  {
    if Some(i) == j && c in todo then Kids(b, c, Some(i)) == {} else CountOk(w, b, i, c)
  }

  /** Every instance that `b` adds to `a` has its children settled, except those of `j` in `todo`. */
  ghost predicate CountedExcept(w: World, a: Inst, b: Inst, j: Option<Id>, todo: set<Name>)
    requires ValidPlan(w)
  {
    forall i, c :: i in b.node && i !in a.node && c in w.parent && w.parent[c] == b.node[i] ==>
      Settled(w, b, j, todo, i, c)
  }

  ghost predicate Counted(w: World, a: Inst, b: Inst)
    requires ValidPlan(w)
  {
    CountedExcept(w, a, b, None, {})
  }

  function Children(parent: map<Name, Name>, n: Name): (r: set<Name>) {
    set c | c in parent && parent[c] == n
  }

  /** `a` with one more instance. */
  function Add(a: Inst, i: Id, n: Name, p: Option<Id>): Inst {
    Inst(a.node[i := n], if p.Some? then a.cont[i := p.value] else a.cont)
  }

  /** Nothing outside the expanded container gains or loses instances. */
  lemma KidsFrame(w: World, a: Inst, b: Inst, n: Name, p: Id, c: Name, q: Id)
    requires ValidPlan(w) && Extends(a, b) && Placed(w, a, b, n, Some(p))
    requires q in a.node && (c != n || p != q)
    ensures Kids(b, c, Some(q)) == Kids(a, c, Some(q))
  {
    forall i | i in Kids(b, c, Some(q))
      ensures i in Kids(a, c, Some(q))
    {
    }
  }

  lemma KidsFrameRoot(w: World, a: Inst, b: Inst, n: Name, p: Option<Id>, c: Name)
    requires ValidPlan(w) && Extends(a, b) && Placed(w, a, b, n, p)
    requires c !in Subtree(w.nodes, w.parent, n)
    ensures Kids(b, c, None) == Kids(a, c, None)
  {
  }

  lemma ExtendsTransitive(a: Inst, b: Inst, d: Inst)
    requires Extends(a, b) && Extends(b, d)
    ensures Extends(a, d)
  {
  }

  /** Adding the instance `j` itself, before its contents. */
  lemma AddSound(w: World, b: Inst, j: Id, n: Name, p: Option<Id>)
    requires ValidPlan(w) && Sound(w, b)
    requires j !in b.node && n in w.nodes
    requires if p.Some? then n in w.parent && p.value in b.node && b.node[p.value] == w.parent[n] else n !in w.parent
    requires j in w.prevNode ==> j in PrevKids(w, n, p)
    ensures Sound(w, Add(b, j, n, p)) && Extends(b, Add(b, j, n, p))
  {
  }

  lemma {:induction false} AddPlaced(w: World, a: Inst, b: Inst, j: Id, n: Name, p: Option<Id>)
    requires ValidPlan(w) && Placed(w, a, b, n, p)
    requires b.cont.Keys <= b.node.Keys
    requires j !in b.node && n in w.nodes
    ensures Placed(w, a, Add(b, j, n, p), n, p)
  {
    assert n in Subtree(w.nodes, w.parent, n);
    var d := Add(b, j, n, p);
    forall i | i in d.node && i !in a.node
      ensures d.node[i] in Subtree(w.nodes, w.parent, n)
      ensures if d.node[i] == n then p.Some? ==> i in d.cont && d.cont[i] == p.value
              else i in d.cont && d.cont[i] !in a.node
    {
      if i != j {
        assert i in b.node;
      }
    }
  }

  lemma AddKids(b: Inst, j: Id, n: Name, p: Option<Id>)
    requires b.cont.Keys <= b.node.Keys && j !in b.node
    ensures Kids(Add(b, j, n, p), n, p) == Kids(b, n, p) + {j}
  {
  }

  lemma {:induction false} AddCounted(w: World, a: Inst, b: Inst, j: Id, n: Name, p: Option<Id>)
    requires ValidPlan(w) && Sound(w, b) && Extends(a, b) && Counted(w, a, b)
    requires j !in b.node && n in w.nodes
    requires if p.Some? then n in w.parent && p.value in a.node && a.node[p.value] == w.parent[n] else n !in w.parent
    ensures CountedExcept(w, a, Add(b, j, n, p), Some(j), Children(w.parent, n))
  {
    var d := Add(b, j, n, p);
    forall i, c | i in d.node && i !in a.node && c in w.parent && w.parent[c] == d.node[i]
      ensures Settled(w, d, Some(j), Children(w.parent, n), i, c)
    {
      if i != j {
        assert Settled(w, b, None, {}, i, c);
        assert Kids(d, c, Some(i)) == Kids(b, c, Some(i));
        assert CountOk(w, b, i, c);
      }
    }
  }

  /** All that holds of `a` extended to `b` still holds with the instance `j` added, but its children are due. */
  lemma AddStep(w: World, a: Inst, b: Inst, j: Id, n: Name, p: Option<Id>)
    requires ValidPlan(w) && Sound(w, b) && Extends(a, b) && Placed(w, a, b, n, p) && Counted(w, a, b)
    requires j !in b.node && n in w.nodes
    requires if p.Some? then n in w.parent && p.value in a.node && a.node[p.value] == w.parent[n] else n !in w.parent
    requires j in w.prevNode ==> j in PrevKids(w, n, p)
    ensures var d := Add(b, j, n, p);
            Extends(a, d) && Placed(w, a, d, n, p) && Kids(d, n, p) == Kids(b, n, p) + {j}
            && CountedExcept(w, a, d, Some(j), Children(w.parent, n)) && j in d.node && d.node[j] == n
  {
    AddPlaced(w, a, b, j, n, p);
    AddKids(b, j, n, p);
    AddCounted(w, a, b, j, n, p);
    AddSound(w, b, j, n, p);
    ExtendsTransitive(a, b, Add(b, j, n, p));
  }

  /** Expanding the child `c` of the freshly added `j` stays within the expansion of `n` in `p`. */
  lemma {:induction false} ChildPlaced(w: World, a: Inst, b: Inst, d: Inst, n: Name, p: Option<Id>, c: Name, j: Id)
    requires ValidPlan(w) && c in w.parent && w.parent[c] == n
    requires Extends(a, b) && Placed(w, a, b, n, p)
    requires j in b.node && j !in a.node
    requires Extends(b, d) && Placed(w, b, d, c, Some(j))
    ensures Extends(a, d) && Placed(w, a, d, n, p)
    ensures Kids(d, n, p) == Kids(b, n, p)
  {
    SubtreeShrinks(w.nodes, w.parent, c);
    ParentOutside(w, c);
    assert n !in Subtree(w.nodes, w.parent, c);
  }

  /** A plan element does not belong to the subtree of its own child. */
  lemma ParentOutside(w: World, c: Name)
    requires ValidPlan(w) && c in w.parent
    ensures w.parent[c] !in Subtree(w.nodes, w.parent, c)
  {
    RankDrops(w.parent, c);
    if c in Chain(w.parent, w.parent[c]) {
      ChainRanks(w.parent, w.parent[c], c);
    }
  }

  /** What the call for `c` in `j` leaves as it was, and what it settles. */
  lemma ChildCountAt(w: World, b: Inst, d: Inst, c: Name, j: Id, i: Id, k: Name)
    requires ValidPlan(w) && c in w.parent && k in w.parent
    requires j in b.node && Extends(b, d) && Placed(w, b, d, c, Some(j)) && Counted(w, b, d) && CountOk(w, d, j, c)
    requires i in d.node && w.parent[k] == d.node[i]
    ensures i !in b.node || (i == j && k == c) ==> CountOk(w, d, i, k)
    ensures i in b.node && (i != j || k != c) ==> Kids(d, k, Some(i)) == Kids(b, k, Some(i))
  {
    if i in b.node && (i != j || k != c) {
      KidsFrame(w, b, d, c, j, k, i);
    }
  }

  lemma ChildSettled(w: World, a: Inst, b: Inst, d: Inst, c: Name, j: Id, todo: set<Name>, i: Id, k: Name)
    requires ValidPlan(w) && c in w.parent && k in w.parent && c in todo
    requires i in b.node && i !in a.node ==> Settled(w, b, Some(j), todo, i, k)
    requires j in b.node && Extends(b, d) && Placed(w, b, d, c, Some(j)) && Counted(w, b, d) && CountOk(w, d, j, c)
    requires i in d.node && i !in a.node && w.parent[k] == d.node[i]
    ensures Settled(w, d, Some(j), todo - {c}, i, k)
  {
    ChildCountAt(w, b, d, c, j, i, k);
  }

  lemma {:induction false} ChildCounted(w: World, a: Inst, b: Inst, d: Inst, c: Name, j: Id, todo: set<Name>)
    requires ValidPlan(w) && c in w.parent && c in todo
    requires Extends(a, b) && CountedExcept(w, a, b, Some(j), todo)
    requires j in b.node && j !in a.node && b.node[j] == w.parent[c]
    requires Extends(b, d) && Placed(w, b, d, c, Some(j)) && Counted(w, b, d) && CountOk(w, d, j, c)
    ensures CountedExcept(w, a, d, Some(j), todo - {c})
  {
    forall i, k | i in d.node && i !in a.node && k in w.parent && w.parent[k] == d.node[i]
      ensures Settled(w, d, Some(j), todo - {c}, i, k)
    {
      ChildSettled(w, a, b, d, c, j, todo, i, k);
    }
  }

  lemma DoneCounted(w: World, a: Inst, b: Inst, j: Id)
    requires ValidPlan(w) && CountedExcept(w, a, b, Some(j), {})
    ensures Counted(w, a, b)
  {
    forall i, c | i in b.node && i !in a.node && c in w.parent && w.parent[c] == b.node[i]
      ensures Settled(w, b, None, {}, i, c)
    {
      assert Settled(w, b, Some(j), {}, i, c);
    }
  }

  /** A previous child of `p` can only be placed in `p`. */
  lemma PrevKidPlaced(w: World, s: Inst, c: Name, p: Option<Id>, i: Id)
    requires ValidWorld(w) && Sound(w, s)
    requires if p.Some? then c in w.parent && p.value in s.node && s.node[p.value] == w.parent[c] else c !in w.parent
    requires i in PrevKids(w, c, p) && i in s.node
    ensures i in Kids(s, c, p)
  {
    if p.Some? {
      assert PlacedIn(w, i, s.cont[i]) && PlacedIn(w, i, p.value);
    }
  }

  /** Every container in `s`, and the deployment as a whole, holds the right instances. */
  ghost predicate Complete(w: World, s: Inst)
    requires ValidPlan(w)
  {
    && (forall r :: r in w.nodes && r !in w.parent ==> KidsOk(w, r, None, Kids(s, r, None)))
    && Counted(w, Inst(map[], map[]), s)
  }

  /** Expanding one tree does not touch what other trees hold. */
  lemma RootCounted(w: World, b: Inst, d: Inst, n: Name)
    requires ValidPlan(w) && n in w.nodes && n !in w.parent
    requires Extends(b, d) && Placed(w, b, d, n, None)
    requires Counted(w, Inst(map[], map[]), b) && Counted(w, b, d)
    ensures Counted(w, Inst(map[], map[]), d)
  {
    forall i, c | i in d.node && c in w.parent && w.parent[c] == d.node[i]
      ensures Settled(w, d, None, {}, i, c)
    {
      if i in b.node {
        assert Settled(w, b, None, {}, i, c);
        assert Kids(d, c, Some(i)) == Kids(b, c, Some(i));
      } else {
        assert Settled(w, d, None, {}, i, c);
      }
    }
  }

  /** Trees of different roots have no plan element in common with each other's root. */
  lemma OtherRoot(w: World, b: Inst, d: Inst, n: Name, r: Name)
    requires ValidPlan(w) && n != r && r in w.nodes && r !in w.parent
    requires Extends(b, d) && Placed(w, b, d, n, None)
    ensures Kids(d, r, None) == Kids(b, r, None)
  {
    KidsFrameRoot(w, b, d, n, None, r);
  }

  function Roots(w: World): set<Name> {
    set n | n in w.nodes && n !in w.parent
  }

  /** The trees of all roots but those in `todo` are expanded. */
  ghost predicate RootsLeft(w: World, s: Inst, todo: set<Name>)
    requires ValidPlan(w)
  {
    && Counted(w, Inst(map[], map[]), s)
    && forall r :: r in Roots(w) ==> RootLeft(w, s, todo, r)
  }

  ghost predicate RootLeft(w: World, s: Inst, todo: set<Name>, r: Name)
    requires ValidPlan(w) && r in w.nodes
  {
    if r in todo then Kids(s, r, None) == {} else KidsOk(w, r, None, Kids(s, r, None))
  }

  lemma RootLeftStep(w: World, b: Inst, d: Inst, n: Name, todo: set<Name>, r: Name)
    requires ValidPlan(w) && n in Roots(w) && r in Roots(w) && r != n && RootLeft(w, b, todo, r)
    requires Extends(b, d) && Placed(w, b, d, n, None)
    ensures RootLeft(w, d, todo - {n}, r)
  {
    OtherRoot(w, b, d, n, r);
  }

  lemma RootStep(w: World, b: Inst, d: Inst, n: Name, todo: set<Name>)
    requires ValidPlan(w) && n in Roots(w) && RootsLeft(w, b, todo)
    requires Extends(b, d) && Placed(w, b, d, n, None) && Counted(w, b, d) && KidsOk(w, n, None, Kids(d, n, None))
    ensures RootsLeft(w, d, todo - {n})
  {
    forall r | r in Roots(w)
      ensures RootLeft(w, d, todo - {n}, r)
    {
      if r != n {
        assert RootLeft(w, b, todo, r);
        RootLeftStep(w, b, d, n, todo, r);
      }
    }
    RootCounted(w, b, d, n);
  }

  lemma RootsDone(w: World, s: Inst)
    requires ValidPlan(w) && RootsLeft(w, s, {})
    ensures Complete(w, s)
  {
    forall r | r in w.nodes && r !in w.parent
      ensures KidsOk(w, r, None, Kids(s, r, None))
    {
      assert RootLeft(w, s, {}, r);
    }
  }
}
