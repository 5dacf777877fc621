/**
  The outcomes that a modification may have: whatever survivors the hints allow at each container,
  some outcome keeps exactly these.
*/
module Outcomes {
  import opened Names
  import opened Forests
  import opened Growth
  import opened Expansion
  import opened Deployments
  import opened Survival

  /** The survivors to be had of some elements in some containers. */
  type Choices = map<(Name, Option<Id>), set<Id>>

  ghost predicate Allowed(w: World, f: Choices)
    requires Hints(w)
  {
    forall key :: key in f ==> SurvivorsOk(w, key.0, key.1, f[key])
  }

  ghost predicate Picked(w: World, s: Inst, c: Name, p: Option<Id>, f: Choices) {
    (c, p) in f ==> Kids(s, c, p) * PrevKids(w, c, p) == f[(c, p)]
  }

  ghost predicate PickedAt(w: World, s: Inst, j: Option<Id>, todo: set<Name>, i: Id, c: Name, f: Choices) {
    (Some(i) == j && c in todo) || Picked(w, s, c, Some(i), f)
  }

  /** The instances that `b` adds to `a` hold what is to be had, but for the elements in `todo` below `j`. */
  ghost predicate PickedExcept(w: World, a: Inst, b: Inst, j: Option<Id>, todo: set<Name>, f: Choices) {
    forall i, c :: i in b.node && i !in a.node && c in w.parent && w.parent[c] == b.node[i] ==>
      PickedAt(w, b, j, todo, i, c, f)
  }

  /** All that holds between two steps: `b` extends `a` by instances of `n` in `p`, which are settled. */
  ghost predicate Growing(w: World, a: Inst, b: Inst, n: Name, p: Option<Id>, f: Choices) {
    && ValidWorld(w) && Allowed(w, f) && FitsIn(w, a, n, p)
    && Sound(w, b) && Extends(a, b) && Placed(w, a, b, n, p) && Counted(w, a, b) && PickedExcept(w, a, b, None, {}, f)
  }

  // ---------- how many of which ----------

  lemma SomeSurvivors(w: World, c: Name, p: Option<Id>) returns (v: set<Id>)
    requires Hints(w)
    ensures SurvivorsOk(w, c, p, v)
  {
    v := PrevKids(w, c, p);
    if ScaledIn(w, c, p) && Removals(w, c, p) > 0 {
      var asked, kindly := Asked(w, c, p), Kindly(w, c, p);
      var j :| j in v;
      var gone := EnlargeFrom(asked, kindly, v, {}, Removals(w, c, p));
      MayRemove(w, c, p, gone);
      v := v - gone;
    } else if ScaledIn(w, c, p) {
      MayRemove(w, c, p, {});
      assert v - {} == v;
    }
  }

  lemma {:induction false} EnlargeFrom(asked: set<Id>, kindly: set<Id>, all: set<Id>, gone: set<Id>, m: nat)
    returns (more: set<Id>)
    requires ByClass(asked, kindly, all, gone) && |gone| <= m <= |all|
    ensures ByClass(asked, kindly, all, more) && |more| == m
    decreases m - |gone|
  {
    more := gone;
    if |gone| < m {
      SizeOfRest(all, gone);
      var x := LeastReady(asked, kindly, all - gone);
      more := EnlargeFrom(asked, kindly, all, gone + {x}, m);
    }
  }

  /** Survivors as wanted, and the number of new instances that makes up the count. */
  lemma PickSurvivors(w: World, c: Name, p: Option<Id>, f: Choices) returns (v: set<Id>, more: nat)
    requires ValidPlan(w) && c in w.nodes && Allowed(w, f)
    ensures SurvivorsOk(w, c, p, v) && v <= PrevKids(w, c, p) && |v| + more == Want(w, c, p)
    ensures (c, p) in f ==> v == f[(c, p)]
  {
    if (c, p) in f {
      v := f[(c, p)];
    } else {
      v := SomeSurvivors(w, c, p);
    }
    if ScaledIn(w, c, p) {
      SurvivorsWithin(w, c, p, v);
      more := 0;
    } else {
      more := Want(w, c, p) - |v|;
    }
  }

  // ---------- growing ----------

  /** What the expansion of the child `c` of `j` leaves of the picks, and what it adds. */
  lemma ChildPicked(w: World, a: Inst, b: Inst, d: Inst, c: Name, j: Id, todo: set<Name>, f: Choices)
    requires ValidPlan(w) && c in w.parent && c in todo
    requires j in b.node && j !in a.node && b.node[j] == w.parent[c]
    requires Extends(a, b) && Extends(b, d) && Placed(w, b, d, c, Some(j))
    requires PickedExcept(w, a, b, Some(j), todo, f) && PickedExcept(w, b, d, None, {}, f) &&
      Picked(w, d, c, Some(j), f)
    ensures PickedExcept(w, a, d, Some(j), todo - {c}, f)
  {
    forall i, k | i in d.node && i !in a.node && k in w.parent && w.parent[k] == d.node[i]
      ensures PickedAt(w, d, Some(j), todo - {c}, i, k, f)
    {
      if i !in b.node {
        assert PickedAt(w, d, None, {}, i, k, f);
      } else if i != j || k != c {
        assert PickedAt(w, b, Some(j), todo, i, k, f);
        KidsFrame(w, b, d, c, j, k, i);
      }
    }
  }

  lemma AddPicked(w: World, a: Inst, b: Inst, j: Id, n: Name, p: Option<Id>, f: Choices)
    requires ValidPlan(w) && WellPlaced(w, b) && Extends(a, b) && PickedExcept(w, a, b, None, {}, f)
    requires j !in b.node && FitsIn(w, a, n, p)
    ensures PickedExcept(w, a, Add(b, j, n, p), Some(j), Children(w.parent, n), f)
  {
    var d := Add(b, j, n, p);
    forall i, c | i in d.node && i !in a.node && c in w.parent && w.parent[c] == d.node[i]
      ensures PickedAt(w, d, Some(j), Children(w.parent, n), i, c, f)
    {
      if i != j {
        assert PickedAt(w, b, None, {}, i, c, f);
        assert Kids(d, c, Some(i)) == Kids(b, c, Some(i));
      }
    }
  }

  lemma DonePicked(w: World, a: Inst, b: Inst, j: Id, f: Choices)
    requires PickedExcept(w, a, b, Some(j), {}, f)
    ensures PickedExcept(w, a, b, None, {}, f)
  {
    forall i, c | i in b.node && i !in a.node && c in w.parent && w.parent[c] == b.node[i]
      ensures PickedAt(w, b, None, {}, i, c, f)
    {
      assert PickedAt(w, b, Some(j), {}, i, c, f);
    }
  }

  /** Nothing is added yet. */
  lemma StartGrowing(w: World, a: Inst, n: Name, p: Option<Id>, f: Choices)
    requires ValidWorld(w) && Allowed(w, f) && FitsIn(w, a, n, p) && Sound(w, a)
    ensures Growing(w, a, a, n, p, f)
  {
  }

  /** The tree of `n` in `p`, with the survivors that `f` asks for. */
  lemma {:induction false} GrowTree(w: World, a: Inst, n: Name, p: Option<Id>, f: Choices) returns (b: Inst)
    requires ValidWorld(w) && Allowed(w, f) && FitsIn(w, a, n, p) && Sound(w, a) && Kids(a, n, p) == {}
    ensures Growing(w, a, b, n, p, f) && KidsOk(w, n, p, Kids(b, n, p)) && Picked(w, b, n, p, f)
    decreases Subtree(w.nodes, w.parent, n), 3
  {
    var v, more := PickSurvivors(w, n, p, f);
    StartGrowing(w, a, n, p, f);
    b := GrowKids(w, a, a, n, p, v, more, f);
  }

  /** `v` and as many new ones. */
  lemma {:induction false} GrowKids(w: World, a: Inst, b: Inst, n: Name, p: Option<Id>, v: set<Id>, more: nat,
                                    f: Choices)
    returns (d: Inst)
    requires Growing(w, a, b, n, p, f) && v <= PrevKids(w, n, p) && v !! Kids(b, n, p)
    ensures Growing(w, a, d, n, p, f)
    ensures Kids(d, n, p) * PrevKids(w, n, p) == Kids(b, n, p) * PrevKids(w, n, p) + v
    ensures |Kids(d, n, p)| == |Kids(b, n, p)| + |v| + more
    decreases Subtree(w.nodes, w.parent, n), 2, |v| + more
  {
    d := b;
    if v != {} {
      var x :| x in v;
      NotThere(w, a, b, n, p, v, f, x);
      d := GrowContainer(w, a, b, n, p, x, f);
      OldKid(Kids(b, n, p), PrevKids(w, n, p), v, x);
      d := GrowKids(w, a, d, n, p, v - {x}, more, f);
    } else if more > 0 {
      var x := NewId(w, b);
      d := GrowContainer(w, a, b, n, p, x, f);
      NewKid(Kids(b, n, p), PrevKids(w, n, p), x);
      d := GrowKids(w, a, d, n, p, v, more - 1, f);
    }
  }

  lemma NotThere(w: World, a: Inst, b: Inst, n: Name, p: Option<Id>, v: set<Id>, f: Choices, x: Id)
    requires Growing(w, a, b, n, p, f) && v <= PrevKids(w, n, p) && v !! Kids(b, n, p) && x in v
    ensures x !in b.node
  {
    if x in b.node {
      PrevKidPlaced(w, b, n, p, x);
    }
  }

  lemma OldKid(kids: set<Id>, prev: set<Id>, v: set<Id>, x: Id)
    requires v <= prev && v !! kids && x in v
    ensures v - {x} !! kids + {x} && |kids + {x}| == |kids| + 1 && |v - {x}| == |v| - 1
    ensures (kids + {x}) * prev + (v - {x}) == kids * prev + v
  {
  }

  lemma NewKid(kids: set<Id>, prev: set<Id>, x: Id)
    requires x !in kids && x !in prev
    ensures |kids + {x}| == |kids| + 1 && (kids + {x}) * prev == kids * prev
  {
  }

  lemma NewId(w: World, b: Inst) returns (x: Id)
    ensures x !in b.node && x !in w.prevNode
  {
    x := UpperBound(b.node.Keys + w.prevNode.Keys);
    assert x !in b.node.Keys + w.prevNode.Keys;
  }

  lemma {:induction false} GrowContainer(w: World, a: Inst, b: Inst, n: Name, p: Option<Id>, x: Id, f: Choices)
    returns (d: Inst)
    requires Growing(w, a, b, n, p, f) && x !in b.node && (x in w.prevNode ==> x in PrevKids(w, n, p))
    ensures Growing(w, a, d, n, p, f) && Kids(d, n, p) == Kids(b, n, p) + {x}
    decreases Subtree(w.nodes, w.parent, n), 1
  {
    AddStep(w, a, b, x, n, p);
    AddSound(w, b, x, n, p);
    AddPicked(w, a, b, x, n, p, f);
    d := GrowChildren(w, a, Add(b, x, n, p), n, p, x, Children(w.parent, n), f);
  }

  lemma {:induction false} GrowChildren(w: World, a: Inst, b: Inst, n: Name, p: Option<Id>, j: Id, todo: set<Name>,
                                        f: Choices)
    returns (d: Inst)
    requires ValidWorld(w) && Allowed(w, f) && FitsIn(w, a, n, p) && todo <= Children(w.parent, n)
    requires Sound(w, b) && Extends(a, b) && Placed(w, a, b, n, p)
    requires j in b.node && j !in a.node && b.node[j] == n
    requires CountedExcept(w, a, b, Some(j), todo) && PickedExcept(w, a, b, Some(j), todo, f)
    ensures Growing(w, a, d, n, p, f) && Kids(d, n, p) == Kids(b, n, p)
    decreases Subtree(w.nodes, w.parent, n), 0, todo
  {
    if todo == {} {
      d := b;
      DoneCounted(w, a, b, j);
      DonePicked(w, a, b, j, f);
    } else {
      var c :| c in todo;
      SubtreeShrinks(w.nodes, w.parent, c);
      assert Settled(w, b, Some(j), todo, j, c);
      d := GrowTree(w, b, c, Some(j), f);
      ChildPlaced(w, a, b, d, n, p, c, j);
      ChildCounted(w, a, b, d, c, j, todo);
      ChildPicked(w, a, b, d, c, j, todo, f);
      d := GrowChildren(w, a, d, n, p, j, todo - {c}, f);
    }
  }

  // ---------- whole outcomes ----------

  ghost predicate PickedRoots(w: World, s: Inst, todo: set<Name>, f: Choices) {
    forall r :: r in Roots(w) && r !in todo ==> Picked(w, s, r, None, f)
  }

  /** The trees of the roots in `todo`, in addition to those there are. */
  lemma {:induction false} GrowRoots(w: World, b: Inst, todo: set<Name>, f: Choices) returns (s: Inst)
    requires ValidWorld(w) && Allowed(w, f) && Sound(w, b) && todo <= Roots(w) && RootsLeft(w, b, todo)
    requires PickedExcept(w, Inst(map[], map[]), b, None, {}, f) && PickedRoots(w, b, todo, f)
    ensures Sound(w, s) && Complete(w, s)
    ensures PickedExcept(w, Inst(map[], map[]), s, None, {}, f) && PickedRoots(w, s, {}, f)
    decreases todo
  {
    if todo == {} {
      s := b;
      RootsDone(w, s);
    } else {
      var n :| n in todo;
      assert RootLeft(w, b, todo, n);
      var d := GrowTree(w, b, n, None, f);
      RootStep(w, b, d, n, todo);
      RootPicked(w, b, d, n, todo, f);
      s := GrowRoots(w, d, todo - {n}, f);
    }
  }

  lemma RootPicked(w: World, b: Inst, d: Inst, n: Name, todo: set<Name>, f: Choices)
    requires ValidPlan(w) && n in Roots(w) && Extends(b, d) && Placed(w, b, d, n, None)
    requires PickedExcept(w, Inst(map[], map[]), b, None, {}, f) && PickedRoots(w, b, todo, f)
    requires PickedExcept(w, b, d, None, {}, f) && Picked(w, d, n, None, f)
    ensures PickedExcept(w, Inst(map[], map[]), d, None, {}, f) && PickedRoots(w, d, todo - {n}, f)
  {
    forall i, c | i in d.node && c in w.parent && w.parent[c] == d.node[i]
      ensures PickedAt(w, d, None, {}, i, c, f)
    {
      if i in b.node {
        assert PickedAt(w, b, None, {}, i, c, f);
        assert Kids(d, c, Some(i)) == Kids(b, c, Some(i));
      }
    }
    forall r | r in Roots(w) && r !in todo - {n}
      ensures Picked(w, d, r, None, f)
    {
      if r != n {
        OtherRoot(w, b, d, n, r);
      }
    }
  }

  /** The survivors that `f` asks for are those that `s` keeps, wherever `s` has the container. */
  ghost predicate Honours(w: World, s: Inst, f: Choices) {
    && (forall r :: r in Roots(w) ==> Picked(w, s, r, None, f))
    && (forall i, c :: i in s.node && c in w.parent && w.parent[c] == s.node[i] ==> Picked(w, s, c, Some(i), f))
  }

  /** Whatever survivors the hints allow, some outcome has them. */
  lemma {:induction false} SomeOutcome(w: World, f: Choices) returns (s: Inst)
    requires ValidWorld(w) && Allowed(w, f)
    ensures Sound(w, s) && Complete(w, s) && Honours(w, s, f)
  {
    s := GrowRoots(w, Inst(map[], map[]), Roots(w), f);
    forall i, c | i in s.node && c in w.parent && w.parent[c] == s.node[i]
      ensures Picked(w, s, c, Some(i), f)
    {
      assert PickedAt(w, s, None, {}, i, c, f);
    }
  }
}
