/**
  Which previous instances a modification is sure to keep, sure to remove, or may do either with.
*/
module Survival {
  import opened Names
  import opened ScaleIn
  import opened Growth
  import opened Deployments

  // ---------- one scale-in ----------

  /** The hints among the previous instances of `c` in `p`, in whatever order these are listed. */
  ghost predicate HintedIn(raw: seq<Id>, ids: set<Id>, members: map<Id, set<Id>>, x: Id) {
    && x in ids
    && (x in raw || exists h :: h in raw && h !in ids && x in members && h in members[x])
  }

  ghost function HintedAmong(raw: seq<Id>, ids: set<Id>, members: map<Id, set<Id>>): set<Id> {
    set x | x in ids && HintedIn(raw, ids, members, x)
  }

  ghost function Asked(w: World, c: Name, p: Option<Id>): set<Id>
    requires c in w.wanted
  {
    HintedAmong(w.wanted[c], PrevKids(w, c, p), w.members)
  }

  ghost function Kindly(w: World, c: Name, p: Option<Id>): set<Id>
    requires c in w.spared
  {
    HintedAmong(w.spared[c], PrevKids(w, c, p), w.members)
  }

  lemma HintedSame(raw: seq<Id>, order: seq<Id>, members: map<Id, set<Id>>, x: Id)
    ensures Hinted(raw, order, members, x) <==> HintedIn(raw, Elements(order), members, x)
  {
  }

  /** `c` is scaled in within `p`, or keeps its number. */
  ghost predicate ScaledIn(w: World, c: Name, p: Option<Id>) {
    c in w.requested && w.requested[c] <= |PrevKids(w, c, p)|
  }

  ghost predicate Hints(w: World) {
    w.wanted.Keys == w.requested.Keys && w.spared.Keys == w.requested.Keys
  }

  ghost function Removals(w: World, c: Name, p: Option<Id>): int
    requires ScaledIn(w, c, p)
  {
    |PrevKids(w, c, p)| - NonNegative(w.requested[c])
  }

  /** How readily `x` is given up: asked for first, spared ones last. */
  ghost function Readiness(w: World, c: Name, p: Option<Id>, x: Id): nat
    requires Hints(w) && ScaledIn(w, c, p)
  {
    Class(Asked(w, c, p), Kindly(w, c, p), x)
  }

  /** Those that are given up more readily than `j`. */
  ghost function Sooner(w: World, c: Name, p: Option<Id>, j: Id): set<Id>
    requires Hints(w) && ScaledIn(w, c, p)
  {
    var kids, asked, kindly := PrevKids(w, c, p), Asked(w, c, p), Kindly(w, c, p);
    set x | x in kids && Class(asked, kindly, x) < Class(asked, kindly, j)
  }

  /** Those that are given up at least as readily as `j`, which is one of them. */
  ghost function NoLater(w: World, c: Name, p: Option<Id>, j: Id): set<Id>
    requires Hints(w) && ScaledIn(w, c, p)
  {
    var kids, asked, kindly := PrevKids(w, c, p), Asked(w, c, p), Kindly(w, c, p);
    set x | x in kids && Class(asked, kindly, x) <= Class(asked, kindly, j)
  }

  /** All that has to go can be taken from those that go before `j`. */
  ghost predicate Safe(w: World, c: Name, p: Option<Id>, j: Id)
    requires Hints(w)
  {
    ScaledIn(w, c, p) ==> Removals(w, c, p) <= |Sooner(w, c, p, j)|
  }

  /** So much has to go that `j` is among it. */
  ghost predicate Doomed(w: World, c: Name, p: Option<Id>, j: Id)
    requires Hints(w)
  {
    ScaledIn(w, c, p) && |NoLater(w, c, p, j)| <= Removals(w, c, p)
  }

  /** What the survivors of a scale-in owe to the classes of the hints. */
  lemma SurvivorsByClass(w: World, c: Name, p: Option<Id>, survivors: set<Id>, r: Id, k: Id)
    requires Hints(w) && ScaledIn(w, c, p) && SurvivorsOk(w, c, p, survivors)
    requires r in PrevKids(w, c, p) && r !in survivors && k in survivors
    ensures Readiness(w, c, p, r) <= Readiness(w, c, p, k)
  {
    var kept: seq<Id> :| Elements(kept) == survivors && ChosenByHints(w, c, p, kept);
    var order: seq<Id>, asked: set<Id>, kindly: set<Id> :| ChoiceAmong(w, c, p, kept, order, asked, kindly);
    HintsResolved(w, c, p, order);
    assert asked == Asked(w, c, p) && kindly == Kindly(w, c, p);
    assert r in order && r !in kept && k in kept;
    assert GoesFirst(order, asked, kindly, r, k);
  }

  lemma SurvivorsWithin(w: World, c: Name, p: Option<Id>, survivors: set<Id>)
    requires Hints(w) && ScaledIn(w, c, p) && SurvivorsOk(w, c, p, survivors)
    ensures survivors <= PrevKids(w, c, p) && |PrevKids(w, c, p) - survivors| == Removals(w, c, p)
  {
    var kept: seq<Id> :| Elements(kept) == survivors && ChosenByHints(w, c, p, kept);
    var order: seq<Id>, asked: set<Id>, kindly: set<Id> :| ChoiceAmong(w, c, p, kept, order, asked, kindly);
    assert forall x :: x in kept ==> x in order;
    SizeOfRest(PrevKids(w, c, p), survivors);
  }

  lemma SizeOfRest(all: set<Id>, part: set<Id>)
    requires part <= all
    ensures |all - part| == |all| - |part|
  {
    assert all == part + (all - part);
  }

  lemma Smaller(a: set<Id>, b: set<Id>)
    requires a <= b
    ensures |a| <= |b|
  {
    SizeOfRest(b, a);
  }

  /** What is safe survives. */
  lemma SafeSurvives(w: World, c: Name, p: Option<Id>, survivors: set<Id>, j: Id)
    requires Hints(w) && SurvivorsOk(w, c, p, survivors) && j in PrevKids(w, c, p) && Safe(w, c, p, j)
    ensures j in survivors
  {
    if ScaledIn(w, c, p) && j !in survivors {
      SurvivorsWithin(w, c, p, survivors);
      var gone := PrevKids(w, c, p) - survivors;
      forall x | x in Sooner(w, c, p, j) ensures x in gone - {j} {
        if x in survivors {
          SurvivorsByClass(w, c, p, survivors, j, x);
        }
      }
      Smaller(Sooner(w, c, p, j), gone - {j});
    }
  }

  /** What is doomed does not. */
  lemma DoomedGoes(w: World, c: Name, p: Option<Id>, survivors: set<Id>, j: Id)
    requires Hints(w) && SurvivorsOk(w, c, p, survivors) && j in PrevKids(w, c, p) && Doomed(w, c, p, j)
    ensures j !in survivors
  {
    if j in survivors {
      SurvivorsWithin(w, c, p, survivors);
      var gone := PrevKids(w, c, p) - survivors;
      forall x | x in gone ensures x in NoLater(w, c, p, j) - {j} {
        SurvivorsByClass(w, c, p, survivors, x, j);
      }
      Smaller(gone, NoLater(w, c, p, j) - {j});
    }
  }

  // ---------- neither safe nor doomed ----------

  /** Nothing is left that would have to go before something in `gone`. */
  ghost predicate ByClass(asked: set<Id>, kindly: set<Id>, all: set<Id>, gone: set<Id>) {
    gone <= all && forall r, k :: r in gone && k in all - gone ==> Class(asked, kindly, r) <= Class(asked, kindly, k)
  }

  /** First those that go, then those that stay: a list in which the former precede the latter. */
  lemma JoinLists(all: set<Id>, gone: set<Id>, first: seq<Id>, kept: seq<Id>)
    requires gone <= all && Distinct(first) && Elements(first) == gone && Distinct(kept) && Elements(kept) == all - gone
    ensures Distinct(first + kept) && Elements(first + kept) == all
    ensures Without(first + kept, gone) == kept && forall x :: x in first <==> x in gone
  {
    assert forall x :: x in first <==> x in Elements(first);
    assert forall x :: x in kept <==> x in Elements(kept);
    var order := first + kept;
    forall i, j | 0 <= i < j < |order| ensures order[i] != order[j] {
      if i < |first| && j >= |first| {
        assert first[i] in first && kept[j - |first|] in kept;
      }
    }
    assert forall x :: x in order <==> x in first || x in kept;
    WithoutFirst(first, kept, gone);
  }

  lemma ChoiceByClass(asked: set<Id>, kindly: set<Id>, all: set<Id>, gone: set<Id>, first: seq<Id>, kept: seq<Id>)
    requires ByClass(asked, kindly, all, gone)
    requires Distinct(first) && Elements(first) == gone && Distinct(kept) && Elements(kept) == all - gone
    ensures Choice(first + kept, asked, kindly, kept)
  {
    JoinLists(all, gone, first, kept);
    var order := first + kept;
    assert Elements(order) - Elements(kept) == gone;
    forall r, k | r in order && r !in kept && k in kept ensures GoesFirst(order, asked, kindly, r, k) {
      assert k in Elements(kept);
      PrecedesAll(first, kept, r, k);
    }
  }

  /** Such a removal, of the right size, is one that the scale-in may make. */
  lemma MayRemove(w: World, c: Name, p: Option<Id>, gone: set<Id>)
    requires Hints(w) && ScaledIn(w, c, p) && ByClass(Asked(w, c, p), Kindly(w, c, p), PrevKids(w, c, p), gone)
    requires |gone| == Removals(w, c, p)
    ensures SurvivorsOk(w, c, p, PrevKids(w, c, p) - gone)
  {
    var all, asked, kindly := PrevKids(w, c, p), Asked(w, c, p), Kindly(w, c, p);
    var first := InOrder(gone);
    var kept := InOrder(all - gone);
    JoinLists(all, gone, first, kept);
    ChoiceByClass(asked, kindly, all, gone, first, kept);
    HintsResolved(w, c, p, first + kept);
    assert ChoiceAmong(w, c, p, kept, first + kept, asked, kindly);
    SizeOfRest(all, gone);
  }

  lemma HintsResolved(w: World, c: Name, p: Option<Id>, order: seq<Id>)
    requires Hints(w) && c in w.requested && Elements(order) == PrevKids(w, c, p)
    ensures forall x :: x in Asked(w, c, p) <==> Hinted(w.wanted[c], order, w.members, x)
    ensures forall x :: x in Kindly(w, c, p) <==> Hinted(w.spared[c], order, w.members, x)
  {
    forall x ensures (x in Asked(w, c, p) <==> Hinted(w.wanted[c], order, w.members, x))
      && (x in Kindly(w, c, p) <==> Hinted(w.spared[c], order, w.members, x))
    {
      HintedSame(w.wanted[c], order, w.members, x);
      HintedSame(w.spared[c], order, w.members, x);
    }
  }

  lemma {:induction false} InOrder(ids: set<Id>) returns (s: seq<Id>)
    ensures Distinct(s) && Elements(s) == ids
  {
    if ids == {} {
      s := [];
    } else {
      var x :| x in ids;
      var rest := InOrder(ids - {x});
      s := [x] + rest;
      assert forall y :: y in s <==> y == x || y in Elements(rest);
    }
  }

  lemma {:induction false} WithoutFirst(first: seq<Id>, kept: seq<Id>, gone: set<Id>)
    requires (forall x :: x in first ==> x in gone) && forall x :: x in kept ==> x !in gone
    ensures Without(first + kept, gone) == kept
  {
    if first == [] {
      assert first + kept == kept;
      WithoutNone(kept, gone);
    } else {
      assert (first + kept)[1..] == first[1..] + kept;
      WithoutFirst(first[1..], kept, gone);
    }
  }

  lemma PrecedesAll(first: seq<Id>, kept: seq<Id>, r: Id, k: Id)
    requires r in first && k in kept
    ensures Precedes(first + kept, r, k)
  {
    var i :| 0 <= i < |first| && first[i] == r;
    var j :| 0 <= j < |kept| && kept[j] == k;
    assert (first + kept)[i] == r && (first + kept)[|first| + j] == k;
  }

  lemma {:induction false} LeastReady(asked: set<Id>, kindly: set<Id>, rest: set<Id>) returns (x: Id)
    requires rest != {}
    ensures x in rest && forall y :: y in rest ==> Class(asked, kindly, x) <= Class(asked, kindly, y)
  {
    x :| x in rest;
    if rest != {x} {
      var y := LeastReady(asked, kindly, rest - {x});
      if Class(asked, kindly, y) < Class(asked, kindly, x) {
        x := y;
      }
    }
  }

  /**
    A removal by class can be enlarged, one at a time, without touching those to be avoided as long as
    others are ready.
  */
  lemma {:induction false} Enlarge(asked: set<Id>, kindly: set<Id>, all: set<Id>, gone: set<Id>, m: nat, j: Id)
    returns (more: set<Id>)
    requires ByClass(asked, kindly, all, gone) && |gone| <= m <= |all| && j in all
    requires j in gone || m < |set x | x in all && Class(asked, kindly, x) <= Class(asked, kindly, j)|
    ensures ByClass(asked, kindly, all, more) && |more| == m && gone <= more && (j in more <==> j in gone)
    decreases m - |gone|
  {
    more := gone;
    if |gone| < m {
      SizeOfRest(all, gone);
      var rest := all - gone - {j};
      var ready := set x | x in all && Class(asked, kindly, x) <= Class(asked, kindly, j);
      if j !in gone && ready <= gone + {j} {
        Smaller(ready, gone + {j});
      }
      assert rest != {} by {
        if j in gone {
          assert rest == all - gone;
        } else {
          var y :| y in ready && y !in gone + {j};
          assert y in rest;
        }
      }
      var x := LeastReady(asked, kindly, rest);
      more := Enlarge(asked, kindly, all, gone + {x}, m, j);
    }
  }

  /** An instance is kept by every removal exactly if it is safe. */
  lemma SafeExactly(w: World, c: Name, p: Option<Id>, j: Id)
    requires Hints(w) && j in PrevKids(w, c, p)
    ensures Safe(w, c, p, j) <==> forall survivors :: SurvivorsOk(w, c, p, survivors) ==> j in survivors
  {
    if Safe(w, c, p, j) {
      forall survivors | SurvivorsOk(w, c, p, survivors) ensures j in survivors {
        SafeSurvives(w, c, p, survivors, j);
      }
    } else {
      var asked, kindly, all, sooner := Asked(w, c, p), Kindly(w, c, p), PrevKids(w, c, p), Sooner(w, c, p, j);
      assert ByClass(asked, kindly, all, sooner + {j});
      var gone := Enlarge(asked, kindly, all, sooner + {j}, Removals(w, c, p), j);
      MayRemove(w, c, p, gone);
    }
  }

  /** And removed by every removal exactly if it is doomed. */
  lemma DoomedExactly(w: World, c: Name, p: Option<Id>, j: Id)
    requires Hints(w) && j in PrevKids(w, c, p)
    ensures Doomed(w, c, p, j) <==> forall survivors :: SurvivorsOk(w, c, p, survivors) ==> j !in survivors
  {
    if Doomed(w, c, p, j) {
      forall survivors | SurvivorsOk(w, c, p, survivors) ensures j !in survivors {
        DoomedGoes(w, c, p, survivors, j);
      }
    } else if ScaledIn(w, c, p) {
      var asked, kindly, all := Asked(w, c, p), Kindly(w, c, p), PrevKids(w, c, p);
      assert NoLater(w, c, p, j) == set x | x in all && Class(asked, kindly, x) <= Class(asked, kindly, j);
      var gone := Enlarge(asked, kindly, all, {}, Removals(w, c, p), j);
      MayRemove(w, c, p, gone);
    } else {
      assert SurvivorsOk(w, c, p, PrevKids(w, c, p));
    }
  }
}
