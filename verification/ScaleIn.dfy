/**
  Choosing which instances a scale-in removes: an in-place removal from the list of the
  previous instance ids, guided by the ids the caller asks to remove or to spare.
*/
module ScaleIn {
  import opened Names

  /** `s` without the elements of `gone`, in the same order. */
  function Without(s: seq<Id>, gone: set<Id>): (r: seq<Id>)
    ensures forall x :: x in r <==> x in s && x !in gone
  {
    if s == [] then []
    else if s[0] in gone then Without(s[1..], gone)
    else [s[0]] + Without(s[1..], gone)
  }

  /** `list.remove(x)`: drops the first occurrence of `x`. */
  function RemoveFirst(s: seq<Id>, x: Id): (r: seq<Id>)
    requires x in s
    ensures |r| == |s| - 1
  {
    if s[0] == x then s[1..] else [s[0]] + RemoveFirst(s[1..], x)
  }

  lemma {:induction false} WithoutNone(s: seq<Id>, gone: set<Id>)
    requires forall x :: x in s ==> x !in gone
    ensures Without(s, gone) == s
  {
    if s != [] {
      WithoutNone(s[1..], gone);
    }
  }

  lemma {:induction false} WithoutDistinct(s: seq<Id>, gone: set<Id>)
    requires Distinct(s)
    ensures Distinct(Without(s, gone))
  {
    if s != [] {
      WithoutDistinct(s[1..], gone);
    }
  }

  /** Removing one more element from a list that has already lost `gone`. */
  lemma {:induction false} RemoveStep(s: seq<Id>, gone: set<Id>, x: Id)
    requires Distinct(s) && x in s && x !in gone
    ensures RemoveFirst(Without(s, gone), x) == Without(s, gone + {x})
  {
    if s[0] == x {
      forall y | y in s[1..] ensures y != x {
      }
      WithoutSame(s[1..], gone, gone + {x});
    } else {
      RemoveStep(s[1..], gone, x);
    }
  }

  lemma {:induction false} WithoutSame(s: seq<Id>, a: set<Id>, b: set<Id>)
    requires forall x :: x in s ==> (x in a <==> x in b)
    ensures Without(s, a) == Without(s, b)
  {
    if s != [] {
      WithoutSame(s[1..], a, b);
    }
  }

  lemma {:induction false} WithoutLength(s: seq<Id>, gone: set<Id>)
    requires Distinct(s) && gone <= Elements(s)
    ensures |Without(s, gone)| == |s| - |gone|
    decreases gone
  {
    if gone == {} {
      WithoutNone(s, gone);
    } else {
      var x :| x in gone;
      WithoutLength(s, gone - {x});
      RemoveStep(s, gone - {x}, x);
      assert gone - {x} + {x} == gone;
    }
  }

  /** A hint names an instance of the list, or an instance that belongs to a group of the list. */
  ghost predicate Hinted(raw: seq<Id>, list: seq<Id>, members: map<Id, set<Id>>, x: Id) {
    && x in list
    && (x in raw || exists h :: h in raw && h !in list && x in members && h in members[x])
  }

  /** Resolves the raw hints against the list of the targeted instances. */
  method GetHints(raw: seq<Id>, list: seq<Id>, members: map<Id, set<Id>>) returns (hints: set<Id>)
    ensures forall x :: x in hints <==> Hinted(raw, list, members, x)
  {
    hints := {};
    for i := 0 to |raw|
      invariant forall x :: x in hints <==> Hinted(raw[..i], list, members, x)
    {
      var hint := raw[i];
      ghost var before := hints;
      assert raw[..i + 1] == raw[..i] + [hint];
      if hint in list {
        hints := hints + {hint};
      } else {
        hints := hints + (set g | g in members && hint in members[g] && g in list);
      }
      forall x ensures x in hints <==> Hinted(raw[..i + 1], list, members, x) {
        HintedStep(raw[..i], hint, list, members, x);
        assert x in before <==> Hinted(raw[..i], list, members, x);
      }
    }
    assert raw[..|raw|] == raw;
  }

  lemma HintedStep(raw: seq<Id>, hint: Id, list: seq<Id>, members: map<Id, set<Id>>, x: Id)
    ensures Hinted(raw + [hint], list, members, x) <==>
            Hinted(raw, list, members, x)
            || (x in list && (x == hint || (hint !in list && x in members && hint in members[x])))
  {
    if x in list && hint !in list && x in members && hint in members[x] {
      assert hint in raw + [hint];
    }
    if Hinted(raw, list, members, x) && x !in raw {
      var h :| h in raw && h !in list && x in members && h in members[x];
      assert h in raw + [hint];
    }
  }

  /** How readily an instance is given up: asked for first, spared ones last. */
  ghost function Class(wanted: set<Id>, spared: set<Id>, x: Id): nat {
    if x in wanted then 0 else if x in spared then 2 else 1
  }

  /** `x` stands before `y` in the list. */
  ghost predicate Precedes(s: seq<Id>, x: Id, y: Id) {
    exists i, j :: 0 <= i < j < |s| && s[i] == x && s[j] == y
  }

  /** `r` goes before `k` does. */
  ghost predicate GoesFirst(s: seq<Id>, wanted: set<Id>, spared: set<Id>, r: Id, k: Id) {
    var cr, ck := Class(wanted, spared, r), Class(wanted, spared, k);
    cr < ck || (cr == ck && (cr == 0 || Precedes(s, r, k)))
  }

  ghost predicate Choice(s: seq<Id>, wanted: set<Id>, spared: set<Id>, kept: seq<Id>) {
    && kept == Without(s, Elements(s) - Elements(kept))
    && forall r, k :: r in s && r !in kept && k in kept ==> GoesFirst(s, wanted, spared, r, k)
  }

  /** First pass: instances the caller asked to remove, in the arbitrary order of a set. */
  method RemoveIncluded(s: seq<Id>, removals: int, wanted: set<Id>)
    returns (kept: seq<Id>, left: int, ghost gone: set<Id>)
    requires Distinct(s) && 0 <= removals && forall x :: x in wanted ==> x in s
    ensures gone <= wanted && kept == Without(s, gone) && left == removals - |gone| >= 0
    ensures left > 0 ==> gone == wanted
  {
    kept, left, gone := s, removals, {};
    WithoutNone(s, {});
    var todo := wanted;
    while todo != {} && left > 0
      invariant gone <= wanted && todo == wanted - gone
      invariant kept == Without(s, gone) && left == removals - |gone| >= 0
      decreases todo
    {
      var x :| x in todo;
      RemoveStep(s, gone, x);
      kept := RemoveFirst(kept, x);
      gone, todo, left := gone + {x}, todo - {x}, left - 1;
    }
  }

  /** Second pass: in list order, skipping the instances the caller asked to spare. */
  method RemoveUnspared(ghost s: seq<Id>, ghost gone0: set<Id>, list: seq<Id>, removals: int, spared: set<Id>)
    returns (kept: seq<Id>, left: int, ghost gone: set<Id>)
    requires Distinct(s) && gone0 <= Elements(s) && list == Without(s, gone0) && 0 <= removals
    ensures gone0 <= gone <= Elements(s) && kept == Without(s, gone)
    ensures left == removals - (|gone| - |gone0|) >= 0
    ensures forall x :: x in gone && x !in gone0 ==> x !in spared
    ensures forall r, k :: r in gone && r !in gone0 && k in s && k !in gone && k !in spared ==> Precedes(s, r, k)
    ensures left > 0 ==> forall x :: x in s && x !in gone ==> x in spared
    ensures removals == 0 ==> gone == gone0
  {
    kept, left, gone := list, removals, gone0;
    var order := list;
    WithoutDistinct(s, gone0);
    var i := 0;
    while i < |order| && left > 0
      invariant 0 <= i <= |order| && gone0 <= gone <= Elements(s)
      invariant kept == Without(s, gone) && left == removals - (|gone| - |gone0|) >= 0
      invariant removals == 0 ==> gone == gone0
      invariant forall x :: x in gone && x !in gone0 ==> x in order[..i] && x !in spared
      invariant forall x :: x in order[..i] && x !in gone ==> x in spared
    {
      var x := order[i];
      assert order[..i + 1] == order[..i] + [x];
      if x !in spared {
        assert x !in order[..i];
        RemoveStep(s, gone, x);
        kept := RemoveFirst(kept, x);
        gone, left := gone + {x}, left - 1;
      }
      i := i + 1;
    }
    assert i == |order| ==> order[..i] == order;
    forall r, k | r in gone && r !in gone0 && k in s && k !in gone && k !in spared
      ensures Precedes(s, r, k)
    {
      assert k in order && k !in order[..i];
      var a :| 0 <= a < i && order[a] == r;
      var b :| 0 <= b < |order| && order[b] == k;
      assert b >= i;
      PrecedesWithout(s, gone0, r, k);
    }
  }

  lemma {:induction false} PrecedesWithout(s: seq<Id>, gone: set<Id>, x: Id, y: Id)
    requires Precedes(Without(s, gone), x, y)
    ensures Precedes(s, x, y)
  {
    var w := Without(s, gone);
    var i, j :| 0 <= i < j < |w| && w[i] == x && w[j] == y;
    var rest := s[1..];
    if s[0] in gone {
      PrecedesWithout(rest, gone, x, y);
    } else if i > 0 {
      var v := Without(rest, gone);
      assert v[i - 1] == x && v[j - 1] == y;
      PrecedesWithout(rest, gone, x, y);
    } else {
      assert y in Without(rest, gone);
    }
    if s[0] in gone || i > 0 {
      var a, b :| 0 <= a < b < |rest| && rest[a] == x && rest[b] == y;
      assert s[a + 1] == x && s[b + 1] == y;
    } else {
      var b :| 0 <= b < |rest| && rest[b] == y;
      assert s[0] == x && s[b + 1] == y;
    }
  }

  /** Last pass: the first of what is left, whatever the caller asked to spare. */
  method RemoveRest(ghost s: seq<Id>, ghost gone0: set<Id>, list: seq<Id>, removals: int)
    returns (kept: seq<Id>, ghost gone: set<Id>)
    requires Distinct(s) && gone0 <= Elements(s) && list == Without(s, gone0) && 0 <= removals
    ensures gone0 <= gone <= Elements(s) && kept == Without(s, gone)
    ensures |kept| == NonNegative(|s| - |gone0| - removals)
    ensures removals == 0 ==> gone == gone0
    ensures forall r, k :: r in gone && r !in gone0 && k in kept ==> Precedes(s, r, k)
  {
    kept, gone := list, gone0;
    WithoutDistinct(s, gone0);
    WithoutLength(s, gone0);
    var order := list;
    var n := if removals <= |order| then removals else |order|;
    for i := 0 to n
      invariant gone0 <= gone <= Elements(s) && kept == Without(s, gone) && |kept| == |order| - i
      invariant forall x :: x in gone && x !in gone0 <==> x in order[..i]
    {
      var x := order[i];
      assert order[..i + 1] == order[..i] + [x];
      RemoveStep(s, gone, x);
      kept := RemoveFirst(kept, x);
      gone := gone + {x};
    }
    forall r, k | r in gone && r !in gone0 && k in kept
      ensures Precedes(s, r, k)
    {
      assert k in order && k !in order[..n];
      var a :| 0 <= a < n && order[a] == r;
      var b :| 0 <= b < |order| && order[b] == k;
      assert b >= n;
      PrecedesWithout(s, gone0, r, k);
    }
  }

  /** Shrinks the list of previous instances to `total` of them. */
  method HandleRemovedInstances(s: seq<Id>, total: int, rawInclude: seq<Id>, rawExclude: seq<Id>,
                                members: map<Id, set<Id>>)
    returns (kept: seq<Id>, ghost wanted: set<Id>, ghost spared: set<Id>)
    requires Distinct(s) && total <= |s|
    ensures forall x :: x in wanted <==> Hinted(rawInclude, s, members, x)
    ensures forall x :: x in spared <==> Hinted(rawExclude, s, members, x)
    ensures |kept| == NonNegative(total) && Distinct(kept)
    ensures Choice(s, wanted, spared, kept)
  {
    var included := GetHints(rawInclude, s, members);
    var excluded := GetHints(rawExclude, s, members);
    wanted, spared := included, excluded;
    var left;
    ghost var gone1, gone2, gone3;
    kept, left, gone1 := RemoveIncluded(s, |s| - total, included);
    assert gone1 <= Elements(s);
    kept, left, gone2 := RemoveUnspared(s, gone1, kept, left, excluded);
    kept, gone3 := RemoveRest(s, gone2, kept, left);
    WithoutDistinct(s, gone3);
    PassesChoose(s, included, excluded, gone1, gone2, gone3, kept);
  }

  /** The three passes together take the instances in order of their class. */
  lemma PassesChoose(s: seq<Id>, wanted: set<Id>, spared: set<Id>,
                     gone1: set<Id>, gone2: set<Id>, gone3: set<Id>, kept: seq<Id>)
    requires gone1 <= gone2 <= gone3 <= Elements(s) && gone1 <= wanted && kept == Without(s, gone3)
    requires gone2 != gone1 || gone3 != gone2 ==> gone1 == wanted
    requires forall x :: x in gone2 && x !in gone1 ==> x !in spared
    requires forall r, k :: r in gone2 && r !in gone1 && k in s && k !in gone2 && k !in spared ==> Precedes(s, r, k)
    requires gone3 != gone2 ==> forall x :: x in s && x !in gone2 ==> x in spared
    requires forall r, k :: r in gone3 && r !in gone2 && k in kept ==> Precedes(s, r, k)
    ensures Choice(s, wanted, spared, kept)
  {
    assert Elements(s) - Elements(kept) == gone3;
    forall r, k | r in s && r !in kept && k in kept
      ensures GoesFirst(s, wanted, spared, r, k)
    {
      assert r in gone3 && k !in gone3;
    }
  }

  /** An instance the caller asked to remove stays only if everything removed was asked for. */
  lemma IncludedStaysLast(s: seq<Id>, wanted: set<Id>, spared: set<Id>, kept: seq<Id>, h: Id, r: Id)
    requires Choice(s, wanted, spared, kept)
    requires h in wanted && h in kept && r in s && r !in kept
    ensures r in wanted
  {
    assert GoesFirst(s, wanted, spared, r, h);
  }

  /** An instance the caller asked to spare, and not to remove, goes only if all that stay were to be spared. */
  lemma ExcludedGoesLast(s: seq<Id>, wanted: set<Id>, spared: set<Id>, kept: seq<Id>, h: Id, k: Id)
    requires Choice(s, wanted, spared, kept)
    requires h in spared && h !in wanted && h in s && h !in kept && k in kept
    ensures k in spared && k !in wanted
  {
    assert GoesFirst(s, wanted, spared, h, k);
  }

  /** The choice is unique once the number to keep is fixed, unless it is made within the set of included ids. */
  lemma ChoiceUnique(s: seq<Id>, wanted: set<Id>, spared: set<Id>, a: seq<Id>, b: seq<Id>)
    requires Distinct(s) && Choice(s, wanted, spared, a) && Choice(s, wanted, spared, b) && |a| == |b|
    requires exists r :: r in s && r !in a && r !in wanted
    ensures a == b
  {
    var ga, gb := Elements(s) - Elements(a), Elements(s) - Elements(b);
    WithoutLength(s, ga);
    WithoutLength(s, gb);
    if ga != gb {
      var x, y := Crossing(ga, gb);
      NoCrossing(s, wanted, spared, a, b, x, y);
    }
  }

  /** Two different sets of the same size: each has an element that the other lacks. */
  lemma Crossing(a: set<Id>, b: set<Id>) returns (x: Id, y: Id)
    requires a != b && |a| == |b|
    ensures x in a && x !in b && y in b && y !in a
  {
    if a <= b {
      CardinalityLess(a, b);
    }
    if b <= a {
      CardinalityLess(b, a);
    }
    x :| x in a && x !in b;
    y :| y in b && y !in a;
  }

  lemma NoCrossing(s: seq<Id>, wanted: set<Id>, spared: set<Id>, a: seq<Id>, b: seq<Id>, x: Id, y: Id)
    requires Distinct(s) && Choice(s, wanted, spared, a) && Choice(s, wanted, spared, b)
    requires exists r :: r in s && r !in a && r !in wanted
    requires x in s && x !in a && x in b && y in s && y !in b
    ensures y !in a
  {
    if y in a {
      assert GoesFirst(s, wanted, spared, x, y);
      assert GoesFirst(s, wanted, spared, y, x);
      var r :| r in s && r !in a && r !in wanted;
      assert GoesFirst(s, wanted, spared, r, y);
      PrecedesAsymmetric(s, x, y);
    }
  }

  lemma PrecedesAsymmetric(s: seq<Id>, x: Id, y: Id)
    requires Distinct(s) && Precedes(s, x, y)
    ensures !Precedes(s, y, x)
  {
  }

  lemma CardinalityLess<T>(a: set<T>, b: set<T>)
    requires a <= b && a != b
    ensures |a| < |b|
  {
    assert |b| == |a| + |b - a|;
  }
}
