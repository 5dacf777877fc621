/**
  What a modification owes to the ids that it was asked to remove and to spare, in its own terms: the
  counts and hints of the modification, and the previous graph.
*/
module ModificationHints {
  import opened Names
  import opened Forests
  import opened Graphs
  import opened Growth
  import opened ScaleIn
  import opened Expansion
  import opened Deployments
  import Survival

  /** The previous instances of `n`, in the instance `p` if one is given. */
  ghost function PreviousIn(previous: InstanceGraph, n: Name, p: Option<Id>): set<Id> {
    set i | i in previous.nodes && previous.nodes[i].name == n && (p.Some? ==> (i, p.value) in previous.edges)
  }

  /** `h` records that it is in the group instance `x`. */
  ghost predicate RecordsGroup(previous: InstanceGraph, h: Id, x: Id) {
    h in previous.nodes && exists k :: 0 <= k < |previous.nodes[h].groups| && previous.nodes[h].groups[k].1 == x
  }

  /** Of the instances `all` the hints mean `x`: it is among them, or one of its members is that is not in `all`. */
  ghost predicate Means(previous: InstanceGraph, all: set<Id>, hints: seq<Id>, x: Id) {
    x in all && (x in hints || exists h :: h in hints && h !in all && RecordsGroup(previous, h, x))
  }

  /** The instances of `n` are expanded in the instance `p`, or in none. */
  ghost predicate ExpandedIn(plan: PlanGraph, s: Inst, n: Name, p: Option<Id>) {
    n in plan.nodes &&
    match p
    case None => forall t :: !ContainmentEdge(plan, n, t)
    case Some(q) => q in s.node && ContainmentEdge(plan, n, s.node[q])
  }

  lemma PreviousKids(plan: PlanGraph, previous: InstanceGraph, modified: map<Name, Modification>, n: Name,
                     p: Option<Id>)
    requires SingleContainer(plan)
    ensures PrevKids(WorldOf(plan, Some(previous), modified), n, p) == PreviousIn(previous, n, p)
  {
  }

  lemma MeansExactly(plan: PlanGraph, previous: InstanceGraph, modified: map<Name, Modification>, hints: seq<Id>,
                     all: set<Id>, x: Id)
    requires SingleContainer(plan)
    ensures Survival.HintedIn(hints, all, WorldOf(plan, Some(previous), modified).members, x) <==>
      Means(previous, all, hints, x)
  {
    var members := MembersOf(previous);
    forall h ensures x in members && h in members[x] <==> RecordsGroup(previous, h, x) {
      assert Recorded(previous, h, x) <==> RecordsGroup(previous, h, x);
    }
  }

  /** The same as the expansion sees it. */
  ghost predicate PlacedAs(w: World, s: Inst, n: Name, p: Option<Id>) {
    && n in w.nodes
    && (n in w.parent <==> p.Some?)
    && (p.Some? ==> p.value in s.node && w.parent[n] == s.node[p.value])
  }

  lemma PlacedInWorld(plan: PlanGraph, previous: InstanceGraph, modified: map<Name, Modification>, s: Inst, n: Name,
                      p: Option<Id>)
    requires SingleContainer(plan) && ExpandedIn(plan, s, n, p)
    ensures PlacedAs(WorldOf(plan, Some(previous), modified), s, n, p)
  {
    var parent := ContainedGraph(plan);
    assert n in parent ==> ContainmentEdge(plan, n, parent[n]);
  }

  /** Those that stay are as many as they should be, and chosen by the hints. */
  lemma SettledIn(w: World, s: Inst, n: Name, p: Option<Id>)
    requires ValidPlan(w) && Complete(w, s) && PlacedAs(w, s, n, p)
    ensures KidsOk(w, n, p, Kids(s, n, p))
  {
    if p.Some? {
      assert Settled(w, s, None, {}, p.value, n);
    }
  }

  /** Those that stay are where they were. */
  lemma StayingIn(w: World, s: Inst, n: Name, p: Option<Id>)
    requires ValidWorld(w) && Sound(w, s) && PlacedAs(w, s, n, p)
    ensures Kids(s, n, p) * PrevKids(w, n, p) == PrevKids(w, n, p) * s.node.Keys
  {
    forall i | i in PrevKids(w, n, p) && i in s.node ensures i in Kids(s, n, p) {
      assert w.prevNode[i] == s.node[i] == n;
      if p.Some? {
        assert PlacedIn(w, i, p.value);
        SurvivorsContainer(w, s, i, p.value);
      }
    }
  }

  lemma ModifiedWorld(plan: PlanGraph, previous: InstanceGraph, modified: map<Name, Modification>,
                      g: Option<InstanceGraph>, s: Inst)
    requires ValidGraph(plan) && Modified(plan, previous, modified, g, s)
    ensures var w := WorldOf(plan, Some(previous), modified); ValidWorld(w) && Sound(w, s) && Complete(w, s)
  {
  }

  /** The previous instances in one place that stay are the survivors of the expansion there. */
  lemma SurvivorsIn(plan: PlanGraph, previous: InstanceGraph, modified: map<Name, Modification>,
                    g: Option<InstanceGraph>, s: Inst, n: Name, p: Option<Id>)
    requires ValidGraph(plan) && Modified(plan, previous, modified, g, s) && ExpandedIn(plan, s, n, p)
    ensures var w, all := WorldOf(plan, Some(previous), modified), PreviousIn(previous, n, p);
      Survival.Hints(w) && PrevKids(w, n, p) == all && SurvivorsOk(w, n, p, all * s.node.Keys)
  {
    var w := WorldOf(plan, Some(previous), modified);
    ModifiedWorld(plan, previous, modified, g, s);
    PlacedInWorld(plan, previous, modified, s, n, p);
    SettledIn(w, s, n, p);
    StayingIn(w, s, n, p);
    PreviousKids(plan, previous, modified, n, p);
  }

  /** Of the previous instances in one place as many stay as are requested, and all if no fewer are. */
  lemma CountObeyed(plan: PlanGraph, previous: InstanceGraph, modified: map<Name, Modification>,
                    g: Option<InstanceGraph>, s: Inst, n: Name, p: Option<Id>)
    requires ValidGraph(plan) && Modified(plan, previous, modified, g, s) && ExpandedIn(plan, s, n, p)
    ensures var all := PreviousIn(previous, n, p);
      |all * s.node.Keys| == if n in modified && modified[n].instances < |all| then NonNegative(modified[n].instances)
                             else |all|
  {
    SurvivorsIn(plan, previous, modified, g, s, n, p);
  }

  /**
    An instance that the modification was asked to remove stays only if all that go were asked for; one that
    it was asked to spare, and not to remove, goes only if all that stay are spared, and none is asked for.
  */
  lemma HintsObeyed(plan: PlanGraph, previous: InstanceGraph, modified: map<Name, Modification>,
                    g: Option<InstanceGraph>, s: Inst, n: Name, p: Option<Id>, gone: Id, stays: Id)
    requires ValidGraph(plan) && Modified(plan, previous, modified, g, s) && ExpandedIn(plan, s, n, p)
    requires gone in PreviousIn(previous, n, p) && gone !in s.node
    requires stays in PreviousIn(previous, n, p) && stays in s.node
    ensures n in modified
    ensures var all, asked, spared := PreviousIn(previous, n, p), modified[n].includeHint, modified[n].excludeHint;
      && (Means(previous, all, asked, stays) ==> Means(previous, all, asked, gone))
      && (Means(previous, all, spared, gone) && !Means(previous, all, asked, gone) ==>
            Means(previous, all, spared, stays) && !Means(previous, all, asked, stays))
  {
    var w, all := WorldOf(plan, Some(previous), modified), PreviousIn(previous, n, p);
    SurvivorsIn(plan, previous, modified, g, s, n, p);
    assert Survival.ScaledIn(w, n, p);
    Survival.SurvivorsByClass(w, n, p, all * s.node.Keys, gone, stays);
    MeansExactly(plan, previous, modified, modified[n].includeHint, all, stays);
    MeansExactly(plan, previous, modified, modified[n].includeHint, all, gone);
    MeansExactly(plan, previous, modified, modified[n].excludeHint, all, stays);
    MeansExactly(plan, previous, modified, modified[n].excludeHint, all, gone);
  }
}
