/**
  The one target that an all_to_one relationship keeps across modifications: when a modification is
  sure to keep it, when it is sure to remove it, and that the relationship points at it either way.
*/
module SharedTargets {
  import opened Names
  import opened Forests
  import opened Graphs
  import opened ScaleIn
  import opened Growth
  import opened Expansion
  import opened PlanGroups
  import opened Deployments
  import opened Survival
  import opened Outcomes
  import opened Connections
  import opened Wiring
  import opened Modifications

  // ---------- along the previous containers ----------

  /** What held the previous instance `i`; nothing, for an instance of a root. */
  function HolderAt(cont: map<Id, Id>, i: Id): Option<Id> {
    if i in cont then Some(cont[i]) else None
  }

  /** The previous instance `i` was held by an instance of its element's container. */
  ghost predicate Anchored(w: World, cont: map<Id, Id>, i: Id) {
    && i in w.prevNode && w.prevNode[i] in w.nodes
    && (i in cont <==> w.prevNode[i] in w.parent)
    && (i in cont ==> PlacedIn(w, i, cont[i]))
  }

  /** `i` was one of the instances that its container, or the deployment, held of its element. */
  lemma AnchoredKid(w: World, cont: map<Id, Id>, i: Id)
    requires Anchored(w, cont, i)
    ensures i in PrevKids(w, w.prevNode[i], HolderAt(cont, i))
  {
  }

  ghost predicate SafeAt(w: World, cont: map<Id, Id>, i: Id)
    requires Hints(w) && i in w.prevNode
  {
    Safe(w, w.prevNode[i], HolderAt(cont, i), i)
  }

  ghost predicate DoomedAt(w: World, cont: map<Id, Id>, i: Id)
    requires Hints(w) && i in w.prevNode
  {
    Doomed(w, w.prevNode[i], HolderAt(cont, i), i)
  }

  /** `j` and everything that held it, up to the root. */
  ghost predicate AnchoredPath(w: World, cont: map<Id, Id>, j: Id) {
    Acyclic(cont) && forall i :: i in Path(cont, j) ==> Anchored(w, cont, i)
  }

  ghost predicate SafePath(w: World, cont: map<Id, Id>, j: Id)
    requires Hints(w) && AnchoredPath(w, cont, j)
  {
    forall i :: i in Path(cont, j) ==> SafeAt(w, cont, i)
  }

  /** No element along the path is requested below what its container held. */
  ghost predicate Undiminished(w: World, cont: map<Id, Id>, i: Id)
    requires i in w.prevNode
  {
    w.prevNode[i] in w.requested ==>
      NonNegative(w.requested[w.prevNode[i]]) >= |PrevKids(w, w.prevNode[i], HolderAt(cont, i))|
  }

  lemma UndiminishedSafe(w: World, cont: map<Id, Id>, i: Id)
    requires Hints(w) && i in w.prevNode && Undiminished(w, cont, i)
    ensures SafeAt(w, cont, i)
  {
  }

  /** What a container that stays, or the deployment, keeps of its previous instances of an element. */
  lemma SettledAt(w: World, s: Inst, cont: map<Id, Id>, i: Id)
    requires ValidWorld(w) && Sound(w, s) && Complete(w, s) && Anchored(w, cont, i)
    requires i in cont ==> cont[i] in s.node && s.node[cont[i]] == w.prevNode[cont[i]]
    ensures var c, p := w.prevNode[i], HolderAt(cont, i);
      SurvivorsOk(w, c, p, Kids(s, c, p) * PrevKids(w, c, p))
  {
    var c, p := w.prevNode[i], HolderAt(cont, i);
    if i in cont {
      assert Settled(w, s, None, {}, cont[i], c);
      assert CountOk(w, s, cont[i], c);
    } else {
      assert KidsOk(w, c, None, Kids(s, c, None));
    }
  }

  /** An instance stays, where it was, if it is safe in each of its containers. */
  lemma {:induction false} SafeStays(w: World, s: Inst, cont: map<Id, Id>, j: Id)
    requires ValidWorld(w) && Sound(w, s) && Complete(w, s) && AnchoredPath(w, cont, j) && SafePath(w, cont, j)
    ensures j in s.node && j in w.prevNode && s.node[j] == w.prevNode[j]
    ensures j in cont ==> j in s.cont && s.cont[j] == cont[j]
    decreases Rank(cont, j)
  {
    assert j in Path(cont, j);
    if j in cont {
      RankDrops(cont, j);
      assert forall i :: i in Path(cont, cont[j]) ==> i in Path(cont, j);
      SafeStays(w, s, cont, cont[j]);
    }
    SettledAt(w, s, cont, j);
    AnchoredKid(w, cont, j);
    var c, p := w.prevNode[j], HolderAt(cont, j);
    SafeSurvives(w, c, p, Kids(s, c, p) * PrevKids(w, c, p), j);
  }

  /** What is doomed where it is goes, even if what held it stays. */
  lemma DoomedThere(w: World, s: Inst, cont: map<Id, Id>, j: Id)
    requires ValidWorld(w) && Sound(w, s) && Complete(w, s) && Anchored(w, cont, j) && DoomedAt(w, cont, j)
    ensures j !in s.node
  {
    if j in s.node {
      if j in cont {
        SurvivorsContainer(w, s, j, cont[j]);
        HolderKept(w, s, j, cont[j]);
      }
      SettledAt(w, s, cont, j);
      AnchoredKid(w, cont, j);
      var c, p := w.prevNode[j], HolderAt(cont, j);
      DoomedGoes(w, c, p, Kids(s, c, p) * PrevKids(w, c, p), j);
      WasThere(w, s, c, p, j);
    }
  }

  lemma WasThere(w: World, s: Inst, c: Name, p: Option<Id>, j: Id)
    requires ValidWorld(w) && Sound(w, s) && j in PrevKids(w, c, p) && j in s.node
    requires if p.Some? then c in w.parent && p.value in s.node && s.node[p.value] == w.parent[c] else c !in w.parent
    ensures j in Kids(s, c, p) * PrevKids(w, c, p)
  {
    PrevKidPlaced(w, s, c, p, j);
  }

  /** An instance goes with each of its containers. */
  lemma {:induction false} GoesWith(w: World, s: Inst, cont: map<Id, Id>, j: Id, i: Id)
    requires ValidWorld(w) && Sound(w, s) && AnchoredPath(w, cont, j) && i in Path(cont, j) && i !in s.node
    ensures j !in s.node
    decreases Rank(cont, j)
  {
    assert j in Path(cont, j) && Anchored(w, cont, j);
    if i != j && j in s.node {
      RankDrops(cont, j);
      assert forall k :: k in Path(cont, cont[j]) ==> k in Path(cont, j);
      SurvivorsContainer(w, s, j, cont[j]);
      GoesWith(w, s, cont, cont[j], i);
    }
  }

  /** An instance goes if it, or something that held it, is doomed where it is. */
  lemma DoomedLost(w: World, s: Inst, cont: map<Id, Id>, j: Id, i: Id)
    requires ValidWorld(w) && Sound(w, s) && Complete(w, s) && AnchoredPath(w, cont, j)
    requires i in Path(cont, j) && i in w.prevNode && DoomedAt(w, cont, i)
    ensures j !in s.node
  {
    DoomedThere(w, s, cont, i);
    GoesWith(w, s, cont, j, i);
  }

  lemma HolderKept(w: World, s: Inst, j: Id, q: Id)
    requires ValidWorld(w) && Sound(w, s) && j in s.node && PlacedIn(w, j, q)
    ensures q in s.node ==> s.node[q] == w.prevNode[q]
  {
  }

  // ---------- exactly ----------

  /** Some choice of survivors that the hints allow leaves `i` out; another has it. */
  ghost predicate LeftOut(w: World, cont: map<Id, Id>, i: Id, v: set<Id>)
    requires Hints(w) && i in w.prevNode
  {
    SurvivorsOk(w, w.prevNode[i], HolderAt(cont, i), v) && i !in v
  }

  lemma UnsafeLeftOut(w: World, cont: map<Id, Id>, i: Id) returns (v: set<Id>)
    requires Hints(w) && Anchored(w, cont, i) && !SafeAt(w, cont, i)
    ensures LeftOut(w, cont, i, v)
  {
    AnchoredKid(w, cont, i);
    var c, p := w.prevNode[i], HolderAt(cont, i);
    SafeExactly(w, c, p, i);
    v :| SurvivorsOk(w, c, p, v) && i !in v;
  }

  /** With `v` for the survivors where `i` was, `i` is gone. */
  lemma LeftOutGoes(w: World, s: Inst, cont: map<Id, Id>, i: Id, v: set<Id>)
    requires ValidWorld(w) && Anchored(w, cont, i) && LeftOut(w, cont, i, v)
    requires Sound(w, s) && Honours(w, s, map[(w.prevNode[i], HolderAt(cont, i)) := v])
    ensures i !in s.node
  {
    var c, p := w.prevNode[i], HolderAt(cont, i);
    var f: Choices := map[(c, p) := v];
    AnchoredKid(w, cont, i);
    if i in s.node {
      if i in cont {
        SurvivorsContainer(w, s, i, cont[i]);
        HolderKept(w, s, i, cont[i]);
        assert Picked(w, s, c, Some(cont[i]), f);
      } else {
        assert c in Roots(w) && Picked(w, s, c, None, f);
      }
      PrevKidPlaced(w, s, c, p, i);
    }
  }

  /** `j` is there in every outcome that the modification may have. */
  ghost predicate AlwaysKept(w: World, j: Id)
    requires ValidPlan(w)
  {
    forall s :: Sound(w, s) && Complete(w, s) ==> j in s.node
  }

  ghost predicate NeverKept(w: World, j: Id)
    requires ValidPlan(w)
  {
    forall s :: Sound(w, s) && Complete(w, s) ==> j !in s.node
  }

  /** A previous instance is kept in every outcome exactly if each element on its path is safe. */
  lemma AlwaysKeptExactly(w: World, cont: map<Id, Id>, j: Id)
    requires ValidWorld(w) && AnchoredPath(w, cont, j)
    ensures AlwaysKept(w, j) <==> SafePath(w, cont, j)
  {
    if SafePath(w, cont, j) {
      forall s | Sound(w, s) && Complete(w, s) ensures j in s.node {
        SafeStays(w, s, cont, j);
      }
    } else {
      var i :| i in Path(cont, j) && !SafeAt(w, cont, i);
      var v := UnsafeLeftOut(w, cont, i);
      var s := SomeOutcome(w, map[(w.prevNode[i], HolderAt(cont, i)) := v]);
      LeftOutGoes(w, s, cont, i, v);
      GoesWith(w, s, cont, j, i);
    }
  }

  function PlaceOf(w: World, cont: map<Id, Id>, i: Id): (Name, Option<Id>)
    requires i in w.prevNode
  {
    (w.prevNode[i], HolderAt(cont, i))
  }

  /** `f` keeps everything on the path of `j`. */
  ghost predicate KeepsPath(w: World, cont: map<Id, Id>, j: Id, f: Choices)
    requires AnchoredPath(w, cont, j)
  {
    forall i :: i in Path(cont, j) ==> PlaceOf(w, cont, i) in f && i in f[PlaceOf(w, cont, i)]
  }

  ghost predicate PathDoomed(w: World, cont: map<Id, Id>, j: Id)
    requires Hints(w) && AnchoredPath(w, cont, j)
  {
    exists i :: i in Path(cont, j) && DoomedAt(w, cont, i)
  }

  /** Choices that keep everything on a path without doomed elements. */
  lemma {:induction false} PathChoices(w: World, cont: map<Id, Id>, j: Id) returns (f: Choices)
    requires ValidWorld(w) && AnchoredPath(w, cont, j) && !PathDoomed(w, cont, j)
    ensures Allowed(w, f) && KeepsPath(w, cont, j, f)
    ensures j in w.prevNode && forall key :: key in f ==> Rank(w.parent, key.0) <= Rank(w.parent, w.prevNode[j])
    decreases Rank(cont, j)
  {
    assert j in Path(cont, j) && Anchored(w, cont, j) && !DoomedAt(w, cont, j);
    var c, p := w.prevNode[j], HolderAt(cont, j);
    AnchoredKid(w, cont, j);
    DoomedExactly(w, c, p, j);
    var v :| SurvivorsOk(w, c, p, v) && j in v;
    if j in cont {
      RankDrops(cont, j);
      RankDrops(w.parent, c);
      assert forall i :: i in Path(cont, cont[j]) ==> i in Path(cont, j);
      var g := PathChoices(w, cont, cont[j]);
      f := g[(c, p) := v];
      forall i | i in Path(cont, j)
        ensures PlaceOf(w, cont, i) in f && i in f[PlaceOf(w, cont, i)]
      {
        if i != j {
          assert i in Path(cont, cont[j]) && PlaceOf(w, cont, i) in g;
        }
      }
    } else {
      f := map[(c, p) := v];
    }
  }

  /** An outcome that honours these has the whole path. */
  lemma {:induction false} PathStays(w: World, s: Inst, cont: map<Id, Id>, j: Id, f: Choices)
    requires ValidWorld(w) && AnchoredPath(w, cont, j) && KeepsPath(w, cont, j, f)
    requires Sound(w, s) && Honours(w, s, f)
    ensures j in s.node
    decreases Rank(cont, j)
  {
    assert j in Path(cont, j) && Anchored(w, cont, j);
    if j in cont {
      RankDrops(cont, j);
      assert forall i :: i in Path(cont, cont[j]) ==> i in Path(cont, j);
      PathStays(w, s, cont, cont[j], f);
    }
    PickedStays(w, s, cont, j, f);
  }

  lemma PickedStays(w: World, s: Inst, cont: map<Id, Id>, j: Id, f: Choices)
    requires ValidWorld(w) && Anchored(w, cont, j) && Sound(w, s) && Honours(w, s, f)
    requires PlaceOf(w, cont, j) in f && j in f[PlaceOf(w, cont, j)]
    requires j in cont ==> cont[j] in s.node
    ensures j in s.node
  {
    var c := w.prevNode[j];
    if j in cont {
      assert Picked(w, s, c, Some(cont[j]), f);
    } else {
      assert c in Roots(w) && Picked(w, s, c, None, f);
    }
  }

  /** It is removed in every outcome exactly if some element on its path is doomed. */
  lemma NeverKeptExactly(w: World, cont: map<Id, Id>, j: Id)
    requires ValidWorld(w) && AnchoredPath(w, cont, j)
    ensures NeverKept(w, j) <==> PathDoomed(w, cont, j)
  {
    if PathDoomed(w, cont, j) {
      var i :| i in Path(cont, j) && DoomedAt(w, cont, i);
      forall s | Sound(w, s) && Complete(w, s) ensures j !in s.node {
        DoomedLost(w, s, cont, j, i);
      }
    } else {
      var f := PathChoices(w, cont, j);
      var s := SomeOutcome(w, f);
      PathStays(w, s, cont, j, f);
    }
  }

  // ---------- the shared target ----------

  /** The all_to_one relationship `e` had the one target `t`. */
  ghost predicate SharedBefore(plan: PlanGraph, previous: InstanceGraph, targets: Targets, e: (Name, Name), t: Id)
    requires WellRecorded(previous)
  {
    && ConnectionEdge(plan, e) && plan.edges[e].relationship.connection == Some(ALL_TO_ONE)
    && TargetsOf(previous, previous.edges.Keys, targets)
    && var key := (e.0, e.1, plan.edges[e].relationship.typeName);
    && key in targets && targets[key] == {t}
  }

  lemma TargetWas(plan: PlanGraph, previous: InstanceGraph, targets: Targets, e: (Name, Name), t: Id)
    requires WellRecorded(previous) && SharedBefore(plan, previous, targets, e, t)
    ensures t in previous.nodes && previous.nodes[t].name == e.1
  {
    var key := (e.0, e.1, plan.edges[e].relationship.typeName);
    var f :| f in previous.edges.Keys && RecordsTarget(previous, f, key, t);
    assert EdgeRecorded(previous, f);
  }

  /** However the modification goes, every source is connected to that target, and to nothing else. */
  lemma StillPointsAt(plan: PlanGraph, previous: InstanceGraph, modified: map<Name, Modification>, targets: Targets,
                      s: Inst, contained: InstanceGraph, graph: InstanceGraph, e: (Name, Name), t: Id, i: Id)
    requires ValidGraph(plan) && WellRecorded(previous) && SharedBefore(plan, previous, targets, e, t)
    requires Acyclic(s.cont) && EndsAs(plan, previous, modified, targets, s, Built(contained, graph))
    requires i in InstancesOf(s, e.0) && InstancesOf(s, e.1) != {}
    ensures (i, t) in graph.edges
    ensures forall j: Id :: ConnectedBy(plan, s, targets, e, i, j) ==> j == t
    ensures i in graph.nodes && (t in graph.nodes <==> t in s.node)
  {
    assert ConnectedBy(plan, s, targets, e, i, t);
    assert e in ConnectionEdges(plan);
  }

  /** When that target is an instance of its node still: in all outcomes, and in none, exactly as the hints have it. */
  lemma SharedTargetExactly(plan: PlanGraph, previous: InstanceGraph, modified: map<Name, Modification>,
                            targets: Targets, cont: map<Id, Id>, e: (Name, Name), t: Id)
    requires ValidGraph(plan) && WellRecorded(previous) && SharedBefore(plan, previous, targets, e, t)
    requires ValidPrevious(WorldOf(plan, Some(previous), modified))
    requires AnchoredPath(WorldOf(plan, Some(previous), modified), cont, t)
    ensures var w := WorldOf(plan, Some(previous), modified);
      SafePath(w, cont, t) <==> forall s :: Sound(w, s) && Complete(w, s) ==> t in InstancesOf(s, e.1)
    ensures var w := WorldOf(plan, Some(previous), modified);
      PathDoomed(w, cont, t) <==> forall s :: Sound(w, s) && Complete(w, s) ==> t !in InstancesOf(s, e.1)
  {
    var w := WorldOf(plan, Some(previous), modified);
    TargetWas(plan, previous, targets, e, t);
    assert forall s :: Sound(w, s) ==> (t in InstancesOf(s, e.1) <==> t in s.node);
    AlwaysKeptExactly(w, cont, t);
    NeverKeptExactly(w, cont, t);
  }

  /** In particular it is one if no element on its path is requested below what its container held. */
  lemma UndiminishedTargetStays(plan: PlanGraph, previous: InstanceGraph, modified: map<Name, Modification>,
                                targets: Targets, s: Inst, cont: map<Id, Id>, e: (Name, Name), t: Id)
    requires ValidGraph(plan) && WellRecorded(previous) && SharedBefore(plan, previous, targets, e, t)
    requires var w := WorldOf(plan, Some(previous), modified);
      ValidPrevious(w) && Sound(w, s) && Complete(w, s) && AnchoredPath(w, cont, t)
    requires forall i :: i in Path(cont, t) ==> Undiminished(WorldOf(plan, Some(previous), modified), cont, i)
    ensures t in InstancesOf(s, e.1)
  {
    var w := WorldOf(plan, Some(previous), modified);
    TargetWas(plan, previous, targets, e, t);
    UndiminishedPath(w, cont, t);
    SafeStays(w, s, cont, t);
  }

  lemma UndiminishedPath(w: World, cont: map<Id, Id>, j: Id)
    requires Hints(w) && AnchoredPath(w, cont, j) && forall i :: i in Path(cont, j) ==> Undiminished(w, cont, i)
    ensures SafePath(w, cont, j)
  {
    forall i | i in Path(cont, j) ensures SafeAt(w, cont, i) {
      UndiminishedSafe(w, cont, i);
    }
  }
}
