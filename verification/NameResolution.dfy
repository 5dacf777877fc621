/**
  Which instance a node name resolves to, over the instances that a fresh deployment hands out.
*/
module NameResolution {
  import opened Names
  import opened Forests
  import opened Graphs
  import opened Growth
  import opened Expansion
  import opened PlanGroups
  import opened PlanBuilder
  import opened Deployments
  import opened Partition
  import opened Connections
  import opened Wiring
  import opened Extraction
  import opened Transparency
  import opened MultiInstance
  import opened DeployedResolution
  import Resolution

  // ---------- by relationship ----------

  /** All relationships to `name` lead to `t`, and there is one. */
  ghost predicate OnlyTarget(rels: seq<(Name, Id)>, name: Name, t: Id) {
    (name, t) in rels && forall u :: (name, u) in rels ==> u == t
  }

  lemma TargetsNamedAre(rels: seq<(Name, Id)>, name: Name, t: Id)
    ensures t in Resolution.TargetsNamed(rels, name) <==> (name, t) in rels
  {
    if (name, t) in rels {
      var k :| 0 <= k < |rels| && rels[k] == (name, t);
      assert rels[k].1 in Resolution.TargetsNamed(rels, name);
    }
  }

  lemma OneTargetExactly(rels: seq<(Name, Id)>, name: Name)
    ensures |Resolution.TargetsNamed(rels, name)| == 1 <==> exists t :: OnlyTarget(rels, name, t)
    ensures forall t: Id :: OnlyTarget(rels, name, t) ==> Resolution.TargetsNamed(rels, name) == {t}
  {
    var targets := Resolution.TargetsNamed(rels, name);
    forall t: Id ensures t in targets <==> (name, t) in rels {
      TargetsNamedAre(rels, name, t);
    }
    if |targets| == 1 {
      var t := Resolution.Only(targets);
      assert OnlyTarget(rels, name, t);
    }
    forall t: Id | OnlyTarget(rels, name, t) ensures targets == {t} {
    }
  }

  /** What an instance's relationships are handed out with. */
  lemma HandedTarget(ns: seq<NodeDef>, groups: seq<GroupDef>, plan: PlanGraph, c: InstanceGraph, g: InstanceGraph,
                     w: World, s: Inst, r: Stored, k: nat)
    requires Deployed(ns, groups, plan, c, g, w, s) && Extracted(c, g, s, r) && k < |r.relationships|
    ensures var t := r.relationships[k];
      t.targetId in s.node && s.node[t.targetId] == t.targetName && IsNode(ns, t.targetName)
  {
    var order: seq<Id> :| HandedOut(c, g, s, r.id, order, r.relationships);
    assert IsHanded(c, g, s, r.id, order[k], r.relationships[k]);
    assert order[k] in Elements(order);
    HandedAsDeclared(ns, groups, plan, c, g, w, s, r.id, order[k]);
    var x, b :| b == g.edges[(r.id, order[k])].index && AsDeclared(ns, s, r.id, r.relationships[k], x, b);
    assert ValidatedNode(ns, ns[x]) && ValidatedTarget(ns, ns[x].relationships[b]);
  }

  /** What relationships lead to in storage are instances of the node that they name. */
  lemma TargetStored(st: Resolution.Storage, ns: seq<NodeDef>, groups: seq<GroupDef>, plan: PlanGraph,
                     c: InstanceGraph, g: InstanceGraph, w: World, s: Inst, instances: seq<Stored>,
                     i: Id, n: Name, t: Id)
    requires DeployedStorage(st, ns, groups, plan, c, g, w, s, instances)
    requires i in st.instances && (n, t) in st.instances[i].relationships
    ensures t in st.instances && t in s.node && s.node[t] == n
  {
    var r, a := StoredIs(st, ns, groups, plan, c, g, w, s, instances, i);
    var k :| 0 <= k < |r.relationships| && st.instances[i].relationships[k] == (n, t);
    HandedTarget(ns, groups, plan, c, g, w, s, r, k);
    TargetNotGroup(ns, groups, plan, n);
    assert GroupMarked(plan, c.nodes[t]);
  }

  // ---------- by scaling group ----------

  /** The first of the groups `a` that is one of the groups `b`. */
  ghost predicate FirstInBoth(a: seq<Name>, b: seq<Name>, group: Name) {
    exists k :: 0 <= k < |a| && a[k] == group && group in b && forall m :: 0 <= m < k ==> a[m] !in b
  }

  lemma FirstInBothExactly(a: seq<Name>, b: seq<Name>, group: Name)
    ensures Resolution.FirstShared(a, b) == Some(group) <==> FirstInBoth(a, b, group)
  {
    Resolution.FirstSharedIs(a, b);
    if FirstInBoth(a, b, group) {
      var k :| 0 <= k < |a| && a[k] == group && group in b && forall m :: 0 <= m < k ==> a[m] !in b;
      assert a[k] in a;
      var j :| 0 <= j < |a| && a[j] == Resolution.FirstShared(a, b).value && forall m :: 0 <= m < j ==> a[m] !in b;
      assert j == k;
    }
  }

  /** In the innermost group that it shares with the node's instances, the context is together with `x` alone. */
  ghost predicate Alone(st: Resolution.Storage, s: Inst, context: Id, candidates: seq<Id>, x: Id)
    requires Resolution.Consistent(st) && context in st.instances && Acyclic(s.cont)
    requires candidates != [] && candidates[0] in st.instances
  {
    exists group ::
      && FirstInBoth(Resolution.ContainingGroups(st, context), Resolution.ContainingGroups(st, candidates[0]), group)
      && AloneThere(s, context, candidates, group, x)
  }

  lemma InnermostExactly(st: Resolution.Storage, context: Id, candidates: seq<Id>, group: Name)
    requires Resolution.Consistent(st) && context in st.instances && candidates != [] && candidates[0] in st.instances
    ensures Resolution.Innermost(st, context, candidates, group) <==>
      FirstInBoth(Resolution.ContainingGroups(st, context), Resolution.ContainingGroups(st, candidates[0]), group)
  {
    FirstInBothExactly(Resolution.ContainingGroups(st, context), Resolution.ContainingGroups(st, candidates[0]), group);
  }

  lemma FoundIsAlone(st: Resolution.Storage, ns: seq<NodeDef>, groups: seq<GroupDef>, plan: PlanGraph,
                     c: InstanceGraph, g: InstanceGraph, w: World, s: Inst, instances: seq<Stored>,
                     context: Id, n: Name, candidates: seq<Id>, x: Id)
    requires DeployedStorage(st, ns, groups, plan, c, g, w, s, instances) && Resolution.Consistent(st)
    requires context in st.instances && AllOf(st, s, n, candidates)
    requires Resolution.ResolveFrom(st, context, candidates) == Resolution.Found(x)
    ensures Alone(st, s, context, candidates, x)
  {
    ResolvesWithinGroup(st, ns, groups, plan, c, g, w, s, instances, context, n, candidates);
    var group :| FoundIn(st, s, context, candidates, group, x);
    InnermostExactly(st, context, candidates, group);
    var there := ResolvesExactly(st, ns, groups, plan, c, g, w, s, instances, context, n, candidates, group);
    assert AloneThere(s, context, candidates, group, there) && there == x;
  }

  lemma AloneUnique(st: Resolution.Storage, s: Inst, context: Id, candidates: seq<Id>, x: Id, y: Id)
    requires Resolution.Consistent(st) && context in st.instances && Acyclic(s.cont)
    requires candidates != [] && candidates[0] in st.instances
    requires Alone(st, s, context, candidates, x) && Alone(st, s, context, candidates, y)
    ensures x == y
  {
    var a, b := Resolution.ContainingGroups(st, context), Resolution.ContainingGroups(st, candidates[0]);
    var group :| FirstInBoth(a, b, group) && AloneThere(s, context, candidates, group, x);
    var other :| FirstInBoth(a, b, other) && AloneThere(s, context, candidates, other, y);
    FirstInBothExactly(a, b, group);
    FirstInBothExactly(a, b, other);
  }

  lemma AloneIsFound(st: Resolution.Storage, ns: seq<NodeDef>, groups: seq<GroupDef>, plan: PlanGraph,
                     c: InstanceGraph, g: InstanceGraph, w: World, s: Inst, instances: seq<Stored>,
                     context: Id, n: Name, candidates: seq<Id>, x: Id)
    requires DeployedStorage(st, ns, groups, plan, c, g, w, s, instances) && Resolution.Consistent(st)
    requires context in st.instances && AllOf(st, s, n, candidates) && Alone(st, s, context, candidates, x)
    ensures Resolution.ResolveFrom(st, context, candidates) == Resolution.Found(x)
  {
    AloneFinds(st, ns, groups, plan, c, g, w, s, instances, context, n, candidates, x);
    var y := Resolution.ResolveFrom(st, context, candidates).id;
    FoundIsAlone(st, ns, groups, plan, c, g, w, s, instances, context, n, candidates, y);
    AloneUnique(st, s, context, candidates, x, y);
  }

  lemma AloneFinds(st: Resolution.Storage, ns: seq<NodeDef>, groups: seq<GroupDef>, plan: PlanGraph,
                   c: InstanceGraph, g: InstanceGraph, w: World, s: Inst, instances: seq<Stored>,
                   context: Id, n: Name, candidates: seq<Id>, x: Id)
    requires DeployedStorage(st, ns, groups, plan, c, g, w, s, instances) && Resolution.Consistent(st)
    requires context in st.instances && AllOf(st, s, n, candidates) && Alone(st, s, context, candidates, x)
    ensures Resolution.ResolveFrom(st, context, candidates).Found?
  {
    var group :|
      && FirstInBoth(Resolution.ContainingGroups(st, context), Resolution.ContainingGroups(st, candidates[0]), group)
      && AloneThere(s, context, candidates, group, x);
    InnermostExactly(st, context, candidates, group);
    var there := ResolvesExactly(st, ns, groups, plan, c, g, w, s, instances, context, n, candidates, group);
    assert there == x;
  }

  /** Resolution by scaling group finds the instance that is alone with the context, and otherwise nothing. */
  ghost predicate FindsAlone(st: Resolution.Storage, s: Inst, context: Id, candidates: seq<Id>)
    requires Resolution.Consistent(st) && context in st.instances && Acyclic(s.cont)
    requires candidates != [] && forall i :: i in candidates ==> i in st.instances
  {
    var r := Resolution.ResolveFrom(st, context, candidates);
    && r != Resolution.IllegalState
    && (forall x :: r == Resolution.Found(x) <==> Alone(st, s, context, candidates, x))
  }

  lemma FromExactly(st: Resolution.Storage, ns: seq<NodeDef>, groups: seq<GroupDef>, plan: PlanGraph,
                    c: InstanceGraph, g: InstanceGraph, w: World, s: Inst, instances: seq<Stored>,
                    context: Id, n: Name, candidates: seq<Id>)
    requires DeployedStorage(st, ns, groups, plan, c, g, w, s, instances) && Resolution.Consistent(st)
    requires context in st.instances && AllOf(st, s, n, candidates)
    ensures FindsAlone(st, s, context, candidates)
  {
    ResolvesWithinGroup(st, ns, groups, plan, c, g, w, s, instances, context, n, candidates);
    forall x ensures
      Resolution.ResolveFrom(st, context, candidates) == Resolution.Found(x) <==> Alone(st, s, context, candidates, x)
    {
      if Resolution.ResolveFrom(st, context, candidates) == Resolution.Found(x) {
        FoundIsAlone(st, ns, groups, plan, c, g, w, s, instances, context, n, candidates, x);
      }
      if Alone(st, s, context, candidates, x) {
        AloneIsFound(st, ns, groups, plan, c, g, w, s, instances, context, n, candidates, x);
      }
    }
  }

  // ---------- both ----------

  /** The name resolves to `x` by the context's own relationships, or else by the groups it is in. */
  ghost predicate ResolvesTo(st: Resolution.Storage, s: Inst, context: Resolution.Context, n: Name, candidates: seq<Id>,
                             x: Id)
    requires Resolution.Consistent(st) && Resolution.KnownContext(st, context) && Acyclic(s.cont)
    requires candidates != [] && candidates[0] in st.instances
  {
    match context
    case Self(i) =>
      var rels := st.instances[i].relationships;
      OnlyTarget(rels, n, x) || ((forall t :: !OnlyTarget(rels, n, t)) && Alone(st, s, i, candidates, x))
    case Related(source, target) =>
      || Alone(st, s, source, candidates, x)
      || ((forall y :: !Alone(st, s, source, candidates, y)) && Alone(st, s, target, candidates, x))
    case Nowhere => false
  }

  /** All that the answer depends on is as it should be. */
  ghost predicate Settled(st: Resolution.Storage, s: Inst, context: Resolution.Context, n: Name, candidates: seq<Id>)
    requires Resolution.Consistent(st) && Resolution.KnownContext(st, context) && Acyclic(s.cont)
    requires candidates != [] && forall i :: i in candidates ==> i in st.instances
  {
    match context
    case Self(i) =>
      && FindsAlone(st, s, i, candidates)
      && (forall t :: OnlyTarget(st.instances[i].relationships, n, t) ==> t in candidates)
    case Related(source, target) => FindsAlone(st, s, source, candidates) && FindsAlone(st, s, target, candidates)
    case Nowhere => true
  }

  lemma SettledAnswer(st: Resolution.Storage, s: Inst, context: Resolution.Context, n: Name, candidates: seq<Id>)
    requires Resolution.Consistent(st) && Resolution.KnownContext(st, context) && Acyclic(s.cont)
    requires |candidates| > 1 && (forall i :: i in candidates ==> i in st.instances)
    requires Settled(st, s, context, n, candidates)
    ensures var answer := Resolution.ResolveByName(st, context, n, candidates);
      && (forall x :: answer == Resolution.Instance(x) <==> ResolvesTo(st, s, context, n, candidates, x))
      && (answer.Instance? || answer == Resolution.Ambiguous)
  {
    var own := Resolution.ResolveByRelationship(st, context, n, candidates);
    var shared := Resolution.ResolveByGroup(st, context, candidates);
    if context.Self? {
      OwnRelationships(st, context.id, n, candidates);
    }
    ByNameIs(st, context, n, candidates, own, shared);
    forall x ensures ResolvesTo(st, s, context, n, candidates, x) <==>
      own == Resolution.Found(x) || (own == Resolution.Unresolved && shared == Resolution.Found(x))
    {
      FoundBy(st, s, context, n, candidates, x);
    }
    GroupsNeverFail(st, s, context, n, candidates);
  }

  lemma ByNameIs(st: Resolution.Storage, context: Resolution.Context, n: Name, candidates: seq<Id>,
                 own: Resolution.Resolved, shared: Resolution.Resolved)
    requires Resolution.Consistent(st) && Resolution.KnownContext(st, context)
    requires |candidates| > 1 && (forall i :: i in candidates ==> i in st.instances)
    requires own == Resolution.ResolveByRelationship(st, context, n, candidates)
    requires shared == Resolution.ResolveByGroup(st, context, candidates)
    ensures Resolution.ResolveByName(st, context, n, candidates) ==
      match own
      case Found(x) => Resolution.Instance(x)
      case IllegalState => Resolution.Illegal
      case Unresolved =>
        match shared
        case Found(x) => Resolution.Instance(x)
        case IllegalState => Resolution.Illegal
        case Unresolved => Resolution.Ambiguous
  {
  }

  lemma GroupsNeverFail(st: Resolution.Storage, s: Inst, context: Resolution.Context, n: Name, candidates: seq<Id>)
    requires Resolution.Consistent(st) && Resolution.KnownContext(st, context) && Acyclic(s.cont)
    requires |candidates| > 1 && (forall i :: i in candidates ==> i in st.instances)
    requires Settled(st, s, context, n, candidates)
    ensures Resolution.ResolveByRelationship(st, context, n, candidates) != Resolution.IllegalState
    ensures Resolution.ResolveByGroup(st, context, candidates) != Resolution.IllegalState
  {
    if context.Self? {
      OwnRelationships(st, context.id, n, candidates);
    }
  }

  lemma FoundBy(st: Resolution.Storage, s: Inst, context: Resolution.Context, n: Name, candidates: seq<Id>, x: Id)
    requires Resolution.Consistent(st) && Resolution.KnownContext(st, context) && Acyclic(s.cont)
    requires |candidates| > 1 && (forall i :: i in candidates ==> i in st.instances)
    requires Settled(st, s, context, n, candidates)
    ensures var own, shared := Resolution.ResolveByRelationship(st, context, n, candidates),
        Resolution.ResolveByGroup(st, context, candidates);
      ResolvesTo(st, s, context, n, candidates, x) <==>
        own == Resolution.Found(x) || (own == Resolution.Unresolved && shared == Resolution.Found(x))
  {
    match context {
      case Self(i) =>
        OwnRelationships(st, i, n, candidates);
      case Related(source, target) =>
        var r := Resolution.ResolveFrom(st, source, candidates);
        assert r.Found? ==> Alone(st, s, source, candidates, r.id);
      case Nowhere =>
    }
  }

  /** The own relationships decide if they all lead to one instance, and else leave it to the groups. */
  lemma OwnRelationships(st: Resolution.Storage, i: Id, n: Name, candidates: seq<Id>)
    requires i in st.instances
    requires forall t :: OnlyTarget(st.instances[i].relationships, n, t) ==> t in candidates
    ensures var r, rels := Resolution.ResolveByRelationship(st, Resolution.Self(i), n, candidates),
        st.instances[i].relationships;
      && (forall t :: r == Resolution.Found(t) <==> OnlyTarget(rels, n, t))
      && r != Resolution.IllegalState
  {
    OneTargetExactly(st.instances[i].relationships, n);
  }

  lemma DeployedSettled(st: Resolution.Storage, ns: seq<NodeDef>, groups: seq<GroupDef>, plan: PlanGraph,
                        c: InstanceGraph, g: InstanceGraph, w: World, s: Inst, instances: seq<Stored>,
                        context: Resolution.Context, n: Name, candidates: seq<Id>)
    requires DeployedStorage(st, ns, groups, plan, c, g, w, s, instances) && Resolution.Consistent(st)
    requires Resolution.KnownContext(st, context) && AllOf(st, s, n, candidates)
    ensures Settled(st, s, context, n, candidates)
  {
    match context {
      case Self(i) =>
        forall t | OnlyTarget(st.instances[i].relationships, n, t) ensures t in candidates {
          TargetStored(st, ns, groups, plan, c, g, w, s, instances, i, n, t);
        }
        FromExactly(st, ns, groups, plan, c, g, w, s, instances, i, n, candidates);
      case Related(source, target) =>
        FromExactly(st, ns, groups, plan, c, g, w, s, instances, source, n, candidates);
        FromExactly(st, ns, groups, plan, c, g, w, s, instances, target, n, candidates);
      case Nowhere =>
    }
  }

  /** Which answer a node name gets, if the node has these instances. */
  ghost predicate Answers(st: Resolution.Storage, s: Inst, context: Resolution.Context, n: Name, candidates: seq<Id>,
                          answer: Resolution.Answer)
    requires Resolution.Consistent(st) && Resolution.KnownContext(st, context) && Acyclic(s.cont)
    requires forall i :: i in candidates ==> i in st.instances
  {
    match answer
    case NoInstances => candidates == []
    case Instance(x) =>
      if |candidates| == 1 then x == candidates[0]
      else candidates != [] && ResolvesTo(st, s, context, n, candidates, x)
    case Ambiguous => |candidates| > 1 && forall x :: !ResolvesTo(st, s, context, n, candidates, x)
    case Illegal => false
  }

  /**
    The whole answer, over the storage of a fresh deployment: the node's only instance; else what the context's
    own relationships to the name all lead to; else the instance that is alone with the context in the
    innermost group that they share, a relationship's source being asked before its target; else it is
    ambiguous. No other error is reachable.
  */
  lemma AnswerExactly(st: Resolution.Storage, ns: seq<NodeDef>, groups: seq<GroupDef>, plan: PlanGraph,
                      c: InstanceGraph, g: InstanceGraph, w: World, s: Inst, instances: seq<Stored>,
                      context: Resolution.Context, n: Name, candidates: seq<Id>)
    requires DeployedStorage(st, ns, groups, plan, c, g, w, s, instances) && Resolution.Consistent(st)
    requires Resolution.KnownContext(st, context) && (candidates == [] || AllOf(st, s, n, candidates))
    ensures forall answer ::
      Resolution.ResolveByName(st, context, n, candidates) == answer <==> Answers(st, s, context, n, candidates, answer)
  {
    if candidates != [] {
      DeployedSettled(st, ns, groups, plan, c, g, w, s, instances, context, n, candidates);
    }
    AnswerOf(st, s, context, n, candidates);
  }

  lemma AnswerOf(st: Resolution.Storage, s: Inst, context: Resolution.Context, n: Name, candidates: seq<Id>)
    requires Resolution.Consistent(st) && Resolution.KnownContext(st, context) && Acyclic(s.cont)
    requires forall i :: i in candidates ==> i in st.instances
    requires candidates != [] ==> Settled(st, s, context, n, candidates)
    ensures forall answer ::
      Resolution.ResolveByName(st, context, n, candidates) == answer <==> Answers(st, s, context, n, candidates, answer)
  {
    if |candidates| > 1 {
      SettledAnswer(st, s, context, n, candidates);
    }
    var found := Resolution.ResolveByName(st, context, n, candidates);
    forall answer ensures found == answer <==> Answers(st, s, context, n, candidates, answer) {
      if answer.Instance? && |candidates| > 1 {
        assert found == Resolution.Instance(answer.id) <==> ResolvesTo(st, s, context, n, candidates, answer.id);
      } else if found.Instance? && |candidates| > 1 {
        assert ResolvesTo(st, s, context, n, candidates, found.id);
      }
    }
  }

  // ---------- the errors over any storage ----------

  /** The context's own relationships to the name all lead to something that is no instance of it. */
  ghost predicate LeadsAstray(st: Resolution.Storage, i: Id, n: Name, candidates: seq<Id>)
    requires i in st.instances
  {
    exists t :: OnlyTarget(st.instances[i].relationships, n, t) && t !in candidates
  }

  /** The innermost group shared with the first candidate is not around all of them. */
  ghost predicate GroupFails(st: Resolution.Storage, i: Id, candidates: seq<Id>)
    requires Resolution.Consistent(st) && i in st.instances && candidates != []
    requires forall c :: c in candidates ==> c in st.instances
  {
    exists group :: Resolution.Innermost(st, i, candidates, group) && Resolution.Lacks(st, candidates, group)
  }

  /** One candidate alone is in the context's instance of that group. */
  ghost predicate GroupDecides(st: Resolution.Storage, i: Id, candidates: seq<Id>)
    requires Resolution.Consistent(st) && i in st.instances && candidates != []
    requires forall c :: c in candidates ==> c in st.instances
  {
    exists group, c ::
      Resolution.Innermost(st, i, candidates, group) && Resolution.OnlyOneWith(st, i, candidates, group, c)
  }

  lemma FromFails(st: Resolution.Storage, i: Id, candidates: seq<Id>)
    requires Resolution.Consistent(st) && i in st.instances && candidates != [] && Distinct(candidates)
    requires forall c :: c in candidates ==> c in st.instances
    ensures var r := Resolution.ResolveFrom(st, i, candidates);
      && (r == Resolution.IllegalState <==> GroupFails(st, i, candidates))
      && (r.Found? <==> !GroupFails(st, i, candidates) && GroupDecides(st, i, candidates))
  {
    Resolution.IllegalExactly(st, i, candidates);
    var r := Resolution.ResolveFrom(st, i, candidates);
    if r.Found? {
      Resolution.FoundExactly(st, i, candidates, r.id);
    }
    if r != Resolution.IllegalState && GroupDecides(st, i, candidates) {
      var group, c :|
        Resolution.Innermost(st, i, candidates, group) && Resolution.OnlyOneWith(st, i, candidates, group, c);
      Resolution.FoundExactly(st, i, candidates, c);
    }
  }

  /** When resolving the name ends in an illegal state. */
  ghost predicate EndsIllegal(st: Resolution.Storage, context: Resolution.Context, n: Name, candidates: seq<Id>)
    requires Resolution.Consistent(st) && Resolution.KnownContext(st, context) && candidates != []
    requires forall c :: c in candidates ==> c in st.instances
  {
    match context
    case Self(i) =>
      || LeadsAstray(st, i, n, candidates)
      || ((forall t :: !OnlyTarget(st.instances[i].relationships, n, t)) && GroupFails(st, i, candidates))
    case Related(source, target) =>
      || GroupFails(st, source, candidates)
      || (!GroupDecides(st, source, candidates) && GroupFails(st, target, candidates))
    case Nowhere => false
  }

  /**
    Over any storage, resolving a name of several instances ends in an illegal state exactly if the context's
    own relationships lead to no instance of the node, or, where they do not decide, the innermost group that
    is shared with the first candidate is not around all of them; a relationship's target is asked only if
    its source decides nothing.
  */
  lemma IllegalAnswerExactly(st: Resolution.Storage, context: Resolution.Context, n: Name, candidates: seq<Id>)
    requires Resolution.Consistent(st) && Resolution.KnownContext(st, context) && Distinct(candidates)
    requires forall c :: c in candidates ==> c in st.instances
    ensures Resolution.ResolveByName(st, context, n, candidates) == Resolution.Illegal <==>
      |candidates| > 1 && EndsIllegal(st, context, n, candidates)
  {
    if |candidates| > 1 {
      match context {
        case Self(i) =>
          OneTargetExactly(st.instances[i].relationships, n);
          FromFails(st, i, candidates);
        case Related(source, target) =>
          FromFails(st, source, candidates);
          FromFails(st, target, candidates);
        case Nowhere =>
      }
    }
  }

  // ---------- the groups that are looked up ----------

  /** The node of the instance declares a container. */
  ghost predicate Declares(ns: seq<NodeDef>, s: Inst, i: Id) {
    i in s.node && exists a, b :: ContainedAt(ns, a, b) && ns[a].id == s.node[i]
  }

  lemma DeclaresExactly(st: Resolution.Storage, ns: seq<NodeDef>, groups: seq<GroupDef>, plan: PlanGraph,
                        c: InstanceGraph, g: InstanceGraph, w: World, s: Inst, instances: seq<Stored>, i: Id)
    requires DeployedStorage(st, ns, groups, plan, c, g, w, s, instances) && i in st.instances
    ensures Resolution.HasParent(st, i) <==> Declares(ns, s, i)
  {
    var r, a := StoredIs(st, ns, groups, plan, c, g, w, s, instances, i);
    ContainedTargetOf(ns, groups, a);
    ContainedTargetIs(NodeRelationships(ns[a]));
  }

  /** Either recorded on the instance, or around its holder. */
  lemma {:induction false} LeadingOrAbove(chain: seq<Id>, gi: set<Id>, q: Id)
    requires q in chain
    ensures q in LeadingGroups(chain, gi) || AfterGroups(chain, gi) == Some(q) ||
      exists k, m :: 0 <= k < m < |chain| && AfterGroups(chain, gi) == Some(chain[k]) && chain[m] == q
  {
    if chain[0] in gi {
      if q != chain[0] {
        LeadingOrAbove(chain[1..], gi, q);
        var rest := chain[1..];
        if k, m :| 0 <= k < m < |rest| && AfterGroups(rest, gi) == Some(rest[k]) && rest[m] == q {
          assert chain[k + 1] == rest[k] && chain[m + 1] == q;
        }
      }
    } else if q != chain[0] {
      var m :| 0 <= m < |chain| && chain[m] == q;
      assert AfterGroups(chain, gi) == Some(chain[0]);
    }
  }

  /** A group instance around `i` is recorded on it, or is around what holds it. */
  lemma GroupAbove(c: InstanceGraph, s: Inst, i: Id, q: Id)
    requires Acyclic(s.cont) && q in Chain(s.cont, i) && q in GroupInstances(c)
    ensures q in LeadingGroups(Chain(s.cont, i), GroupInstances(c)) ||
      (Holder(c, s, i).Some? && q in Chain(s.cont, Holder(c, s, i).value))
  {
    var chain, gi := Chain(s.cont, i), GroupInstances(c);
    LeadingOrAbove(chain, gi, q);
    LeadingWithin(chain, gi);
    if k, m :| 0 <= k < m < |chain| && AfterGroups(chain, gi) == Some(chain[k]) && chain[m] == q {
      ChainSuffix(s.cont, i, k);
      assert chain[k + 1..][m - k - 1] == q;
    }
  }

  lemma RecordedHere(c: InstanceGraph, s: Inst, i: Id, q: Id)
    requires Acyclic(s.cont) && (forall j :: j in s.cont ==> s.cont[j] in c.nodes)
    requires q in LeadingGroups(Chain(s.cont, i), GroupInstances(c)) && q in c.nodes
    ensures c.nodes[q].name in Resolution.GroupNamesOf(GroupsOf(c, s, i))
  {
    var ids := LeadingGroups(Chain(s.cont, i), GroupInstances(c));
    var k :| 0 <= k < |ids| && ids[k] == q;
    assert GroupsOf(c, s, i)[k].0 == c.nodes[q].name;
    assert Resolution.GroupNamesOf(GroupsOf(c, s, i))[k] == c.nodes[q].name;
  }

  /** `q` is around the node instance `j`, and not recorded on it. */
  ghost predicate HolderBelow(c: InstanceGraph, s: Inst, j: Id, q: Id)
    requires Acyclic(s.cont)
  {
    && j in c.nodes && !c.nodes[j].group && q in Chain(s.cont, j)
    && q !in LeadingGroups(Chain(s.cont, j), GroupInstances(c))
  }

  lemma DeclaredFurtherUp(ns: seq<NodeDef>, c: InstanceGraph, s: Inst, i: Id, h: Id, q: Id)
    requires Acyclic(s.cont) && h in Chain(s.cont, i) && DeclaredUpTo(ns, c, s, i, q)
    ensures DeclaredUpTo(ns, c, s, h, q)
  {
    forall j | j in Path(s.cont, h) ensures j in Path(s.cont, i) {
      if j != h {
        ChainTransitive(s.cont, i, h, j);
      }
    }
  }

  /** Each node instance on the way from `i` up to `q` declares a container. */
  ghost predicate DeclaredUpTo(ns: seq<NodeDef>, c: InstanceGraph, s: Inst, i: Id, q: Id)
    requires Acyclic(s.cont)
  {
    forall j :: j in Path(s.cont, i) && HolderBelow(c, s, j, q) ==> Declares(ns, s, j)
  }

  /**
    The lookup finds the group instances that are really around an instance: all of them, as long as the
    containers on the way there are declared by the nodes themselves, and not only by others of their group.
  */
  lemma {:induction false} LookupFinds(st: Resolution.Storage, ns: seq<NodeDef>, groups: seq<GroupDef>,
                                       plan: PlanGraph, c: InstanceGraph, g: InstanceGraph, w: World, s: Inst,
                                       instances: seq<Stored>, i: Id, q: Id)
    requires DeployedStorage(st, ns, groups, plan, c, g, w, s, instances) && Resolution.Consistent(st)
    requires i in st.instances && q in Chain(s.cont, i) && q in c.nodes && c.nodes[q].group
    requires DeclaredUpTo(ns, c, s, i, q)
    ensures c.nodes[q].name in Resolution.ContainingGroups(st, i)
    decreases Rank(Resolution.Parents(st), i)
  {
    var r, a := StoredIs(st, ns, groups, plan, c, g, w, s, instances, i);
    GroupAbove(c, s, i, q);
    if q in LeadingGroups(Chain(s.cont, i), GroupInstances(c)) {
      RecordedHere(c, s, i, q);
    } else {
      assert i in Path(s.cont, i) && HolderBelow(c, s, i, q);
      var h := NextHolder(st, ns, groups, plan, c, g, w, s, instances, i);
      DeclaredFurtherUp(ns, c, s, i, h, q);
      LookupFinds(st, ns, groups, plan, c, g, w, s, instances, h, q);
    }
  }

  lemma NextHolder(st: Resolution.Storage, ns: seq<NodeDef>, groups: seq<GroupDef>, plan: PlanGraph,
                   c: InstanceGraph, g: InstanceGraph, w: World, s: Inst, instances: seq<Stored>, i: Id)
    returns (h: Id)
    requires DeployedStorage(st, ns, groups, plan, c, g, w, s, instances) && Resolution.Consistent(st)
    requires i in st.instances && Declares(ns, s, i)
    ensures Resolution.HasParent(st, i) && h == Resolution.Parents(st)[i] && h in st.instances
    ensures Holder(c, s, i) == Some(h) && h in Chain(s.cont, i)
    ensures Rank(Resolution.Parents(st), h) < Rank(Resolution.Parents(st), i)
    ensures forall group :: group in Resolution.ContainingGroups(st, h) ==> group in Resolution.ContainingGroups(st, i)
  {
    DeclaresExactly(st, ns, groups, plan, c, g, w, s, instances, i);
    ParentIsHolder(st, ns, groups, plan, c, g, w, s, instances, i);
    h := Resolution.Parents(st)[i];
    RankDrops(Resolution.Parents(st), i);
  }

  /** And it finds the right instance of it. */
  lemma LookupExactly(st: Resolution.Storage, ns: seq<NodeDef>, groups: seq<GroupDef>, plan: PlanGraph,
                      c: InstanceGraph, g: InstanceGraph, w: World, s: Inst, instances: seq<Stored>, i: Id, q: Id)
    requires DeployedStorage(st, ns, groups, plan, c, g, w, s, instances) && Resolution.Consistent(st)
    requires i in st.instances && q in Chain(s.cont, i) && q in c.nodes && c.nodes[q].group
    requires DeclaredUpTo(ns, c, s, i, q)
    ensures Resolution.GroupInstance(st, i, c.nodes[q].name) == Some(q)
  {
    LookupFinds(st, ns, groups, plan, c, g, w, s, instances, i, q);
    var name := c.nodes[q].name;
    Resolution.GroupInstanceExactly(st, i, name);
    LookupIsReal(st, ns, groups, plan, c, g, w, s, instances, i, name);
    var r, a := StoredIs(st, ns, groups, plan, c, g, w, s, instances, i);
    ChainNameUnique(w, s, i, q, Resolution.GroupInstance(st, i, name).value);
  }
}
