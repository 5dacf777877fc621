/**
  Resolving a node name to one of its instances, for `get_attribute` evaluated in the context of an
  instance or of a relationship between two instances.
*/
module Resolution {
  import opened Names
  import opened Forests

  /** A stored node, with for each relationship whether it is a contained_in and the node it targets. */
  datatype StoredNode = StoredNode(relationships: seq<(bool, Name)>)

  /** A stored instance; `groups` are the scaling groups recorded on it, innermost first. */
  datatype StoredInstance = StoredInstance(id: Id, nodeId: Name, groups: seq<(Name, Id)>,
                                           relationships: seq<(Name, Id)>)

  datatype Storage = Storage(nodes: map<Name, StoredNode>, instances: map<Id, StoredInstance>)

  /** The target of the first contained_in relationship. */
  function ContainedTarget(rels: seq<(bool, Name)>): Option<Name> {
    if rels == [] then None else if rels[0].0 then Some(rels[0].1) else ContainedTarget(rels[1..])
  }

  /** The id that the first relationship to `target` points at. */
  function TargetId(rels: seq<(Name, Id)>, target: Name): Option<Id> {
    if rels == [] then None else if rels[0].0 == target then Some(rels[0].1) else TargetId(rels[1..], target)
  }

  predicate HasParent(st: Storage, i: Id) {
    && i in st.instances && st.instances[i].nodeId in st.nodes
    && ContainedTarget(st.nodes[st.instances[i].nodeId].relationships).Some?
  }

  /** The instance that holds each contained instance. */
  function Parents(st: Storage): map<Id, Id> {
    map i | i in st.instances && HasParent(st, i)
        && TargetId(st.instances[i].relationships,
                    ContainedTarget(st.nodes[st.instances[i].nodeId].relationships).value).Some?
      :: TargetId(st.instances[i].relationships,
                  ContainedTarget(st.nodes[st.instances[i].nodeId].relationships).value).value
  }

  /** All references resolve and containment does not loop. */
  ghost predicate Consistent(st: Storage) {
    && (forall i :: i in st.instances ==> st.instances[i].id == i && st.instances[i].nodeId in st.nodes)
    && (forall i :: i in st.instances && HasParent(st, i) ==> i in Parents(st) && Parents(st)[i] in st.instances)
    && Acyclic(Parents(st))
  }

  /** The group names around an instance, innermost first, over all the instances that hold it. */
  function ContainingGroups(st: Storage, i: Id): (r: seq<Name>)
    requires Consistent(st) && i in st.instances
    decreases Rank(Parents(st), i)
  {
    var own := GroupNamesOf(st.instances[i].groups);
    if HasParent(st, i) then
      RankDrops(Parents(st), i);
      own + ContainingGroups(st, Parents(st)[i])
    else own
  }

  function GroupNamesOf(groups: seq<(Name, Id)>): (r: seq<Name>)
    ensures |r| == |groups| && forall k :: 0 <= k < |r| ==> r[k] == groups[k].0
  {
    seq(|groups|, k requires 0 <= k < |groups| => groups[k].0)
  }

  /** The first group that both instances are in, seen from the first. */
  function FirstShared(a: seq<Name>, b: seq<Name>): Option<Name> {
    if a == [] then None else if a[0] in b then Some(a[0]) else FirstShared(a[1..], b)
  }

  function GroupId(groups: seq<(Name, Id)>, group: Name): Option<Id> {
    if groups == [] then None else if groups[0].0 == group then Some(groups[0].1) else GroupId(groups[1..], group)
  }

  /** The instance of `group` around an instance; None is the source's illegal state. */
  function GroupInstance(st: Storage, i: Id, group: Name): (r: Option<Id>)
    requires Consistent(st) && i in st.instances
    decreases Rank(Parents(st), i)
  {
    var own := GroupId(st.instances[i].groups, group);
    if own.Some? then own
    else if HasParent(st, i) then
      RankDrops(Parents(st), i);
      GroupInstance(st, Parents(st)[i], group)
    else None
  }

  datatype Resolved = Unresolved | Found(id: Id) | IllegalState

  /** The candidates in the instance `q` of `group`, in order. */
  function InGroup(st: Storage, candidates: seq<Id>, group: Name, q: Option<Id>): seq<Id>
    requires Consistent(st) && forall c :: c in candidates ==> c in st.instances
  {
    if candidates == [] then []
    else (if GroupInstance(st, candidates[0], group) == q then [candidates[0]] else [])
         + InGroup(st, candidates[1..], group, q)
  }

  /** Resolution by scaling group, from one context instance. */
  function ResolveFrom(st: Storage, context: Id, candidates: seq<Id>): Resolved
    requires Consistent(st) && context in st.instances && candidates != [] &&
      forall c :: c in candidates ==> c in st.instances
  {
    var shared := FirstShared(ContainingGroups(st, context), ContainingGroups(st, candidates[0]));
    if shared.None? then Unresolved
    else
      var q := GroupInstance(st, context, shared.value);
      if q.None? || exists c | c in candidates :: GroupInstance(st, c, shared.value).None? then IllegalState
      else
        var matching := InGroup(st, candidates, shared.value, q);
        if |matching| == 1 then Found(matching[0]) else Unresolved
  }

  lemma {:induction false} GroupIdNames(groups: seq<(Name, Id)>, group: Name)
    ensures GroupId(groups, group).Some? <==> group in GroupNamesOf(groups)
  {
    if groups != [] {
      GroupIdNames(groups[1..], group);
      assert GroupNamesOf(groups) == [groups[0].0] + GroupNamesOf(groups[1..]);
    }
  }

  /** Looking up a group fails exactly for a group that is not around the instance. */
  lemma {:induction false} GroupInstanceExactly(st: Storage, i: Id, group: Name)
    requires Consistent(st) && i in st.instances
    ensures GroupInstance(st, i, group).Some? <==> group in ContainingGroups(st, i)
    decreases Rank(Parents(st), i)
  {
    GroupIdNames(st.instances[i].groups, group);
    if HasParent(st, i) {
      RankDrops(Parents(st), i);
      GroupInstanceExactly(st, Parents(st)[i], group);
    }
  }

  lemma {:induction false} FirstSharedIs(a: seq<Name>, b: seq<Name>)
    ensures FirstShared(a, b).None? <==> forall x :: x in a ==> x !in b
    ensures FirstShared(a, b).Some? ==> FirstShared(a, b).value in a && FirstShared(a, b).value in b
    ensures FirstShared(a, b).Some? ==>
      exists k :: 0 <= k < |a| && a[k] == FirstShared(a, b).value && forall m :: 0 <= m < k ==> a[m] !in b
  {
    if a != [] && a[0] !in b {
      FirstSharedIs(a[1..], b);
      if FirstShared(a[1..], b).Some? {
        var k :| 0 <= k < |a[1..]| && a[1..][k] == FirstShared(a[1..], b).value &&
          forall m :: 0 <= m < k ==> a[1..][m] !in b;
        assert a[k + 1] == FirstShared(a, b).value;
        assert forall m :: 0 < m < k + 1 ==> a[m] == a[1..][m - 1];
      }
    }
  }

  lemma {:induction false} InGroupIs(st: Storage, candidates: seq<Id>, group: Name, q: Option<Id>)
    requires Consistent(st) && forall c :: c in candidates ==> c in st.instances
    ensures forall c :: c in InGroup(st, candidates, group, q) <==> c in candidates && GroupInstance(st, c, group) == q
    ensures Distinct(candidates) ==> Distinct(InGroup(st, candidates, group, q))
  {
    if candidates != [] {
      InGroupIs(st, candidates[1..], group, q);
    }
  }

  /** The innermost group that the context shares with the candidates, seen from the context. */
  ghost predicate Innermost(st: Storage, context: Id, candidates: seq<Id>, group: Name)
    requires Consistent(st) && context in st.instances && candidates != [] && candidates[0] in st.instances
  {
    FirstShared(ContainingGroups(st, context), ContainingGroups(st, candidates[0])) == Some(group)
  }

  /** `c` is the only candidate in the context's instance of `group`. */
  ghost predicate OnlyOneWith(st: Storage, context: Id, candidates: seq<Id>, group: Name, c: Id)
    requires Consistent(st) && context in st.instances && forall c :: c in candidates ==> c in st.instances
  {
    && c in candidates && GroupInstance(st, c, group) == GroupInstance(st, context, group)
    && forall d :: d in candidates && GroupInstance(st, d, group) == GroupInstance(st, context, group) ==> d == c
  }

  /** Some candidate is not in the group at all. */
  ghost predicate Lacks(st: Storage, candidates: seq<Id>, group: Name)
    requires Consistent(st) && forall c :: c in candidates ==> c in st.instances
  {
    exists c :: c in candidates && group !in ContainingGroups(st, c)
  }

  lemma LacksExactly(st: Storage, candidates: seq<Id>, group: Name)
    requires Consistent(st) && forall c :: c in candidates ==> c in st.instances
    ensures Lacks(st, candidates, group) <==> exists c :: c in candidates && GroupInstance(st, c, group).None?
  {
    forall c | c in candidates
      ensures GroupInstance(st, c, group).Some? <==> group in ContainingGroups(st, c)
    {
      GroupInstanceExactly(st, c, group);
    }
  }

  /** The only error is a candidate that is not in the innermost shared group. */
  lemma IllegalExactly(st: Storage, context: Id, candidates: seq<Id>)
    requires Consistent(st) && context in st.instances && candidates != [] &&
      forall c :: c in candidates ==> c in st.instances
    ensures ResolveFrom(st, context, candidates) == IllegalState <==>
              exists group :: Innermost(st, context, candidates, group) && Lacks(st, candidates, group)
  {
    var a, b := ContainingGroups(st, context), ContainingGroups(st, candidates[0]);
    FirstSharedIs(a, b);
    if FirstShared(a, b).Some? {
      var group := FirstShared(a, b).value;
      GroupInstanceExactly(st, context, group);
      LacksExactly(st, candidates, group);
      assert Innermost(st, context, candidates, group);
    }
  }

  /**
    Resolution finds an instance exactly when one candidate alone is in the context's instance of the
    innermost shared group.
  */
  lemma FoundExactly(st: Storage, context: Id, candidates: seq<Id>, c: Id)
    requires Consistent(st) && context in st.instances && candidates != [] &&
      forall c :: c in candidates ==> c in st.instances
    requires Distinct(candidates) && ResolveFrom(st, context, candidates) != IllegalState
    ensures ResolveFrom(st, context, candidates) == Found(c) <==>
              exists group ::
                Innermost(st, context, candidates, group) && OnlyOneWith(st, context, candidates, group, c)
  {
    var shared := FirstShared(ContainingGroups(st, context), ContainingGroups(st, candidates[0]));
    if shared.Some? {
      var group := shared.value;
      var q := GroupInstance(st, context, group);
      var matching := InGroup(st, candidates, group, q);
      InGroupIs(st, candidates, group, q);
      if OnlyOneWith(st, context, candidates, group, c) {
        AllEqual(matching, c);
      }
      if |matching| == 1 && matching[0] == c {
        assert matching == [c];
        assert Innermost(st, context, candidates, group);
      }
    }
  }

  /** If some candidate is there, something is found exactly if that candidate is alone. */
  lemma FoundIfAlone(st: Storage, context: Id, candidates: seq<Id>, group: Name, there: Id)
    requires Consistent(st) && context in st.instances && candidates != [] &&
      forall c :: c in candidates ==> c in st.instances
    requires Distinct(candidates) && ResolveFrom(st, context, candidates) != IllegalState
    requires Innermost(st, context, candidates, group) && there in candidates
    requires GroupInstance(st, there, group) == GroupInstance(st, context, group)
    ensures ResolveFrom(st, context, candidates).Found? <==> OnlyOneWith(st, context, candidates, group, there)
  {
    FoundExactly(st, context, candidates, there);
    if ResolveFrom(st, context, candidates).Found? {
      FoundExactly(st, context, candidates, ResolveFrom(st, context, candidates).id);
    }
  }

  lemma AllEqual(s: seq<Id>, c: Id)
    requires Distinct(s) && forall x :: x in s <==> x == c
    ensures s == [c]
  {
    assert |s| > 1 ==> s[0] != s[1];
    assert c in s;
    forall k | 0 <= k < |s| ensures s[k] == c {
      assert s[k] in s;
    }
  }

  /** All candidates are in the same groups, as the instances of one node are. */
  ghost predicate SameGroups(st: Storage, candidates: seq<Id>)
    requires Consistent(st) && forall c :: c in candidates ==> c in st.instances
  {
    forall c, d :: c in candidates && d in candidates ==> ContainingGroups(st, c) == ContainingGroups(st, d)
  }

  /** Then no error is reachable. */
  lemma NeverIllegal(st: Storage, context: Id, candidates: seq<Id>)
    requires Consistent(st) && context in st.instances && candidates != [] &&
      forall c :: c in candidates ==> c in st.instances
    requires SameGroups(st, candidates)
    ensures ResolveFrom(st, context, candidates) != IllegalState
  {
    IllegalExactly(st, context, candidates);
    forall group | Innermost(st, context, candidates, group)
      ensures !Lacks(st, candidates, group)
    {
      FirstSharedIs(ContainingGroups(st, context), ContainingGroups(st, candidates[0]));
      assert candidates[0] in candidates;
    }
  }

  /** What the expression is evaluated for: an instance, or a relationship. */
  datatype Context = Self(id: Id) | Related(source: Id, target: Id) | Nowhere

  /** Resolution by scaling group; a relationship's source is tried before its target. */
  function ResolveByGroup(st: Storage, context: Context, candidates: seq<Id>): Resolved
    requires Consistent(st) && KnownContext(st, context) && candidates != [] &&
      forall c :: c in candidates ==> c in st.instances
  {
    match context
    case Self(id) => ResolveFrom(st, id, candidates)
    case Related(source, target) =>
      var r := ResolveFrom(st, source, candidates);
      if r == Unresolved then ResolveFrom(st, target, candidates) else r
    case Nowhere => Unresolved
  }

  predicate KnownContext(st: Storage, context: Context) {
    match context
    case Self(id) => id in st.instances
    case Related(source, target) => source in st.instances && target in st.instances
    case Nowhere => true
  }

  function TargetsNamed(rels: seq<(Name, Id)>, name: Name): set<Id> {
    set k | 0 <= k < |rels| && rels[k].0 == name :: rels[k].1
  }

  /** Resolution by a relationship of the context instance itself. */
  function ResolveByRelationship(st: Storage, context: Context, name: Name, candidates: seq<Id>): Resolved
    requires KnownContext(st, context)
  {
    if !context.Self? then Unresolved
    else
      var targets := TargetsNamed(st.instances[context.id].relationships, name);
      if |targets| != 1 then Unresolved
      else
        var target := Only(targets);
        if target in candidates then Found(target) else IllegalState
  }

  lemma OnlyOne(s: set<Id>)
    requires |s| == 1
    ensures forall x, y :: x in s && y in s ==> x == y
  {
    var x :| x in s;
    assert |s - {x}| == 0;
    assert forall y :: y in s ==> y == x || y in s - {x};
  }

  function Only(s: set<Id>): (x: Id)
    requires |s| == 1
    ensures s == {x}
  {
    OnlyOne(s);
    var x :| x in s;
    x
  }

  datatype Answer = Instance(id: Id) | NoInstances | Ambiguous | Illegal

  /** The whole resolution of a node name. */
  function ResolveByName(st: Storage, context: Context, name: Name, candidates: seq<Id>): Answer
    requires Consistent(st) && KnownContext(st, context) && forall c :: c in candidates ==> c in st.instances
  {
    if candidates == [] then NoInstances
    else if |candidates| == 1 then Instance(candidates[0])
    else
      match ResolveByRelationship(st, context, name, candidates)
      case Found(id) => Instance(id)
      case IllegalState => Illegal
      case Unresolved =>
        match ResolveByGroup(st, context, candidates)
        case Found(id) => Instance(id)
        case IllegalState => Illegal
        case Unresolved => Ambiguous
  }

  /** An answer is always one of the node's instances. */
  lemma AnswerIsCandidate(st: Storage, context: Context, name: Name, candidates: seq<Id>)
    requires Consistent(st) && KnownContext(st, context) && forall c :: c in candidates ==> c in st.instances
    requires ResolveByName(st, context, name, candidates).Instance?
    ensures ResolveByName(st, context, name, candidates).id in candidates
  {
    if |candidates| > 1 && ResolveByRelationship(st, context, name, candidates) == Unresolved {
      match context {
        case Self(id) => FoundIsCandidate(st, id, candidates);
        case Related(source, target) =>
          FoundIsCandidate(st, source, candidates);
          FoundIsCandidate(st, target, candidates);
        case Nowhere =>
      }
    }
  }

  lemma FoundIsCandidate(st: Storage, context: Id, candidates: seq<Id>)
    requires Consistent(st) && context in st.instances && candidates != [] &&
      forall c :: c in candidates ==> c in st.instances
    ensures ResolveFrom(st, context, candidates).Found? ==> ResolveFrom(st, context, candidates).id in candidates
  {
    var shared := FirstShared(ContainingGroups(st, context), ContainingGroups(st, candidates[0]));
    if shared.Some? {
      InGroupIs(st, candidates, shared.value, GroupInstance(st, context, shared.value));
    }
  }
}
