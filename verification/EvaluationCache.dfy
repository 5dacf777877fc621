/**
  The evaluation handler's caches: what it answers from them is what storage would answer, as long
  as storage does not change and the printed capability paths tell the paths apart.
*/
module EvaluationCache {
  import opened Decimals
  import opened Names

  // ---------- printing paths ----------

  datatype Element = Str(s: string) | Index(n: int)

  type Path = seq<Element>

  function Number(n: int): string {
    if n < 0 then "-" + Decimal(-n) else Decimal(n)
  }

  function PrintElement(e: Element): string {
    match e
    case Str(s) => s
    case Index(n) => Number(n)
  }

  function Suffix(e: Element): string {
    match e
    case Str(s) => "." + s
    case Index(n) => "[" + Number(n) + "]"
  }

  /** The elements after the first. */
  function PrintRest(path: Path): string {
    if path == [] then "" else Suffix(path[0]) + PrintRest(path[1..])
  }

  /** The path in Python syntax, which serves as the key of the capabilities cache. */
  function Print(path: Path): string {
    if path == [] then "" else PrintElement(path[0]) + PrintRest(path[1..])
  }

  lemma RestStep(path: Path, k: nat)
    requires k < |path|
    ensures PrintRest(path[k..]) == Suffix(path[k]) + PrintRest(path[k + 1..])
  {
    assert path[k..][1..] == path[k + 1..];
  }

  lemma Regroup(a: string, b: string, c: string)
    ensures (a + b) + c == a + (b + c)
  {
  }

  /** The string is built up in a loop over the elements. */
  method ConvertAttributeList(path: Path) returns (s: string)
    ensures s == Print(path)
  {
    if path == [] {
      return "";
    }
    s := PrintElement(path[0]);
    for k := 1 to |path|
      invariant s + PrintRest(path[k..]) == Print(path)
    {
      RestStep(path, k);
      Regroup(s, Suffix(path[k]), PrintRest(path[k + 1..]));
      s := s + Suffix(path[k]);
    }
    assert path[|path|..] == [];
  }

  lemma {:induction false} DecimalDigits(n: nat)
    ensures forall c :: c in Decimal(n) ==> c in "0123456789"
  {
    if n >= 10 {
      DecimalDigits(n / 10);
    }
  }

  lemma DigitInjective(a: nat, b: nat)
    requires a < 10 && b < 10 && Digit(a) == Digit(b)
    ensures a == b
  {
  }

  lemma {:induction false} DecimalInjective(a: nat, b: nat)
    requires Decimal(a) == Decimal(b)
    ensures a == b
  {
    var s := Decimal(a);
    assert s[|s| - 1] == Digit(a % 10) && s[|s| - 1] == Digit(b % 10);
    DigitInjective(a % 10, b % 10);
    assert |Decimal(a)| == 1 <==> a < 10;
    assert |Decimal(b)| == 1 <==> b < 10;
    if a >= 10 {
      assert Decimal(a / 10) == s[..|s| - 1] == Decimal(b / 10);
      DecimalInjective(a / 10, b / 10);
    }
  }

  lemma NumberInjective(a: int, b: int)
    requires Number(a) == Number(b)
    ensures a == b
  {
    DecimalDigits(if a < 0 then -a else a);
    DecimalDigits(if b < 0 then -b else b);
    var s, t := Number(a), Number(b);
    assert a < 0 ==> s[0] == '-' && s[1..] == Decimal(-a);
    assert b < 0 ==> t[0] == '-' && t[1..] == Decimal(-b);
    assert a >= 0 ==> s[0] in Decimal(a);
    assert b >= 0 ==> t[0] in Decimal(b);
    DecimalInjective(if a < 0 then -a else a, if b < 0 then -b else b);
  }

  lemma NumberClean(n: int)
    ensures ']' !in Number(n) && '.' !in Number(n) && '[' !in Number(n)
  {
    DecimalDigits(if n < 0 then -n else n);
  }

  /** What can follow a string in a printed path. */
  predicate StartsElement(s: string) {
    s == "" || s[0] == '.' || s[0] == '['
  }

  predicate Plain(s: string) {
    '.' !in s && '[' !in s
  }

  ghost predicate Marked(mark: set<char>, x: string) {
    x == "" || x[0] in mark
  }

  ghost predicate Free(mark: set<char>, a: string) {
    forall c :: c in a ==> c !in mark
  }

  /** A string free of some marks ends where a tail that starts with a mark begins. */
  lemma {:induction false} Split(mark: set<char>, a: string, x: string, b: string, y: string)
    requires Free(mark, a) && Free(mark, b) && Marked(mark, x) && Marked(mark, y) && a + x == b + y
    ensures a == b && x == y
  {
    var s := a + x;
    assert a != "" ==> s[0] == a[0] && a[0] in a && s[1..] == a[1..] + x;
    assert b != "" ==> s[0] == b[0] && b[0] in b && s[1..] == b[1..] + y;
    assert a == "" ==> s == x;
    assert b == "" ==> s == y;
    if a != "" && b != "" {
      Split(mark, a[1..], x, b[1..], y);
    }
  }

  /** Plain strings end where the next element starts. */
  lemma PlainSplit(a: string, x: string, b: string, y: string)
    requires Plain(a) && Plain(b) && StartsElement(x) && StartsElement(y) && a + x == b + y
    ensures a == b && x == y
  {
    Split({'.', '['}, a, x, b, y);
  }

  /** Numbers end at their bracket. */
  lemma BracketSplit(a: string, x: string, b: string, y: string)
    requires ']' !in a && ']' !in b && a + ("]" + x) == b + ("]" + y)
    ensures a == b && x == y
  {
    Split({']'}, a, "]" + x, b, "]" + y);
    assert ("]" + x)[1..] == x && ("]" + y)[1..] == y;
  }

  predicate PlainElements(path: Path) {
    forall k :: 0 <= k < |path| && path[k].Str? ==> Plain(path[k].s)
  }

  /** Paths that start with a string and whose strings contain neither a dot nor an opening bracket. */
  predicate Printable(path: Path) {
    path != [] && path[0].Str? && PlainElements(path)
  }

  lemma RestStarts(path: Path)
    ensures StartsElement(PrintRest(path))
  {
  }

  /** What is left of an element once its first mark is read. */
  function Body(e: Element, x: string): string {
    match e
    case Str(s) => s + x
    case Index(n) => Number(n) + ("]" + x)
  }

  lemma SuffixRead(e: Element, x: string)
    ensures var s := Suffix(e) + x; s != "" && s[0] == (if e.Str? then '.' else '[') && s[1..] == Body(e, x)
  {
    match e
    case Str(s) =>
      assert "." + s + x == "." + (s + x);
    case Index(n) =>
      var d := Number(n);
      assert "[" + d + "]" + x == "[" + (d + ("]" + x));
  }

  /** One element and what follows it can be read off what they print. */
  lemma SuffixInjective(e: Element, x: string, f: Element, y: string)
    requires e.Str? ==> Plain(e.s)
    requires f.Str? ==> Plain(f.s)
    requires StartsElement(x) && StartsElement(y) && Suffix(e) + x == Suffix(f) + y
    ensures e == f && x == y
  {
    SuffixRead(e, x);
    SuffixRead(f, y);
    if e.Str? {
      PlainSplit(e.s, x, f.s, y);
    } else {
      NumberClean(e.n);
      NumberClean(f.n);
      BracketSplit(Number(e.n), x, Number(f.n), y);
      NumberInjective(e.n, f.n);
    }
  }

  lemma TailPlain(p: Path)
    requires p != [] && PlainElements(p)
    ensures PlainElements(p[1..])
  {
    assert forall k :: 0 <= k < |p[1..]| ==> p[1..][k] == p[k + 1];
  }

  lemma {:induction false} RestInjective(p: Path, q: Path)
    requires PlainElements(p) && PlainElements(q) && PrintRest(p) == PrintRest(q)
    ensures p == q
  {
    if p != [] && q != [] {
      RestStarts(p[1..]);
      RestStarts(q[1..]);
      SuffixInjective(p[0], PrintRest(p[1..]), q[0], PrintRest(q[1..]));
      TailPlain(p);
      TailPlain(q);
      RestInjective(p[1..], q[1..]);
      assert p == [p[0]] + p[1..] && q == [q[0]] + q[1..];
    }
  }

  /** Printed keys tell printable paths apart. */
  lemma PrintInjective(p: Path, q: Path)
    requires Printable(p) && Printable(q) && Print(p) == Print(q)
    ensures p == q
  {
    RestStarts(p[1..]);
    RestStarts(q[1..]);
    PlainSplit(p[0].s, PrintRest(p[1..]), q[0].s, PrintRest(q[1..]));
    TailPlain(p);
    TailPlain(q);
    RestInjective(p[1..], q[1..]);
    assert p == [p[0]] + p[1..] && q == [q[0]] + q[1..];
  }

  /** Without that condition they need not be: each of the three parts of it is needed. */
  lemma PrintCollides()
    ensures Print([Str("a.b")]) == Print([Str("a"), Str("b")])
    ensures Print([Str("a[1]")]) == Print([Str("a"), Index(1)])
    ensures Print([Index(1), Str("b")]) == Print([Str("1"), Str("b")])
  {
    assert PrintRest([Str("b")]) == Suffix(Str("b")) + PrintRest([]);
    assert PrintRest([Index(1)]) == Suffix(Index(1)) + PrintRest([]);
    assert Decimal(1) == "1";
    assert [Str("a"), Str("b")][1..] == [Str("b")];
    assert [Str("a"), Index(1)][1..] == [Index(1)];
    assert [Index(1), Str("b")][1..] == [Str("b")];
    assert [Str("1"), Str("b")][1..] == [Str("b")];
    assert [Str("a.b")][1..] == [] && [Str("a[1]")][1..] == [];
  }

  // ---------- capability caches ----------

  /** What storage says of a path; a lookup that raises is None. */
  function Ask<K(==), V>(store: map<K, V>, k: K): (v: Option<V>)
    ensures v == None <==> k !in store
  {
    if k in store then Some(store[k]) else None
  }

  /** The first path asked for so far whose printed form is the key and which storage knew. */
  function First<V>(store: map<Path, V>, asked: seq<Path>, key: string): (p: Option<Path>)
    ensures p.Some? ==> p.value in asked && p.value in store && Print(p.value) == key
  {
    if asked == [] then
      None
    else
      var earlier := First(store, asked[..|asked| - 1], key);
      var last := asked[|asked| - 1];
      if earlier.Some? then earlier else if Print(last) == key && last in store then Some(last) else None
  }

  lemma {:induction false} FirstExists<V>(store: map<Path, V>, asked: seq<Path>, i: nat)
    requires i < |asked| && asked[i] in store
    ensures First(store, asked, Print(asked[i])).Some?
  {
    if i < |asked| - 1 {
      FirstExists(store, asked[..|asked| - 1], i);
    }
  }

  lemma {:induction false} FirstIndex<V>(store: map<Path, V>, asked: seq<Path>, key: string) returns (i: nat)
    requires First(store, asked, key).Some?
    ensures i < |asked| && asked[i] == First(store, asked, key).value
    ensures First(store, asked[..i], key) == None
  {
    var front := asked[..|asked| - 1];
    if First(store, front, key).Some? {
      i := FirstIndex(store, front, key);
      assert asked[..i] == front[..i];
    } else {
      i := |asked| - 1;
    }
  }

  /** The answer the handler gives for a path after the others were asked. */
  function Served<V>(store: map<Path, V>, asked: seq<Path>, path: Path): Option<V> {
    var first := First(store, asked, Print(path));
    Ask(store, if first.Some? then first.value else path)
  }

  /** Every answer in the run was storage's own. */
  ghost predicate Faithful<V(!new)>(store: map<Path, V>, asked: seq<Path>) {
    forall j :: 0 <= j < |asked| ==> Served(store, asked[..j], asked[j]) == Ask(store, asked[j])
  }

  /** A path that storage knew is never followed by another that prints the same and has another answer. */
  ghost predicate Unambiguous<V(!new)>(store: map<Path, V>, asked: seq<Path>) {
    forall i, j :: 0 <= i < j < |asked| && Print(asked[i]) == Print(asked[j]) && asked[i] in store ==>
      Ask(store, asked[i]) == Ask(store, asked[j])
  }

  lemma ServedStep<V(!new)>(store: map<Path, V>, asked: seq<Path>, j: nat)
    requires Unambiguous(store, asked) && j < |asked|
    ensures Served(store, asked[..j], asked[j]) == Ask(store, asked[j])
  {
    var before := asked[..j];
    if First(store, before, Print(asked[j])).Some? {
      var i := FirstIndex(store, before, Print(asked[j]));
      assert asked[i] == before[i];
    }
  }

  /** Once found, the first path stays the first. */
  lemma {:induction false} FirstStable<V>(store: map<Path, V>, asked: seq<Path>, i: nat, j: nat, key: string)
    requires i <= j <= |asked| && First(store, asked[..i], key).Some?
    ensures First(store, asked[..j], key) == First(store, asked[..i], key)
  {
    if i < j {
      FirstStable(store, asked, i, j - 1, key);
      assert asked[..j][..j - 1] == asked[..j - 1];
    }
  }

  lemma AmbiguityServed<V(!new)>(store: map<Path, V>, asked: seq<Path>, i: nat, j: nat)
    requires Faithful(store, asked)
    requires i < j < |asked| && Print(asked[i]) == Print(asked[j]) && asked[i] in store
    ensures Ask(store, asked[i]) == Ask(store, asked[j])
  {
    var key := Print(asked[j]);
    var upTo := asked[..i + 1];
    assert upTo[i] == asked[i] && upTo[..i] == asked[..i];
    FirstExists(store, upTo, i);
    FirstStable(store, asked, i + 1, j, key);
    assert Served(store, asked[..j], asked[j]) == Ask(store, asked[j]);
    assert Served(store, asked[..i], asked[i]) == Ask(store, asked[i]);
  }

  /** The capability answers of a run are storage's exactly when no two of its paths are confused. */
  lemma FaithfulExactly<V(!new)>(store: map<Path, V>, asked: seq<Path>)
    ensures Faithful(store, asked) <==> Unambiguous(store, asked)
  {
    if Unambiguous(store, asked) {
      forall j | 0 <= j < |asked| ensures Served(store, asked[..j], asked[j]) == Ask(store, asked[j]) {
        ServedStep(store, asked, j);
      }
    }
    if Faithful(store, asked) {
      forall i, j | 0 <= i < j < |asked| && Print(asked[i]) == Print(asked[j]) && asked[i] in store
        ensures Ask(store, asked[i]) == Ask(store, asked[j])
      {
        AmbiguityServed(store, asked, i, j);
      }
    }
  }

  /** No two different paths among these print the same. */
  ghost predicate ToldApart(asked: seq<Path>) {
    forall p, q :: p in asked && q in asked && Print(p) == Print(q) ==> p == q
  }

  /** The answers are storage's whatever it holds exactly when the printed forms tell the paths apart. */
  lemma AlwaysFaithfulExactly(asked: seq<Path>)
    ensures ToldApart(asked) <==> forall store: map<Path, int> :: Faithful(store, asked)
  {
    if ToldApart(asked) {
      forall store: map<Path, int> ensures Faithful(store, asked) {
        ToldApartFaithful(store, asked);
      }
    }
    if p, q :| p in asked && q in asked && Print(p) == Print(q) && p != q {
      ConfusedFor(asked, p, q);
    }
  }

  lemma ToldApartFaithful<V(!new)>(store: map<Path, V>, asked: seq<Path>)
    requires ToldApart(asked)
    ensures Faithful(store, asked)
  {
    assert forall i :: 0 <= i < |asked| ==> asked[i] in asked;
    FaithfulExactly(store, asked);
  }

  /** Storage that knows only the one that is asked first: the other gets its answer, instead of none. */
  lemma ConfusedFor(asked: seq<Path>, p: Path, q: Path)
    requires p in asked && q in asked && Print(p) == Print(q) && p != q
    ensures exists store: map<Path, int> :: !Faithful(store, asked)
  {
    var i :| 0 <= i < |asked| && asked[i] == p;
    var j :| 0 <= j < |asked| && asked[j] == q;
    var first, second := if i < j then i else j, if i < j then j else i;
    ConfusedAt(map[asked[first] := 0], asked, first, second);
  }

  lemma ConfusedAt(store: map<Path, int>, asked: seq<Path>, i: nat, j: nat)
    requires i < j < |asked| && Print(asked[i]) == Print(asked[j]) && asked[i] in store && asked[j] !in store
    ensures !Faithful(store, asked)
  {
    if Faithful(store, asked) {
      AmbiguityServed(store, asked, i, j);
    }
  }

  /** So they are storage's, whatever it holds, when all paths are printable. */
  lemma PrintableFaithful<V(!new)>(store: map<Path, V>, asked: seq<Path>)
    requires forall p :: p in asked ==> Printable(p)
    ensures Faithful(store, asked)
  {
    forall p, q | p in asked && q in asked && Print(p) == Print(q) ensures p == q {
      PrintInjective(p, q);
    }
    ToldApartFaithful(store, asked);
  }

  // ---------- the handler ----------

  datatype Instance<V> = Instance(id: Name, record: V)

  /** Storage during an evaluation; a key that is missing makes the lookup raise. */
  datatype Storage<V> = Storage(
    nodes: map<Name, V>,
    nodeInstances: map<Name, seq<Instance<V>>>,
    instances: map<Name, Instance<V>>,
    secrets: map<Name, V>,
    capabilities: map<Path, V>)

  ghost predicate ListedIn<V>(store: Storage<V>, x: Instance<V>) {
    exists n :: n in store.nodeInstances && x in store.nodeInstances[n]
  }

  /** The instances listed under a node are the ones found by their ids. */
  ghost predicate Consistent<V(!new)>(store: Storage<V>) {
    forall x :: ListedIn(store, x) ==> Ask(store.instances, x.id) == Some(x)
  }

  ghost function IdsOf<V(!new)>(xs: seq<Instance<V>>): (ids: set<Name>)
    ensures forall x :: x in xs ==> x.id in ids
  {
    set x | x in xs :: x.id
  }

  ghost predicate Within<K, V>(cache: map<K, V>, store: map<K, V>) {
    forall k :: k in cache ==> k in store && cache[k] == store[k]
  }

  /** The capability cache holds, for every printed form, the answer of the first path known for it. */
  ghost predicate Remembers<V>(cache: map<string, V>, store: map<Path, V>, asked: seq<Path>) {
    forall key: string ::
      Ask(cache, key) == (match First(store, asked, key) case None => None case Some(p) => Some(store[p]))
  }

  /** `requests` counts what storage has been asked. */
  class RuntimeEvaluationHandler<V(!new)> {
    const storage: Storage<V>
    var nodesCache: map<Name, V>
    var nodeToNodeInstances: map<Name, seq<Instance<V>>>
    var nodeInstancesCache: map<Name, Instance<V>>
    var secretsCache: map<Name, V>
    var capabilitiesCache: map<string, V>
    ghost var capabilitiesAsked: seq<Path>
    ghost var requests: nat

    ghost predicate Valid()
      reads this
    {
      && Within(nodesCache, storage.nodes)
      && Within(nodeToNodeInstances, storage.nodeInstances)
      && Within(secretsCache, storage.secrets)
      && (forall id :: id in nodeInstancesCache ==> InstanceKnown(id))
      && (forall n :: n in nodeToNodeInstances ==> Cached(nodeToNodeInstances[n]))
      && Remembers(capabilitiesCache, storage.capabilities, capabilitiesAsked)
    }

    ghost predicate InstanceKnown(id: Name)
      requires id in nodeInstancesCache
      reads this
    {
      var x := nodeInstancesCache[id];
      Some(x) == Ask(storage.instances, id) || (x.id == id && ListedIn(storage, x))
    }

    ghost predicate Cached(xs: seq<Instance<V>>)
      reads this
    {
      forall x :: x in xs ==> x.id in nodeInstancesCache
    }

    constructor (store: Storage<V>)
      ensures Valid() && storage == store
      ensures capabilitiesAsked == [] && requests == 0
    {
      storage := store;
      nodesCache, nodeToNodeInstances, nodeInstancesCache, secretsCache := map[], map[], map[], map[];
      capabilitiesCache := map[];
      capabilitiesAsked, requests := [], 0;
    }

    method GetNode(nodeId: Name) returns (node: Option<V>)
      requires Valid()
      modifies `nodesCache, `requests
      ensures Valid() && node == Ask(storage.nodes, nodeId)
      ensures nodesCache.Keys == old(nodesCache).Keys + (if node.Some? then {nodeId} else {})
      ensures requests == old(requests) + (if nodeId in old(nodesCache) then 0 else 1)
    {
      if nodeId !in nodesCache {
        var asked := Ask(storage.nodes, nodeId);
        requests := requests + 1;
        if asked == None {
          return None;
        }
        nodesCache := nodesCache[nodeId := asked.value];
      }
      node := Some(nodesCache[nodeId]);
    }

    method GetSecret(key: Name) returns (secret: Option<V>)
      requires Valid()
      modifies `secretsCache, `requests
      ensures Valid() && secret == Ask(storage.secrets, key)
      ensures secretsCache.Keys == old(secretsCache).Keys + (if secret.Some? then {key} else {})
      ensures requests == old(requests) + (if key in old(secretsCache) then 0 else 1)
    {
      if key !in secretsCache {
        var asked := Ask(storage.secrets, key);
        requests := requests + 1;
        if asked == None {
          return None;
        }
        secretsCache := secretsCache[key := asked.value];
      }
      secret := Some(secretsCache[key]);
    }

    method CacheInstances(listed: seq<Instance<V>>)
      requires Valid() && forall x :: x in listed ==> ListedIn(storage, x)
      modifies `nodeInstancesCache
      ensures Valid() && nodeInstancesCache.Keys == old(nodeInstancesCache).Keys + IdsOf(listed)
    {
      for k := 0 to |listed|
        invariant Valid() && nodeInstancesCache.Keys == old(nodeInstancesCache).Keys + IdsOf(listed[..k])
      {
        var x := listed[k];
        assert listed[..k + 1] == listed[..k] + [x];
        nodeInstancesCache := nodeInstancesCache[x.id := x];
      }
      assert listed[..|listed|] == listed;
    }

    /** Every instance it lists is cached under its id as well. */
    method GetNodeInstances(nodeId: Name) returns (found: Option<seq<Instance<V>>>)
      requires Valid()
      modifies `nodeToNodeInstances, `nodeInstancesCache, `requests
      ensures Valid() && found == Ask(storage.nodeInstances, nodeId)
      ensures nodeToNodeInstances.Keys == old(nodeToNodeInstances).Keys + (if found.Some? then {nodeId} else {})
      ensures nodeInstancesCache.Keys == old(nodeInstancesCache).Keys + (if found.Some? then IdsOf(found.value) else {})
      ensures requests == old(requests) + (if nodeId in old(nodeToNodeInstances) then 0 else 1)
    {
      if nodeId !in nodeToNodeInstances {
        var asked := Ask(storage.nodeInstances, nodeId);
        requests := requests + 1;
        if asked == None {
          return None;
        }
        assert forall x :: x in asked.value ==> ListedIn(storage, x);
        CacheInstances(asked.value);
        nodeToNodeInstances := nodeToNodeInstances[nodeId := asked.value];
      }
      found := Some(nodeToNodeInstances[nodeId]);
    }

    /** The answer is storage's, or an instance that storage lists under that id. */
    method GetNodeInstance(id: Name) returns (found: Option<Instance<V>>)
      requires Valid()
      modifies `nodeInstancesCache, `requests
      ensures Valid()
      ensures found == Ask(storage.instances, id) ||
        (found.Some? && found.value.id == id && ListedIn(storage, found.value))
      ensures Consistent(storage) ==> found == Ask(storage.instances, id)
      ensures nodeInstancesCache.Keys == old(nodeInstancesCache).Keys + (if found.Some? then {id} else {})
      ensures requests == old(requests) + (if id in old(nodeInstancesCache) then 0 else 1)
    {
      if id !in nodeInstancesCache {
        var asked := Ask(storage.instances, id);
        requests := requests + 1;
        if asked == None {
          return None;
        }
        nodeInstancesCache := nodeInstancesCache[id := asked.value];
      }
      assert InstanceKnown(id);
      found := Some(nodeInstancesCache[id]);
    }

    method GetCapability(path: Path) returns (found: Option<V>)
      requires Valid()
      modifies `capabilitiesCache, `capabilitiesAsked, `requests
      ensures Valid() && capabilitiesAsked == old(capabilitiesAsked) + [path]
      ensures found == Served(storage.capabilities, old(capabilitiesAsked), path)
      ensures requests == old(requests) +
        (if First(storage.capabilities, old(capabilitiesAsked), Print(path)).Some? then 0 else 1)
    {
      var id := ConvertAttributeList(path);
      ghost var asked := capabilitiesAsked;
      capabilitiesAsked := capabilitiesAsked + [path];
      assert capabilitiesAsked[..|asked|] == asked;
      if id !in capabilitiesCache {
        var capability := Ask(storage.capabilities, path);
        requests := requests + 1;
        if capability == None {
          return None;
        }
        capabilitiesCache := capabilitiesCache[id := capability.value];
      }
      found := Some(capabilitiesCache[id]);
    }
  }
}
