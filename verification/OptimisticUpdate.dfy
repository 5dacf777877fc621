/**
  Concurrent writers of one node instance's runtime properties. Storage accepts an update only for
  its current version; a writer that is refused refetches, merges its own properties in, and tries again.
*/
module OptimisticUpdate {
  import opened Names

  type Props = map<string, string>

  /** `b` has everything that `a` has. */
  ghost predicate Extends(a: Props, b: Props) {
    forall k :: k in a ==> k in b && b[k] == a[k]
  }

  /** No key has two different values. */
  ghost predicate Compatible(a: Props, b: Props) {
    forall k :: k in a && k in b ==> a[k] == b[k]
  }

  /** The merge handler: adds to `next` what only `previous` has, unless some key has changed. */
  method SimpleMerge(previous: Props, next: Props) returns (r: Option<Props>)
    ensures r.None? <==> !Compatible(previous, next)
    ensures r.Some? ==> r.value == previous + next
  {
    var merged := next;
    var todo := previous.Keys;
    while todo != {}
      invariant todo <= previous.Keys
      invariant forall k :: k in previous && k in next && k !in todo ==> previous[k] == next[k]
      invariant forall k :: k in merged <==> k in next || (k in previous && k !in todo)
      invariant forall k :: k in merged ==> merged[k] == if k in next then next[k] else previous[k]
      decreases todo
    {
      var name :| name in todo;
      if name in merged && previous[name] != merged[name] {
        return None;
      }
      if name !in merged {
        merged := merged[name := previous[name]];
      }
      todo := todo - {name};
    }
    assert merged == previous + next;
    r := Some(merged);
  }

  /** A merge keeps everything that both sides have. */
  lemma MergeKeeps(previous: Props, next: Props)
    requires Compatible(previous, next)
    ensures Extends(previous, previous + next) && Extends(next, previous + next)
  {
  }

  /** Where a writer stands in its update. `base` is the version it first fetched. */
  datatype Writer =
    | Idle
    | Editing(local: Props, version: nat)
    | Merging(own: Props, latest: Props, version: nat, base: nat, retries: nat)
    | Sending(own: Props, candidate: Props, version: nat, base: nat, retries: nat)
    | Refused(own: Props, base: nat, retries: nat)
    | Done(own: Props)
    | Failed

  /**
    Storage and writers. `history` holds the properties of each version so far and `log` the writer
    that made each version after the first.
  */
  datatype State = State(history: seq<Props>, log: seq<nat>, writers: map<nat, Writer>)

  ghost predicate Sane(s: State) {
    |s.history| == |s.log| + 1
  }

  ghost function Version(s: State): nat
    requires Sane(s)
  {
    |s.log|
  }

  ghost function Current(s: State): Props
    requires Sane(s)
  {
    s.history[Version(s)]
  }

  /** Writers only add keys. */
  ghost predicate AddsKey(local: Props, k: string, v: string, y: Writer, version: nat) {
    k !in local && y == Editing(local[k := v], version)
  }

  /**
    What the writer `i` does alone; storage only changes when it accepts an update. An answer other than
    a version conflict is raised: the writer has failed.
  */
  ghost predicate WriterStep(s: State, i: nat, x: Writer, y: Writer)
    requires Sane(s)
  {
    match x
    case Idle => y == Editing(Current(s), Version(s))
    case Editing(local, version) =>
      || (exists k, v :: AddsKey(local, k, v, y, version))
      || y == Merging(local, local, version, version, 0)
    case Merging(own, latest, version, base, retries) =>
      if Compatible(own, latest) then y == Sending(own, own + latest, version, base, retries) else y == Failed
    case Sending(own, candidate, version, base, retries) =>
      y == Failed || (version != Version(s) && y == Refused(own, base, retries + 1))
    case Refused(own, base, retries) => y == Merging(own, Current(s), Version(s), base, retries)
    case Done(_) => y == Idle
    case Failed => y == Idle
  }

  /** The writer `i` is at its turn in a step of the whole system. */
  ghost predicate StepBy(s: State, t: State, i: nat) {
    && Sane(s) && i in s.writers && t.writers.Keys == s.writers.Keys
    && (forall j :: j in s.writers && j != i ==> t.writers[j] == s.writers[j])
    && (Commits(s, t, i) ||
        (t.history == s.history && t.log == s.log && WriterStep(s, i, s.writers[i], t.writers[i])))
  }

  /** Storage accepts the update of `i`; the writer learns of it unless the answer is an error all the same. */
  ghost predicate Commits(s: State, t: State, i: nat)
    requires Sane(s) && i in s.writers && i in t.writers
  {
    var x := s.writers[i];
    && x.Sending? && x.version == Version(s)
    && t.history == s.history + [x.candidate] && t.log == s.log + [i]
    && (t.writers[i] == Done(x.own) || t.writers[i] == Failed)
  }

  ghost predicate Step(s: State, t: State) {
    exists i :: StepBy(s, t, i)
  }

  /** A run of any length, from a state with nothing going on. */
  ghost predicate Run(run: seq<State>) {
    && run != [] && Sane(run[0]) && run[0].log == [] && (forall i :: i in run[0].writers ==> run[0].writers[i] == Idle)
    && forall k :: 0 <= k < |run| - 1 ==> Step(run[k], run[k + 1])
  }

  /** The versions since the writer's first fetch were all made by others, at least one for each retry. */
  ghost predicate OthersSince(s: State, i: nat, base: nat, retries: nat)
    requires Sane(s)
  {
    && base + retries <= Version(s)
    && forall v :: base <= v < |s.log| ==> s.log[v] != i
  }

  ghost predicate WriterInv(s: State, i: nat)
    requires Sane(s) && i in s.writers
  {
    match s.writers[i]
    case Idle => true
    case Editing(local, version) =>
      version <= Version(s) && Extends(s.history[version], local) && OthersSince(s, i, version, 0)
    case Merging(own, latest, version, base, retries) =>
      version <= Version(s) && Extends(s.history[version], latest)
      && base + retries <= version && OthersSince(s, i, base, retries)
    case Sending(own, candidate, version, base, retries) =>
      version <= Version(s) && Extends(s.history[version], candidate) && Extends(own, candidate)
      && base + retries <= version && OthersSince(s, i, base, retries)
    case Refused(own, base, retries) => OthersSince(s, i, base, retries)
    case Done(own) => Extends(own, Current(s))
    case Failed => true
  }

  /** Each version extends the one it replaced. */
  ghost predicate Growing(history: seq<Props>) {
    forall v :: 0 <= v < |history| - 1 ==> Extends(history[v], history[v + 1])
  }

  ghost predicate Inv(s: State) {
    && Sane(s) && Growing(s.history)
    && forall i :: i in s.writers ==> WriterInv(s, i)
  }

  lemma CommitInv(s: State, t: State, i: nat)
    requires Inv(s) && StepBy(s, t, i) && Commits(s, t, i)
    ensures Inv(t)
  {
    assert WriterInv(s, i);
    forall v | 0 <= v < |t.history| - 1
      ensures Extends(t.history[v], t.history[v + 1])
    {
    }
    forall j | j in t.writers
      ensures WriterInv(t, j)
    {
      assert WriterInv(s, j);
    }
  }

  lemma QuietInv(s: State, t: State, i: nat)
    requires Inv(s) && StepBy(s, t, i) && !Commits(s, t, i)
    ensures Inv(t)
  {
    assert WriterInv(s, i);
    if s.writers[i].Merging? && Compatible(s.writers[i].own, s.writers[i].latest) {
      MergeKeeps(s.writers[i].own, s.writers[i].latest);
    }
    forall j | j in t.writers
      ensures WriterInv(t, j)
    {
      assert WriterInv(s, j);
    }
  }

  lemma {:induction false} RunInv(run: seq<State>, k: nat)
    requires Run(run) && k < |run|
    ensures Inv(run[k])
  {
    if k > 0 {
      RunInv(run, k - 1);
      assert Step(run[k - 1], run[k]);
      var i :| StepBy(run[k - 1], run[k], i);
      if Commits(run[k - 1], run[k], i) {
        CommitInv(run[k - 1], run[k], i);
      } else {
        QuietInv(run[k - 1], run[k], i);
      }
    }
  }

  lemma {:induction false} GrowingExtends(history: seq<Props>, v: nat, u: nat)
    requires Growing(history) && v <= u < |history|
    ensures Extends(history[v], history[u])
    decreases u - v
  {
    if v < u {
      GrowingExtends(history, v, u - 1);
      assert Extends(history[u - 1], history[u - 1 + 1]);
    }
  }

  /**
    No lost updates: in every run, every version that storage ever had, and all that a writer whose
    update went through had in its properties, is in the current properties.
  */
  lemma NoLostUpdates(run: seq<State>, k: nat)
    requires Run(run) && k < |run|
    ensures Sane(run[k])
    ensures forall v :: 0 <= v < |run[k].history| ==> Extends(run[k].history[v], Current(run[k]))
    ensures forall i :: i in run[k].writers && run[k].writers[i].Done? ==>
      Extends(run[k].writers[i].own, Current(run[k]))
  {
    RunInv(run, k);
    forall v | 0 <= v < |run[k].history|
      ensures Extends(run[k].history[v], Current(run[k]))
    {
      GrowingExtends(run[k].history, v, Version(run[k]));
    }
    forall i | i in run[k].writers && run[k].writers[i].Done?
      ensures Extends(run[k].writers[i].own, Current(run[k]))
    {
      assert WriterInv(run[k], i);
    }
  }

  ghost function Retries(w: Writer): nat {
    if w.Merging? || w.Sending? || w.Refused? then w.retries else 0
  }

  ghost function Base(w: Writer): nat
    requires w.Merging? || w.Sending? || w.Refused?
  {
    w.base
  }

  /** A writer retries at most once for each version that others made since it first fetched. */
  lemma RetriesBounded(run: seq<State>, k: nat, i: nat)
    requires Run(run) && k < |run| && i in run[k].writers
    requires var w := run[k].writers[i]; w.Merging? || w.Sending? || w.Refused?
    ensures Sane(run[k])
    ensures var w := run[k].writers[i];
            Base(w) <= |run[k].log| && Retries(w) <= |run[k].log[Base(w)..]| && i !in run[k].log[Base(w)..]
  {
    RunInv(run, k);
    assert WriterInv(run[k], i);
    var w := run[k].writers[i];
    assert OthersSince(run[k], i, Base(w), Retries(w));
  }

  /**
    A conflict is not the end: if its properties can be merged with the current ones, a writer with an
    outdated version goes through by steps of its own, and what it then has stored is the merge.
  */
  lemma ConflictRetried(s: State, i: nat) returns (refused: State, merging: State, sending: State, done: State)
    requires Sane(s) && i in s.writers && s.writers[i].Sending? && s.writers[i].version != Version(s)
    requires Compatible(s.writers[i].own, Current(s))
    ensures StepBy(s, refused, i) && StepBy(refused, merging, i)
    ensures StepBy(merging, sending, i) && StepBy(sending, done, i)
    ensures Sane(done) && done.writers[i] == Done(s.writers[i].own)
    ensures Current(done) == s.writers[i].own + Current(s) && Version(done) == Version(s) + 1
  {
    var x := s.writers[i];
    var own, now, v := x.own, Current(s), Version(s);
    refused := s.(writers := s.writers[i := Refused(own, x.base, x.retries + 1)]);
    merging := s.(writers := s.writers[i := Merging(own, now, v, x.base, x.retries + 1)]);
    sending := s.(writers := s.writers[i := Sending(own, own + now, v, x.base, x.retries + 1)]);
    done := State(s.history + [own + now], s.log + [i], s.writers[i := Done(own)]);
    assert WriterStep(s, i, x, refused.writers[i]);
    assert WriterStep(refused, i, refused.writers[i], merging.writers[i]);
    assert WriterStep(merging, i, merging.writers[i], sending.writers[i]);
    assert Commits(sending, done, i);
  }

  datatype Reply = Accepted | Conflict | OtherError

  /** A request to store `props` over `version`, and how it was answered. */
  datatype Request = Request(version: nat, props: Props, reply: Reply)

  /**
    Storage with its other writers: before each request up to `pending` of their updates may come in.
    `requests` and `fetched` record what it was asked to store, and what it has handed out.
  */
  class Store {
    var version: nat
    var props: Props
    var pending: nat
    ghost var requests: seq<Request>
    ghost var fetched: seq<(nat, Props)>

    constructor (props: Props, pending: nat)
      ensures version == 0 && this.props == props && this.pending == pending && requests == [] && fetched == []
    {
      version, this.props, this.pending := 0, props, pending;
      requests, fetched := [], [];
    }

    /** Any number of updates by others, each adding to the properties. */
    method Interfere()
      modifies this`version, this`props, this`pending
      ensures version + pending == old(version + pending) && version >= old(version)
      ensures Extends(old(props), props)
      ensures version == old(version) ==> props == old(props)
    {
      var n: nat :| n <= pending;
      if n > 0 {
        var more: Props :| true;
        props := more + props;
        version, pending := version + n, pending - n;
      }
    }

    method Get() returns (v: nat, p: Props)
      modifies this
      ensures v == version && p == props
      ensures version + pending == old(version + pending) && version >= old(version)
      ensures Extends(old(props), props)
      ensures version == old(version) ==> props == old(props)
      ensures fetched == old(fetched) + [(v, p)] && requests == old(requests)
    {
      Interfere();
      v, p := version, props;
      fetched := fetched + [(v, p)];
    }

    /** The update is accepted only for the current version, else it is a conflict; or there is another error. */
    method Put(v: nat, p: Props) returns (reply: Reply, ghost replaced: Props)
      modifies this
      ensures Extends(old(props), replaced)
      ensures reply == Accepted ==> version == v + 1 && props == p && v >= old(version)
                                    && version + pending == old(version + pending) + 1
      ensures reply == Accepted && v == old(version) ==> replaced == old(props)
      ensures reply != Accepted ==> props == replaced && version >= old(version)
                                    && version + pending == old(version + pending)
      ensures reply == Conflict ==> version != v
      ensures requests == old(requests) + [Request(v, p, reply)] && fetched == old(fetched)
    {
      Interfere();
      replaced := props;
      var broken: bool := *;
      if broken {
        reply := OtherError;
      } else if v == version {
        reply := Accepted;
        version, props := version + 1, p;
      } else {
        reply := Conflict;
      }
      requests := requests + [Request(v, p, reply)];
    }
  }

  datatype Ending = Updated | NotMerged | Raised

  /** What the next attempt goes by: the version and properties fetched last, at first the writer's own. */
  ghost function LastFetched(own: Props, version: nat, fetched: seq<(nat, Props)>): (nat, Props) {
    if fetched == [] then (version, own) else fetched[|fetched| - 1]
  }

  /**
    The attempts: one request for each time something was fetched, with the own properties merged into
    that; all answered by a conflict but perhaps the last one.
  */
  ghost predicate Attempts(own: Props, version: nat, requests: seq<Request>, fetched: seq<(nat, Props)>) {
    && |requests| <= |fetched| + 1
    && (forall k :: 0 <= k < |requests| ==> Attempt(own, LastFetched(own, version, fetched[..k]), requests[k]))
    && forall k :: 0 <= k < |fetched| && k < |requests| ==> requests[k].reply == Conflict
  }

  ghost predicate Attempt(own: Props, latest: (nat, Props), request: Request) {
    request.version == latest.0 && Compatible(own, latest.1) && request.props == own + latest.1
  }

  /** How the attempts end: with the answer to the last request, or because what was fetched last cannot be merged. */
  ghost predicate EndsWith(own: Props, version: nat, requests: seq<Request>, fetched: seq<(nat, Props)>,
                           ending: Ending) {
    match ending
    case NotMerged => |requests| == |fetched| && !Compatible(own, LastFetched(own, version, fetched).1)
    case Updated => |requests| == |fetched| + 1 && requests[|fetched|].reply == Accepted
    case Raised => |requests| == |fetched| + 1 && requests[|fetched|].reply == OtherError
  }

  lemma OneMoreAttempt(own: Props, version: nat, requests: seq<Request>, fetched: seq<(nat, Props)>, request: Request)
    requires |requests| == |fetched| && Attempts(own, version, requests, fetched)
    requires Attempt(own, LastFetched(own, version, fetched), request)
    ensures Attempts(own, version, requests + [request], fetched)
  {
    assert fetched[..|fetched|] == fetched;
  }

  lemma OneMoreFetched(own: Props, version: nat, requests: seq<Request>, fetched: seq<(nat, Props)>, f: (nat, Props))
    requires |requests| == |fetched| + 1 && Attempts(own, version, requests, fetched)
    requires requests[|fetched|].reply == Conflict
    ensures Attempts(own, version, requests, fetched + [f])
    ensures LastFetched(own, version, fetched + [f]) == f
  {
    forall k | 0 <= k < |requests|
      ensures Attempt(own, LastFetched(own, version, (fetched + [f])[..k]), requests[k])
    {
      assert (fetched + [f])[..k] == fetched[..k];
    }
  }

  /** So if there is no other error, and what others stored can be merged, the update goes through. */
  lemma GoesThrough(own: Props, version: nat, requests: seq<Request>, fetched: seq<(nat, Props)>, ending: Ending)
    requires EndsWith(own, version, requests, fetched, ending)
    requires forall k :: 0 <= k < |requests| ==> requests[k].reply != OtherError
    requires forall k :: 0 <= k < |fetched| ==> Compatible(own, fetched[k].1)
    ensures ending == Updated
  {
    assert fetched != [] ==> Compatible(own, LastFetched(own, version, fetched).1);
  }

  /**
    A context's update with the merge handler: the properties are merged with what storage has, sent,
    and on a conflict, and only then, refetched and merged again; any other error is raised. Storage only
    ever grows, the writer's own properties are in it when the update goes through, and there is at most one
    retry for each update by others.
  */
  method Update(store: Store, own: Props, version: nat) returns (ending: Ending, retries: nat)
    requires version <= store.version
    requires version == store.version ==> Extends(store.props, own)
    modifies store
    ensures old(store.requests) <= store.requests && old(store.fetched) <= store.fetched
    ensures var requests, fetched := store.requests[|old(store.requests)|..], store.fetched[|old(store.fetched)|..];
      Attempts(own, version, requests, fetched) && EndsWith(own, version, requests, fetched, ending) &&
        retries == |fetched|
    ensures Extends(old(store.props), store.props)
    ensures ending == Updated ==> Extends(own, store.props)
    ensures ending == NotMerged ==> retries > 0
    ensures retries <= old(store.version) - version + old(store.pending) - store.pending
  {
    var latest, v := own, version;
    retries := 0;
    ghost var requests: seq<Request>, fetched: seq<(nat, Props)> := [], [];
    while true
      invariant version + retries <= v <= store.version
      invariant Extends(old(store.props), store.props)
      invariant v == store.version ==> Extends(store.props, latest)
      invariant store.version + store.pending == old(store.version + store.pending)
      invariant store.requests == old(store.requests) + requests && store.fetched == old(store.fetched) + fetched
      invariant |requests| == |fetched| == retries && Attempts(own, version, requests, fetched)
      invariant (v, latest) == LastFetched(own, version, fetched)
      decreases store.version + store.pending - v
    {
      var merged := SimpleMerge(own, latest);
      if merged.None? {
        return NotMerged, retries;
      }
      MergeKeeps(own, latest);
      var reply;
      ghost var replaced;
      reply, replaced := store.Put(v, merged.value);
      OneMoreAttempt(own, version, requests, fetched, Request(v, merged.value, reply));
      requests := requests + [Request(v, merged.value, reply)];
      if reply == Accepted {
        return Updated, retries;
      }
      if reply == OtherError {
        return Raised, retries;
      }
      retries := retries + 1;
      v, latest := store.Get();
      OneMoreFetched(own, version, requests, fetched, (v, latest));
      fetched := fetched + [(v, latest)];
    }
  }
}
