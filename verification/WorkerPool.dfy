/**
  The bounded pool of worker threads of a task consumer, as steps of the connection thread and of the
  workers. A semaphore counts the free slots; a delivery that finds none is buffered, and a worker
  that finishes takes the next buffered task over together with its slot.
*/
module WorkerPool {
  type Task = nat

  /** What the connection thread is doing with a delivery. */
  datatype Delivery = Waiting | Trying(task: Task) | Refused(task: Task)

  /** Where the worker for a task is. A finished worker that found no buffered task still has to release its slot. */
  datatype Phase = EarlyAck | Handling | LateAck | Replying | Finished | Releasing

  /**
    `lateAck` tells when a worker acknowledges its task. The two other settings say which pairs of
    operations cannot be interrupted: a refused delivery and its buffering, and a worker's finding the
    buffer empty and its releasing the slot. The source guarantees neither.
  */
  datatype Config = Config(size: nat, lateAck: bool, atomicDelivery: bool, atomicExit: bool)

  /**
    `lost` counts the slots of workers that died acknowledging or replying; `done` holds the tasks
    of all workers that have ended. `queued` and `dequeued` record the buffer's traffic.
  */
  datatype State = State(
    permits: nat, delivery: Delivery, buffer: seq<Task>, workers: map<Task, Phase>,
    lost: nat, done: set<Task>, arrived: set<Task>, queued: seq<Task>, dequeued: seq<Task>)

  function Initial(c: Config): State {
    State(c.size, Waiting, [], map[], 0, {}, {}, [], [])
  }

  function FirstPhase(c: Config): Phase {
    if c.lateAck then Handling else EarlyAck
  }

  function AfterHandling(c: Config): Phase {
    if c.lateAck then LateAck else Replying
  }

  /** A task that could be parsed is handed to the connection thread. */
  predicate Arrive(s: State, t: State, task: Task) {
    s.delivery == Waiting && task !in s.arrived && t == s.(delivery := Trying(task), arrived := s.arrived + {task})
  }

  /** There is a free slot: a worker is started. */
  predicate Acquire(c: Config, s: State, t: State) {
    && s.delivery.Trying? && s.permits > 0
    && t == s.(permits := s.permits - 1, delivery := Waiting, workers := s.workers[s.delivery.task := FirstPhase(c)])
  }

  function Buffered(s: State, task: Task): State {
    s.(delivery := Waiting, buffer := s.buffer + [task], queued := s.queued + [task])
  }

  /** There is none: the task will be buffered, at once or later. */
  predicate Refuse(c: Config, s: State, t: State) {
    && s.delivery.Trying? && s.permits == 0
    && t == if c.atomicDelivery then Buffered(s, s.delivery.task) else s.(delivery := Refused(s.delivery.task))
  }

  predicate Append(s: State, t: State) {
    s.delivery.Refused? && t == Buffered(s, s.delivery.task)
  }

  /** A worker gets on: acknowledges, handles its task (which may fail), replies if there is anyone to reply to. */
  predicate Advance(c: Config, s: State, t: State, w: Task) {
    && w in s.workers
    && match s.workers[w]
       case EarlyAck => t == s.(workers := s.workers[w := Handling])
       case Handling => t == s.(workers := s.workers[w := AfterHandling(c)])
       case LateAck => t == s.(workers := s.workers[w := Replying])
       case Replying => t == s.(workers := s.workers[w := Finished])
       case Finished => false
       case Releasing => false
  }

  function Ended(s: State, w: Task): State {
    s.(workers := s.workers - {w}, done := s.done + {w})
  }

  /** Acknowledging or replying raises: the worker dies and its slot is never released. */
  predicate Die(s: State, t: State, w: Task) {
    && w in s.workers && (s.workers[w].EarlyAck? || s.workers[w].LateAck? || s.workers[w].Replying?)
    && t == Ended(s, w).(lost := s.lost + 1)
  }

  /** A finished worker starts the worker of the first buffered task, which inherits its slot. */
  predicate TakeOver(c: Config, s: State, t: State, w: Task) {
    && w in s.workers && s.workers[w] == Finished && s.buffer != []
    && var e := Ended(s, w);
    t == e.(buffer := s.buffer[1..], dequeued := s.dequeued + [s.buffer[0]],
            workers := e.workers[s.buffer[0] := FirstPhase(c)])
  }

  function Released(s: State, w: Task): State {
    Ended(s, w).(permits := s.permits + 1)
  }

  /** A finished worker finds nothing buffered; it releases its slot, at once or later. */
  predicate FindEmpty(c: Config, s: State, t: State, w: Task) {
    && w in s.workers && s.workers[w] == Finished && s.buffer == []
    && t == if c.atomicExit then Released(s, w) else s.(workers := s.workers[w := Releasing])
  }

  predicate Release(s: State, t: State, w: Task) {
    w in s.workers && s.workers[w] == Releasing && t == Released(s, w)
  }

  datatype Event =
    | Arriving(task: Task) | Acquiring | Refusing | Appending
    | Advancing(w: Task) | Dying(w: Task) | TakingOver(w: Task) | FindingEmpty(w: Task) | ReleasingSlot(w: Task)

  predicate Does(c: Config, s: State, t: State, e: Event) {
    match e
    case Arriving(task) => Arrive(s, t, task)
    case Acquiring => Acquire(c, s, t)
    case Refusing => Refuse(c, s, t)
    case Appending => Append(s, t)
    case Advancing(w) => Advance(c, s, t, w)
    case Dying(w) => Die(s, t, w)
    case TakingOver(w) => TakeOver(c, s, t, w)
    case FindingEmpty(w) => FindEmpty(c, s, t, w)
    case ReleasingSlot(w) => Release(s, t, w)
  }

  ghost predicate Step(c: Config, s: State, t: State) {
    exists e :: Does(c, s, t, e)
  }

  ghost predicate Run(c: Config, run: seq<State>) {
    run != [] && run[0] == Initial(c) && forall k :: 0 <= k < |run| - 1 ==> Step(c, run[k], run[k + 1])
  }

  /** The task that the connection thread holds. */
  function InDelivery(s: State): set<Task> {
    match s.delivery
    case Waiting => {}
    case Trying(task) => {task}
    case Refused(task) => {task}
  }

  ghost predicate DistinctTasks(q: seq<Task>) {
    forall i, j :: 0 <= i < j < |q| ==> q[i] != q[j]
  }

  /** Every slot is free, held by a worker, or lost. */
  ghost predicate SlotsConserved(c: Config, s: State) {
    s.permits + |s.workers| + s.lost == c.size
  }

  /** The task is in exactly one place if it has arrived, and nowhere otherwise. */
  predicate Located(s: State, x: Task) {
    var d, b, w, f := x in InDelivery(s), x in s.buffer, x in s.workers, x in s.done;
    && (x in s.arrived <==> d || b || w || f)
    && !(d && b) && !(d && w) && !(d && f) && !(b && w) && !(b && f) && !(w && f)
  }

  /** Every delivery that arrived is in exactly one place. */
  ghost predicate OnePlace(s: State) {
    (forall x :: Located(s, x)) && DistinctTasks(s.buffer)
  }

  /** The buffer is first in, first out. */
  ghost predicate InOrder(s: State) {
    s.queued == s.dequeued + s.buffer
  }

  ghost predicate Inv(c: Config, s: State) {
    SlotsConserved(c, s) && OnePlace(s) && InOrder(s)
  }

  lemma ArriveInv(c: Config, s: State, t: State, task: Task)
    requires Inv(c, s) && Arrive(s, t, task)
    ensures Inv(c, t)
  {
    forall x
      ensures Located(t, x)
    {
      assert Located(s, x);
    }
  }

  lemma AcquireInv(c: Config, s: State, t: State)
    requires Inv(c, s) && Acquire(c, s, t)
    ensures Inv(c, t)
  {
    assert Located(s, s.delivery.task);
    OneMoreWorker(s.workers, s.delivery.task, FirstPhase(c));
    forall x
      ensures Located(t, x)
    {
      assert Located(s, x);
    }
  }

  lemma BufferedInv(c: Config, s: State, task: Task)
    requires Inv(c, s) && (s.delivery == Trying(task) || s.delivery == Refused(task))
    ensures Inv(c, Buffered(s, task))
  {
    assert Located(s, task);
    forall x
      ensures Located(Buffered(s, task), x)
    {
      assert Located(s, x);
    }
  }

  lemma RefuseInv(c: Config, s: State, t: State)
    requires Inv(c, s) && Refuse(c, s, t)
    ensures Inv(c, t)
  {
    if c.atomicDelivery {
      BufferedInv(c, s, s.delivery.task);
    } else {
      forall x
        ensures Located(t, x)
      {
        assert Located(s, x);
      }
    }
  }

  lemma OneMoreWorker(ws: map<Task, Phase>, w: Task, p: Phase)
    ensures ws[w := p].Keys == ws.Keys + {w}
    ensures |ws[w := p]| == if w in ws then |ws| else |ws| + 1
  {
    assert ws[w := p].Keys == ws.Keys + {w};
    assert |ws[w := p]| == |ws[w := p].Keys| && |ws| == |ws.Keys|;
  }

  lemma OneWorkerLess(ws: map<Task, Phase>, w: Task)
    requires w in ws
    ensures (ws - {w}).Keys == ws.Keys - {w} && |ws - {w}| == |ws| - 1
  {
    assert (ws - {w}).Keys == ws.Keys - {w};
    assert |ws - {w}| == |(ws - {w}).Keys| && |ws| == |ws.Keys|;
  }

  lemma PhaseInv(c: Config, s: State, w: Task, p: Phase)
    requires Inv(c, s) && w in s.workers
    ensures Inv(c, s.(workers := s.workers[w := p]))
  {
    OneMoreWorker(s.workers, w, p);
    var t := s.(workers := s.workers[w := p]);
    forall x
      ensures Located(t, x)
    {
      assert Located(s, x);
    }
  }

  /** A worker that ends leaves its slot to be accounted for. */
  lemma EndedFacts(c: Config, s: State, w: Task)
    requires Inv(c, s) && w in s.workers
    ensures OnePlace(Ended(s, w)) && InOrder(Ended(s, w))
    ensures s.permits + |Ended(s, w).workers| + s.lost == c.size - 1
  {
    OneWorkerLess(s.workers, w);
    forall x
      ensures Located(Ended(s, w), x)
    {
      assert Located(s, x);
    }
  }

  /** Adjusting the counters after a worker ended. */
  lemma SettledInv(c: Config, s: State, w: Task, permits: nat, lost: nat)
    requires Inv(c, s) && w in s.workers && permits + lost == s.permits + s.lost + 1
    ensures Inv(c, Ended(s, w).(permits := permits, lost := lost))
  {
    EndedFacts(c, s, w);
    var t := Ended(s, w).(permits := permits, lost := lost);
    forall x
      ensures Located(t, x)
    {
      assert Located(Ended(s, w), x);
    }
  }

  lemma TakeOverInv(c: Config, s: State, t: State, w: Task)
    requires Inv(c, s) && TakeOver(c, s, t, w)
    ensures Inv(c, t)
  {
    EndedFacts(c, s, w);
    var e := Ended(s, w);
    var next := s.buffer[0];
    assert s.buffer == [next] + s.buffer[1..];
    assert Located(e, next);
    OneMoreWorker(e.workers, next, FirstPhase(c));
    forall x
      ensures Located(t, x)
    {
      assert Located(e, x);
      if x in s.buffer && x != next {
        var k :| 0 <= k < |s.buffer| && s.buffer[k] == x;
        assert s.buffer[1..][k - 1] == x;
      }
    }
  }

  lemma AdvanceInv(c: Config, s: State, t: State, w: Task)
    requires Inv(c, s) && Advance(c, s, t, w)
    ensures Inv(c, t)
  {
    PhaseInv(c, s, w, Handling);
    PhaseInv(c, s, w, AfterHandling(c));
    PhaseInv(c, s, w, Replying);
    PhaseInv(c, s, w, Finished);
  }

  lemma EndInv(c: Config, s: State, t: State, w: Task)
    requires Inv(c, s) && (Die(s, t, w) || FindEmpty(c, s, t, w) || Release(s, t, w))
    ensures Inv(c, t)
  {
    SettledInv(c, s, w, s.permits, s.lost + 1);
    SettledInv(c, s, w, s.permits + 1, s.lost);
    PhaseInv(c, s, w, Releasing);
  }

  lemma WorkerInv(c: Config, s: State, t: State, e: Event)
    requires Inv(c, s) && Does(c, s, t, e) && !e.Arriving? && !e.Acquiring? && !e.Refusing? && !e.Appending?
    ensures Inv(c, t)
  {
    match e
    case Advancing(w) => AdvanceInv(c, s, t, w);
    case TakingOver(w) => TakeOverInv(c, s, t, w);
    case Dying(w) => EndInv(c, s, t, w);
    case FindingEmpty(w) => EndInv(c, s, t, w);
    case ReleasingSlot(w) => EndInv(c, s, t, w);
  }

  lemma StepInv(c: Config, s: State, t: State, e: Event)
    requires Inv(c, s) && Does(c, s, t, e)
    ensures Inv(c, t)
  {
    match e
    case Arriving(task) => ArriveInv(c, s, t, task);
    case Acquiring => AcquireInv(c, s, t);
    case Refusing => RefuseInv(c, s, t);
    case Appending => BufferedInv(c, s, s.delivery.task);
    case _ => WorkerInv(c, s, t, e);
  }

  /** Over every interleaving: slots are conserved, deliveries are in one place, and the buffer is in order. */
  lemma {:induction false} RunInv(c: Config, run: seq<State>, k: nat)
    requires Run(c, run) && k < |run|
    ensures Inv(c, run[k])
  {
    if k > 0 {
      RunInv(c, run, k - 1);
      assert Step(c, run[k - 1], run[k]);
      var e :| Does(c, run[k - 1], run[k], e);
      StepInv(c, run[k - 1], run[k], e);
    } else {
      assert Initial(c).workers.Keys == {};
    }
  }

  ghost function Handlers(s: State): set<Task> {
    set w | w in s.workers && s.workers[w] == Handling
  }

  /** So never more handlers run than there are slots. */
  lemma HandlersBounded(c: Config, run: seq<State>, k: nat)
    requires Run(c, run) && k < |run|
    ensures |Handlers(run[k])| + run[k].permits + run[k].lost <= c.size
  {
    RunInv(c, run, k);
    var s := run[k];
    assert Handlers(s) <= s.workers.Keys;
    var rest := s.workers.Keys - Handlers(s);
    assert s.workers.Keys == Handlers(s) + rest;
    assert |s.workers| == |s.workers.Keys|;
  }

  /** Tasks wait only while every slot is taken. */
  ghost predicate NoIdleSlot(s: State) {
    s.buffer != [] ==> s.permits == 0
  }

  lemma NoIdleStep(c: Config, s: State, t: State, e: Event)
    requires c.atomicDelivery && c.atomicExit && NoIdleSlot(s) && Does(c, s, t, e)
    requires !s.delivery.Refused? && forall w :: w in s.workers ==> s.workers[w] != Releasing
    ensures NoIdleSlot(t)
    ensures !t.delivery.Refused? && forall w :: w in t.workers ==> t.workers[w] != Releasing
  {
  }

  /** With both pairs uninterrupted no task ever waits beside a free slot. */
  lemma {:induction false} NoIdleRun(c: Config, run: seq<State>, k: nat)
    requires c.atomicDelivery && c.atomicExit && Run(c, run) && k < |run|
    ensures NoIdleSlot(run[k])
    ensures !run[k].delivery.Refused? && forall w :: w in run[k].workers ==> run[k].workers[w] != Releasing
  {
    if k > 0 {
      NoIdleRun(c, run, k - 1);
      assert Step(c, run[k - 1], run[k]);
      var e :| Does(c, run[k - 1], run[k], e);
      NoIdleStep(c, run[k - 1], run[k], e);
    }
  }

  ghost predicate Reachable(c: Config, s: State) {
    exists run: seq<State> :: Run(c, run) && run[|run| - 1] == s
  }

  lemma Reach(c: Config, s: State, t: State, e: Event)
    requires Reachable(c, s) && Does(c, s, t, e)
    ensures Reachable(c, t)
  {
    var run: seq<State> :| Run(c, run) && run[|run| - 1] == s;
    var longer := run + [t];
    forall k | 0 <= k < |longer| - 1
      ensures Step(c, longer[k], longer[k + 1])
    {
      if k < |run| - 1 {
        assert Step(c, run[k], run[k + 1]);
      }
    }
    assert Run(c, longer);
  }

  /** A first task has been handled by the only worker, and a second one arrives. */
  ghost function SecondArrives(p: Phase): State {
    State(0, Trying(1), [], map[0 := p], 0, {}, {0, 1}, [], [])
  }

  lemma SecondArrivesReachable(c: Config)
    requires c.size == 1
    ensures Reachable(c, SecondArrives(Finished))
  {
    assert Run(c, [Initial(c)]);
    var s1 := Initial(c).(delivery := Trying(0), arrived := {0});
    Reach(c, Initial(c), s1, Arriving(0));
    var s2 := State(0, Waiting, [], map[0 := FirstPhase(c)], 0, {}, {0}, [], []);
    Reach(c, s1, s2, Acquiring);
    AdvanceAlone(c, s2, FirstPhase(c));
    var s3 := s2.(workers := map[0 := Finished]);
    Reach(c, s3, SecondArrives(Finished), Arriving(1));
  }

  function StepsToGo(p: Phase): nat {
    match p
    case EarlyAck => 4
    case Handling => 3
    case LateAck => 2
    case Replying => 1
    case Finished => 0
    case Releasing => 0
  }

  /** The only worker gets on to its end. */
  lemma {:induction false} AdvanceAlone(c: Config, s: State, p: Phase)
    requires Reachable(c, s) && s.workers == map[0 := p] && !p.Releasing?
    ensures Reachable(c, s.(workers := map[0 := Finished]))
    decreases StepsToGo(p)
  {
    if p != Finished {
      var q := match p
        case EarlyAck => Handling
        case Handling => AfterHandling(c)
        case LateAck => Replying
        case Replying => Finished
        case Finished => Finished
        case Releasing => Finished;
      var t := s.(workers := map[0 := q]);
      assert s.workers[0 := q] == map[0 := q];
      Reach(c, s, t, Advancing(0));
      AdvanceAlone(c, t, q);
    } else {
      assert s == s.(workers := map[0 := Finished]);
    }
  }

  lemma NoneLeft(s: State, p: Phase)
    requires s.workers == map[0 := p] && s.done == {}
    ensures Ended(s, 0) == s.(workers := map[], done := {0})
  {
    assert s.workers - {0} == map[];
  }

  /** If buffering can be delayed: the refused task is buffered only after the slot has been released. */
  lemma DelayedBuffering(c: Config)
    requires c.size == 1 && !c.atomicDelivery
    ensures exists s :: Reachable(c, s) && !NoIdleSlot(s)
  {
    SecondArrivesReachable(c);
    var s0 := SecondArrives(Finished);
    var s1 := s0.(delivery := Refused(1));
    Reach(c, s0, s1, Refusing);
    var s2 := Released(s1, 0);
    NoneLeft(s1, Finished);
    if c.atomicExit {
      Reach(c, s1, s2, FindingEmpty(0));
    } else {
      var r := s1.(workers := map[0 := Releasing]);
      assert s1.workers[0 := Releasing] == map[0 := Releasing];
      Reach(c, s1, r, FindingEmpty(0));
      NoneLeft(r, Releasing);
      Reach(c, r, s2, ReleasingSlot(0));
    }
    Reach(c, s2, Buffered(s2, 1), Appending);
    assert !NoIdleSlot(Buffered(s2, 1));
  }

  /** If releasing can be delayed: the slot is released only after the refused task has been buffered. */
  lemma DelayedRelease(c: Config)
    requires c.size == 1 && c.atomicDelivery && !c.atomicExit
    ensures exists s :: Reachable(c, s) && !NoIdleSlot(s)
  {
    SecondArrivesReachable(c);
    var s0 := SecondArrives(Finished);
    var s1 := s0.(workers := map[0 := Releasing]);
    assert s0.workers[0 := Releasing] == map[0 := Releasing];
    Reach(c, s0, s1, FindingEmpty(0));
    var s2 := Buffered(s1, 1);
    Reach(c, s1, s2, Refusing);
    Reach(c, s2, Released(s2, 0), ReleasingSlot(0));
    assert !NoIdleSlot(Released(s2, 0));
  }

  /**
    No task ever waits beside a free slot if and only if a refused delivery is buffered without
    interruption and so is the last exit of a worker. Guarding one of the two is not enough.
  */
  lemma NoIdleSlotExactly(late: bool, atomicDelivery: bool, atomicExit: bool)
    ensures (forall n: nat, s :: Reachable(Config(n, late, atomicDelivery, atomicExit), s) ==> NoIdleSlot(s))
            <==> atomicDelivery && atomicExit
  {
    if atomicDelivery && atomicExit {
      forall n: nat, s | Reachable(Config(n, late, atomicDelivery, atomicExit), s)
        ensures NoIdleSlot(s)
      {
        var c := Config(n, late, atomicDelivery, atomicExit);
        var run: seq<State> :| Run(c, run) && run[|run| - 1] == s;
        NoIdleRun(c, run, |run| - 1);
      }
    } else if !atomicDelivery {
      DelayedBuffering(Config(1, late, atomicDelivery, atomicExit));
    } else {
      DelayedRelease(Config(1, late, atomicDelivery, atomicExit));
    }
  }

  // ---------- acknowledging ----------

  /** The worker for the task has been in this phase by `k`. */
  ghost predicate WasIn(run: seq<State>, k: nat, x: Task, p: Phase) {
    exists j :: 0 <= j <= k && IsIn(run, j, x, p)
  }

  ghost predicate IsIn(run: seq<State>, j: int, x: Task, p: Phase) {
    0 <= j < |run| && x in run[j].workers && run[j].workers[x] == p
  }

  /** It has acknowledged in the way that the consumer is set to: before handling the task, or after. */
  ghost predicate Acknowledged(c: Config, run: seq<State>, k: nat, x: Task) {
    if c.lateAck then WasIn(run, k, x, LateAck) else WasIn(run, k, x, EarlyAck)
  }

  /** What has come before a phase. */
  ghost predicate CameBefore(c: Config, run: seq<State>, k: nat, x: Task, p: Phase) {
    match p
    case EarlyAck => !c.lateAck
    case Handling => c.lateAck || WasIn(run, k, x, EarlyAck)
    case LateAck => c.lateAck && WasIn(run, k, x, Handling)
    case Replying => WasIn(run, k, x, Handling) && Acknowledged(c, run, k, x)
    case Finished => WasIn(run, k, x, Handling) && Acknowledged(c, run, k, x) && WasIn(run, k, x, Replying)
    case Releasing => WasIn(run, k, x, Handling) && Acknowledged(c, run, k, x) && WasIn(run, k, x, Replying)
  }

  lemma WasLater(run: seq<State>, k: nat, m: nat, x: Task, p: Phase)
    requires k <= m && WasIn(run, k, x, p)
    ensures WasIn(run, m, x, p)
  {
    var j :| 0 <= j <= k && IsIn(run, j, x, p);
    assert 0 <= j <= m && IsIn(run, j, x, p);
  }

  lemma CameBeforeLater(c: Config, run: seq<State>, k: nat, m: nat, x: Task, p: Phase)
    requires k <= m && CameBefore(c, run, k, x, p)
    ensures CameBefore(c, run, m, x, p)
  {
    forall q | WasIn(run, k, x, q) ensures WasIn(run, m, x, q) {
      WasLater(run, k, m, x, q);
    }
  }

  /** A worker begins with its first phase, or goes on from one to the next. */
  lemma PhaseStep(c: Config, s: State, t: State, x: Task)
    requires Step(c, s, t) && x in t.workers
    ensures || (x in s.workers && t.workers[x] == s.workers[x])
            || t.workers[x] == FirstPhase(c)
            || (x in s.workers && match t.workers[x]
                case EarlyAck => false
                case Handling => s.workers[x] == EarlyAck
                case LateAck => s.workers[x] == Handling && c.lateAck
                case Replying => s.workers[x] == LateAck || (s.workers[x] == Handling && !c.lateAck)
                case Finished => s.workers[x] == Replying
                case Releasing => s.workers[x] == Finished)
  {
  }

  /**
    In every run a task is acknowledged before it is handled, or after, as the consumer is set, and replied to
    after both; and a worker that has finished has done all three.
  */
  lemma {:induction false} AcknowledgedInOrder(c: Config, run: seq<State>, k: nat, x: Task)
    requires Run(c, run) && k < |run| && x in run[k].workers
    ensures CameBefore(c, run, k, x, run[k].workers[x])
  {
    if k > 0 {
      var s, t := run[k - 1], run[k];
      assert Step(c, s, t);
      PhaseStep(c, s, t, x);
      if x in s.workers {
        AcknowledgedInOrder(c, run, k - 1, x);
        CameBeforeLater(c, run, k - 1, k, x, s.workers[x]);
        assert IsIn(run, k - 1, x, s.workers[x]);
        assert WasIn(run, k, x, s.workers[x]);
      }
    }
  }

  /** A worker ends once it has finished, or dies acknowledging or replying; not by handling its task. */
  lemma WorkerEnds(c: Config, s: State, t: State, x: Task)
    requires Step(c, s, t) && x in s.workers && x !in t.workers
    ensures s.workers[x] != Handling
    ensures t.lost > s.lost <==> s.workers[x] != Finished && s.workers[x] != Releasing
  {
  }
}
