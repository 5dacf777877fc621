/**
  The queue of messages that other threads hand to the connection thread, which sends them and
  reconnects whenever the broker closes the connection.
*/
module PublishQueue {
  type Envelope = nat

  datatype Reply = Sent | Raised

  /**
    The connection thread opens a connection, which can take any number of attempts, registers the handlers,
    loops, drains the queue once more when the loop ends, and ends.
  */
  datatype Phase = Connecting | Registering | Looping | Draining | Ended

  datatype InFlight = Idle | Sending(e: Envelope)

  /**
    `waiting` are the envelopes whose caller waits for a reply; `replies` what each caller has been sent.
    `put` and `taken` record the queue's traffic.
  */
  datatype State = State(
    phase: Phase, closed: bool, queue: seq<Envelope>, flight: InFlight,
    completed: set<Envelope>, failed: set<Envelope>, dropped: set<Envelope>,
    scheduled: set<Envelope>, waiting: set<Envelope>, replies: map<Envelope, seq<Reply>>,
    put: seq<Envelope>, taken: seq<Envelope>)

  const INITIAL := State(Connecting, false, [], Idle, {}, {}, {}, {}, {}, map[], [], [])

  datatype Event =
    | Schedule(e: Envelope, wait: bool)
    | TakeNext
    | Succeed
    | LoseConnection
    | Raise(channelClosed: bool)
    | LoseIdle
    | ChannelClosedIdle
    | Crash
    | Opened
    | Registered
    | ConnectFails
    | Close
    | LeaveLoop
    | Drained

  /** What a caller is sent when its message has been dealt with. */
  function WithReply(s: State, e: Envelope, r: Reply): map<Envelope, seq<Reply>> {
    if e in s.waiting then s.replies[e := (if e in s.replies then s.replies[e] else []) + [r]] else s.replies
  }

  /** Where an error about a lost connection leads: from within the loop, to a new one. */
  function Reconnecting(s: State): State {
    s.(phase := if s.phase == Looping then Connecting else Ended)
  }

  /** Leaving the send loop without an error, with the closed flag set. */
  function Returned(s: State): State {
    s.(phase := if s.phase == Looping then Draining else Ended)
  }

  /** There is a connection, and the thread sends what is queued. */
  predicate Working(s: State) {
    s.phase == Looping || s.phase == Draining
  }

  predicate Step(s: State, t: State, event: Event) {
    match event
    // another thread schedules an envelope
    case Schedule(e, wait) =>
      e !in s.scheduled &&
      t == s.(queue := s.queue + [e], put := s.put + [e], scheduled := s.scheduled + {e},
              waiting := if wait then s.waiting + {e} else s.waiting)
    // the connection thread takes the first one
    case TakeNext =>
      Working(s) && s.flight == Idle && s.queue != [] &&
      t == s.(queue := s.queue[1..], flight := Sending(s.queue[0]), taken := s.taken + [s.queue[0]])
    // it could be sent
    case Succeed =>
      Working(s) && s.flight.Sending? &&
      t == s.(flight := Idle, completed := s.completed + {s.flight.e}, replies := WithReply(s, s.flight.e, Sent))
    // the connection is lost while sending: dropped if closed, else queued again
    case LoseConnection =>
      Working(s) && s.flight.Sending? &&
      t == if s.closed then Returned(s.(flight := Idle, dropped := s.dropped + {s.flight.e}))
           else Reconnecting(s.(flight := Idle, queue := s.queue + [s.flight.e], put := s.put + [s.flight.e]))
    // any other error is passed to the caller; only a closed channel lets the queue be drained
    case Raise(channelClosed) =>
      Working(s) && s.flight.Sending? &&
      t == s.(flight := Idle, failed := s.failed + {s.flight.e}, replies := WithReply(s, s.flight.e, Raised),
              phase := if s.phase == Looping && channelClosed then Draining else Ended)
    // the same while nothing is being sent
    case LoseIdle => s.phase == Looping && s.flight == Idle && t == Reconnecting(s)
    case ChannelClosedIdle => s.phase == Looping && s.flight == Idle && t == s.(phase := Draining)
    case Crash => s.phase == Looping && s.flight == Idle && t == s.(phase := Ended)
    // a connection is opened, and counts as open
    case Opened => s.phase == Connecting && t == s.(phase := Registering, closed := false)
    // its handlers are registered
    case Registered => s.phase == Registering && t == s.(phase := Looping)
    case ConnectFails => (s.phase == Connecting || s.phase == Registering) && t == s.(phase := Ended)
    case Close => t == s.(closed := true)
    case LeaveLoop => s.phase == Looping && s.closed && s.flight == Idle && t == s.(phase := Draining)
    case Drained => s.phase == Draining && s.flight == Idle && s.queue == [] && t == s.(phase := Ended)
  }

  ghost predicate Next(s: State, t: State) {
    exists event :: Step(s, t, event)
  }

  /** A run from any state. */
  ghost predicate Continues(run: seq<State>) {
    run != [] && forall k :: 0 <= k < |run| - 1 ==> Next(run[k], run[k + 1])
  }

  ghost predicate Run(run: seq<State>) {
    Continues(run) && run[0] == INITIAL
  }

  /** The envelope is in exactly one place if it was scheduled, and nowhere otherwise. */
  predicate Located(s: State, e: Envelope) {
    var q, f, c, x, d := e in s.queue, s.flight == Sending(e), e in s.completed, e in s.failed, e in s.dropped;
    && (e in s.scheduled <==> q || f || c || x || d)
    && !(q && (f || c || x || d)) && !(f && (c || x || d)) && !(c && (x || d)) && !(x && d)
  }

  /** A waiting caller has got one reply, telling what happened, once its envelope was sent or failed; else none. */
  predicate Answered(s: State, e: Envelope) {
    var got := if e in s.replies then s.replies[e] else [];
    got == if e !in s.waiting then []
           else if e in s.completed then [Sent]
           else if e in s.failed then [Raised]
           else []
  }

  ghost predicate DistinctQueue(q: seq<Envelope>) {
    forall i, j :: 0 <= i < j < |q| ==> q[i] != q[j]
  }

  ghost predicate Inv(s: State) {
    && (forall e :: Located(s, e)) && DistinctQueue(s.queue) && s.waiting <= s.scheduled
    && (forall e :: Answered(s, e))
    && (s.flight.Sending? ==> Working(s))
    && FirstInFirstOut(s)
  }

  /**
    What was taken, and then the queue, is what was put there, in order; and it is the last one taken that
    is being sent.
  */
  ghost predicate FirstInFirstOut(s: State) {
    && s.put == s.taken + s.queue
    && (s.flight.Sending? ==> s.taken != [] && s.taken[|s.taken| - 1] == s.flight.e)
  }

  lemma StepPlaces(s: State, t: State, event: Event, e: Envelope)
    requires Inv(s) && Step(s, t, event)
    ensures Located(t, e) && Answered(t, e)
  {
    assert Located(s, e) && Answered(s, e);
    if event.TakeNext? {
      assert s.queue == [s.queue[0]] + s.queue[1..];
      if e in s.queue && e != s.queue[0] {
        var k :| 0 <= k < |s.queue| && s.queue[k] == e;
        assert s.queue[1..][k - 1] == e;
      }
    }
    if s.flight.Sending? {
      assert Located(s, s.flight.e) && Answered(s, s.flight.e);
    }
  }

  lemma StepQueue(s: State, t: State, event: Event)
    requires Inv(s) && Step(s, t, event)
    ensures DistinctQueue(t.queue) && t.waiting <= t.scheduled && (t.flight.Sending? ==> Working(t))
    ensures FirstInFirstOut(t)
  {
    if s.flight.Sending? {
      assert Located(s, s.flight.e);
    }
    if event.Schedule? {
      assert Located(s, event.e);
    }
    if event.TakeNext? {
      assert s.queue == [s.queue[0]] + s.queue[1..];
    }
  }

  lemma StepInv(s: State, t: State, event: Event)
    requires Inv(s) && Step(s, t, event)
    ensures Inv(t)
  {
    StepQueue(s, t, event);
    forall e
      ensures Located(t, e) && Answered(t, e)
    {
      StepPlaces(s, t, event, e);
    }
  }

  /**
    Over any sequence of losses: each envelope is in one place, and each waiting caller is told exactly
    what became of it.
  */
  lemma {:induction false} RunInv(run: seq<State>, k: nat)
    requires Run(run) && k < |run|
    ensures Inv(run[k])
  {
    if k > 0 {
      RunInv(run, k - 1);
      assert Next(run[k - 1], run[k]);
      var event :| Step(run[k - 1], run[k], event);
      StepInv(run[k - 1], run[k], event);
    }
  }

  /** Envelopes are dropped only in steps taken while closed. */
  lemma {:induction false} NothingDroppedWhileOpen(run: seq<State>, k: nat)
    requires Run(run) && k < |run| && forall m :: 0 <= m < k ==> !run[m].closed
    ensures run[k].dropped == {}
  {
    if k > 0 {
      NothingDroppedWhileOpen(run, k - 1);
      assert Next(run[k - 1], run[k]);
    }
  }

  /** So before the connection is closed everything scheduled is queued, being sent, sent, or reported as failed. */
  lemma NothingLostWhileOpen(run: seq<State>, k: nat, e: Envelope)
    requires Run(run) && k < |run| && (forall m :: 0 <= m < k ==> !run[m].closed) && e in run[k].scheduled
    ensures e in run[k].queue || run[k].flight == Sending(e) || e in run[k].completed || e in run[k].failed
  {
    RunInv(run, k);
    NothingDroppedWhileOpen(run, k);
    assert Located(run[k], e);
  }

  /** The queue is first in, first out: what was put there was taken, or is still there, in the same order. */
  lemma SentInOrder(run: seq<State>, k: nat)
    requires Run(run) && k < |run|
    ensures run[k].put == run[k].taken + run[k].queue
    ensures run[k].flight.Sending? ==> run[k].taken != [] && run[k].taken[|run[k].taken| - 1] == run[k].flight.e
    ensures forall m :: 0 <= m <= k ==> run[m].put <= run[k].put && run[m].taken <= run[k].taken
    ensures forall e :: e in run[k].completed || e in run[k].failed || e in run[k].dropped ==> e in run[k].taken
  {
    RunInv(run, k);
    forall m | 0 <= m <= k ensures run[m].put <= run[k].put && run[m].taken <= run[k].taken {
      OnlyAppended(run, m, k);
    }
    SettledWereTaken(run, k);
  }

  lemma {:induction false} OnlyAppended(run: seq<State>, k: nat, m: nat)
    requires Run(run) && k <= m < |run|
    ensures run[k].put <= run[m].put && run[k].taken <= run[m].taken
    decreases m
  {
    if k < m {
      OnlyAppended(run, k, m - 1);
      assert Next(run[m - 1], run[m]);
    }
  }

  lemma {:induction false} SettledWereTaken(run: seq<State>, k: nat)
    requires Run(run) && k < |run|
    ensures forall e :: e in run[k].completed || e in run[k].failed || e in run[k].dropped ==> e in run[k].taken
  {
    if k > 0 {
      SettledWereTaken(run, k - 1);
      RunInv(run, k - 1);
      assert Next(run[k - 1], run[k]);
    }
  }

  /** The steps that put something into the queue: each envelope once when it is scheduled, and after a loss again. */
  lemma PutExactly(s: State, t: State, event: Event)
    requires Inv(s) && Step(s, t, event)
    ensures t.put == s.put +
      match event
      case Schedule(e, _) => [e]
      case LoseConnection => if s.closed then [] else [s.flight.e]
      case _ => []
  {
  }

  /** Fates are final: what was sent, failed or dropped stays so. */
  lemma {:induction false} FatesFinal(run: seq<State>, k: nat, m: nat)
    requires Run(run) && k <= m < |run|
    ensures run[k].completed <= run[m].completed && run[k].failed <= run[m].failed && run[k].dropped <= run[m].dropped
    ensures run[k].scheduled <= run[m].scheduled
    decreases m - k
  {
    if k < m {
      FatesFinal(run, k, m - 1);
      assert Next(run[m - 1], run[m]);
    }
  }

  /** If the thread ends by draining the queue, everything scheduled by then was sent, failed or dropped. */
  lemma DrainedIsSettled(run: seq<State>, k: nat, e: Envelope)
    requires Run(run) && k < |run| - 1 && Step(run[k], run[k + 1], Drained) && e in run[k].scheduled
    ensures e in run[k + 1].completed || e in run[k + 1].failed || e in run[k + 1].dropped
  {
    RunInv(run, k);
    assert Located(run[k], e);
  }

  /** The thread ends by draining the queue, or with all that was queued left behind, by one of these events. */
  lemma LeftBehind(s: State, t: State, event: Event)
    requires Inv(s) && Step(s, t, event) && s.phase != Ended
    ensures t.phase == Ended <==>
      match event
      case Drained | Crash | ConnectFails => true
      case Raise(channelClosed) => s.phase == Draining || !channelClosed
      case LoseConnection => s.phase == Draining
      case _ => false
    ensures t.phase == Ended ==>
      t.queue == s.queue + if event == LoseConnection && !s.closed then [s.flight.e] else []
    ensures event == Drained ==> s.queue == []
  {
  }

  /**
    The loop is left to drain the queue if the connection is closed, or the channel was; to connect again if the
    connection was lost and is not closed, or nothing was being sent; and for good after any other error.
  */
  lemma LeavesLoop(s: State, t: State, event: Event)
    requires Inv(s) && Step(s, t, event) && s.phase == Looping
    ensures t.phase ==
      match event
      case LeaveLoop | ChannelClosedIdle => Draining
      case LoseConnection => if s.closed then Draining else Connecting
      case LoseIdle => Connecting
      case Raise(channelClosed) => if channelClosed then Draining else Ended
      case Crash => Ended
      case _ => Looping
    ensures event == LeaveLoop ==> s.closed
    ensures event in {LeaveLoop, LoseIdle, ChannelClosedIdle, Crash} ==> s.flight == Idle
  {
  }

  /** Once the queue is being drained no connection is opened any more, whatever happens. */
  lemma {:induction false} NeverBack(run: seq<State>, k: nat, m: nat)
    requires Continues(run) && k <= m < |run| && (run[k].phase == Draining || run[k].phase == Ended)
    ensures run[m].phase == Draining || run[m].phase == Ended
    ensures forall j :: k <= j < m ==> !Step(run[j], run[j + 1], Opened)
    decreases m
  {
    if k < m {
      NeverBack(run, k, m - 1);
      assert Next(run[m - 1], run[m]);
      DrainingStep(run[m - 1], run[m]);
    }
  }

  lemma DrainingStep(s: State, t: State)
    requires Next(s, t) && (s.phase == Draining || s.phase == Ended)
    ensures (t.phase == Draining || t.phase == Ended) && !Step(s, t, Opened)
  {
  }

  lemma EndedStep(s: State, t: State)
    requires Inv(s) && Next(s, t) && s.phase == Ended
    ensures t.phase == Ended && t.replies == s.replies
    ensures t.completed == s.completed && t.failed == s.failed && t.dropped == s.dropped
    ensures (t.queue == s.queue && t.scheduled == s.scheduled) ||
      exists e :: e !in s.scheduled && t.queue == s.queue + [e] && t.scheduled == s.scheduled + {e}
  {
  }

  /** Once the thread has ended what is queued stays so, with all that is scheduled later, and nobody gets a reply. */
  lemma {:induction false} EndedKeeps(run: seq<State>, k: nat, m: nat)
    requires Run(run) && k <= m < |run| && run[k].phase == Ended
    ensures run[m].phase == Ended && run[k].queue <= run[m].queue && run[m].replies == run[k].replies
    ensures forall e :: e in run[m].queue[|run[k].queue|..] <==> e in run[m].scheduled - run[k].scheduled
    ensures run[m].completed == run[k].completed && run[m].failed == run[k].failed && run[m].dropped == run[k].dropped
    ensures run[k].scheduled <= run[m].scheduled
    decreases m
  {
    if k < m {
      EndedKeeps(run, k, m - 1);
      RunInv(run, m - 1);
      assert Next(run[m - 1], run[m]);
      EndedStep(run[m - 1], run[m]);
      var n, before, after := |run[k].queue|, run[m - 1], run[m];
      if after.queue != before.queue {
        var e :| e !in before.scheduled && after.queue == before.queue + [e] &&
          after.scheduled == before.scheduled + {e};
        assert after.queue[n..] == before.queue[n..] + [e];
      }
    }
  }

  // ---------- when a close takes effect ----------

  /** Only a newly opened connection undoes a close. */
  lemma CloseUndoneBy(s: State, t: State, event: Event)
    requires Step(s, t, event) && s.closed
    ensures !t.closed <==> event == Opened
  {
  }

  /** From `k` to `m` the connection is closed all the time. */
  ghost predicate ClosedFrom(run: seq<State>, k: nat, m: nat)
    requires k <= m < |run|
  {
    forall j :: k <= j <= m ==> run[j].closed
  }

  /** A close stays in effect exactly as long as no connection is opened after it. */
  lemma {:induction false} CloseStaysExactly(run: seq<State>, k: nat, m: nat)
    requires Continues(run) && k <= m < |run| && run[k].closed
    ensures ClosedFrom(run, k, m) <==> forall j :: k <= j < m ==> !Step(run[j], run[j + 1], Opened)
    decreases m
  {
    if k < m {
      CloseStaysExactly(run, k, m - 1);
      assert Next(run[m - 1], run[m]);
      var event :| Step(run[m - 1], run[m], event);
      if run[m - 1].closed {
        CloseUndoneBy(run[m - 1], run[m], event);
      }
    }
  }

  /** Whatever follows, the connection stays closed. */
  ghost predicate ClosedForGood(s: State) {
    forall run: seq<State>, m :: Continues(run) && run[0] == s && 0 <= m < |run| ==> run[m].closed
  }

  lemma {:induction false} ClosedOnce(run: seq<State>, m: nat)
    requires Continues(run) && m < |run| && run[0].closed && (run[0].phase == Draining || run[0].phase == Ended)
    ensures run[m].closed && (run[m].phase == Draining || run[m].phase == Ended)
  {
    if m > 0 {
      ClosedOnce(run, m - 1);
      assert Next(run[m - 1], run[m]);
    }
  }

  lemma Prepend(s: State, run: seq<State>)
    requires Continues(run) && Next(s, run[0])
    ensures Continues([s] + run)
  {
    var more := [s] + run;
    forall k | 0 <= k < |more| - 1 ensures Next(more[k], more[k + 1]) {
      if k > 0 {
        assert Next(run[k - 1], run[k]);
      }
    }
  }

  /** How a close is undone before the thread has left the loop. */
  lemma Reopening(s: State) returns (run: seq<State>)
    requires Inv(s) && s.phase != Draining && s.phase != Ended
    ensures Continues(run) && run[0] == s && !run[|run| - 1].closed
    decreases if s.phase == Connecting then 0 else StepsToDrain(s.phase), s.flight.Sending?
  {
    var t: State;
    match s.phase {
      case Connecting =>
        t := s.(phase := Registering, closed := false);
        assert Step(s, t, Opened);
        run := [t];
      case Registering =>
        t := s.(phase := Looping);
        assert Step(s, t, Registered);
        StepInv(s, t, Registered);
        run := Reopening(t);
      case Looping =>
        var event := if s.flight.Sending? then Succeed else LoseIdle;
        t := if s.flight == Idle then s.(phase := Connecting)
             else s.(flight := Idle, completed := s.completed +
               {s.flight.e}, replies := WithReply(s, s.flight.e, Sent));
        assert Step(s, t, event);
        StepInv(s, t, event);
        run := Reopening(t);
    }
    Prepend(s, run);
    run := [s] + run;
  }

  /** A close is final exactly if the thread has left its loop: until then a connection may yet be opened. */
  lemma FinalExactly(s: State)
    requires Inv(s) && s.closed
    ensures ClosedForGood(s) <==> s.phase == Draining || s.phase == Ended
  {
    if s.phase == Draining || s.phase == Ended {
      forall run: seq<State>, m | Continues(run) && run[0] == s && 0 <= m < |run| ensures run[m].closed {
        ClosedOnce(run, m);
      }
    } else {
      var run := Reopening(s);
      assert 0 <= |run| - 1 < |run|;
    }
  }

  /** The work of the connection thread until it ends, as long as the connection stays closed. */
  ghost function Work(s: State): nat {
    if s.phase == Ended then 0
    else 2 * |s.queue| + (if s.flight.Sending? then 1 else 0) + StepsToDrain(s.phase)
  }

  /** The steps to the draining of the queue, and the last one. */
  function StepsToDrain(phase: Phase): nat {
    match phase
    case Registering => 3
    case Looping => 2
    case _ => 1
  }

  /** A step of the connection thread itself. */
  predicate ByThread(event: Event) {
    !event.Schedule? && !event.Close?
  }

  ghost predicate ThreadMoves(s: State, t: State) {
    exists event :: ByThread(event) && Step(s, t, event)
  }

  /** While closed, each step of the thread brings it nearer to its end. */
  lemma ClosedStepWorks(s: State, t: State, event: Event)
    requires Step(s, t, event) && s.closed && t.closed && s.phase != Ended
    ensures ByThread(event) ==> Work(t) < Work(s)
    ensures event == Close ==> Work(t) == Work(s)
    ensures event.Schedule? ==> Work(t) == Work(s) + 2 && |t.scheduled| == |s.scheduled| + 1
    ensures |t.scheduled| >= |s.scheduled|
  {
    if event.Schedule? {
      assert t.scheduled == s.scheduled + {event.e};
    }
  }

  /** And it is never stuck; but while it opens a connection it can only forget the close or end in failure. */
  lemma ClosedCanMove(s: State)
    requires Inv(s) && s.closed && s.phase != Ended
    ensures exists t :: ThreadMoves(s, t) && t.closed
    ensures s.phase == Connecting ==> forall t :: ThreadMoves(s, t) ==> t.phase == Ended || !t.closed
  {
    if s.flight.Sending? {
      var replies := WithReply(s, s.flight.e, Sent);
      var t := s.(flight := Idle, completed := s.completed + {s.flight.e}, replies := replies);
      assert Step(s, t, Succeed);
    } else if s.phase == Connecting {
      assert Step(s, s.(phase := Ended), ConnectFails);
    } else if s.phase == Registering {
      assert Step(s, s.(phase := Looping), Registered);
    } else if s.phase == Looping {
      assert Step(s, s.(phase := Draining), LeaveLoop);
    } else if s.queue == [] {
      assert Step(s, s.(phase := Ended), Drained);
    } else {
      assert Step(s, s.(queue := s.queue[1..], flight := Sending(s.queue[0]), taken := s.taken + [s.queue[0]]),
        TakeNext);
    }
  }

  ghost function Moved(s: State, t: State): nat {
    if ThreadMoves(s, t) then 1 else 0
  }

  /** A step costs the thread at least one unit of work; a newly scheduled envelope adds two. */
  ghost predicate Bounded(moved: int, s: State, t: State) {
    |t.scheduled| >= |s.scheduled| && moved + Work(t) <= Work(s) + 2 * (|t.scheduled| - |s.scheduled|)
  }

  lemma StepBounded(s: State, t: State)
    requires Next(s, t) && s.closed && t.closed && s.phase != Ended
    ensures Bounded(Moved(s, t), s, t)
  {
    var event :| Step(s, t, event);
    ClosedStepWorks(s, t, event);
    if ThreadMoves(s, t) {
      var move :| ByThread(move) && Step(s, t, move);
      ClosedStepWorks(s, t, move);
    }
  }

  lemma BoundedAdds(a: int, b: int, r: State, s: State, t: State)
    requires Bounded(a, r, s) && Bounded(b, s, t)
    ensures Bounded(a + b, r, t)
  {
  }

  /** How many of the steps from `k` to `m` the thread made. */
  ghost function Moves(run: seq<State>, k: nat, m: nat): nat
    requires k <= m < |run|
    decreases m
  {
    if k == m then 0 else Moves(run, k, m - 1) + Moved(run[m - 1], run[m])
  }

  ghost predicate BoundedAt(run: seq<State>, j: int) {
    0 <= j < |run| - 1 && Bounded(Moved(run[j], run[j + 1]), run[j], run[j + 1])
  }

  lemma {:induction false} BoundedSum(run: seq<State>, k: nat, m: nat)
    requires k <= m < |run| && forall j :: k <= j < m ==> BoundedAt(run, j)
    ensures Bounded(Moves(run, k, m), run[k], run[m])
    decreases m
  {
    if k < m {
      BoundedSum(run, k, m - 1);
      assert BoundedAt(run, m - 1);
      BoundedAdds(Moves(run, k, m - 1), Moved(run[m - 1], run[m]), run[k], run[m - 1], run[m]);
    }
  }

  /**
    So whoever closes the connection and joins its thread waits for a bounded number of the thread's
    steps, two more for each envelope scheduled meanwhile, as long as the close is not undone.
  */
  lemma JoinIsBounded(run: seq<State>, k: nat, m: nat)
    requires Run(run) && k <= m < |run| && ClosedFrom(run, k, m)
    requires forall j :: k <= j < m ==> run[j].phase != Ended
    ensures |run[m].scheduled| >= |run[k].scheduled|
    ensures Moves(run, k, m) + Work(run[m]) <= Work(run[k]) + 2 * (|run[m].scheduled| - |run[k].scheduled|)
  {
    forall j | k <= j < m ensures BoundedAt(run, j) {
      assert Next(run[j], run[j + 1]);
      StepBounded(run[j], run[j + 1]);
    }
    BoundedSum(run, k, m);
  }

  // ---------- runs in which a close is undone ----------

  /** Looping, with an envelope queued for which a caller waits. */
  const QUEUED := State(Looping, false, [0], Idle, {}, {}, {}, {0}, {0}, map[], [0], [])

  /** The same after its connection has been lost once. */
  const REQUEUED := QUEUED.(put := [0, 0], taken := [0])

  /** The thread loses its connection before it sends anything, opens another one, and so on. */
  ghost function Losing(start: State, n: nat): State {
    start.(phase := if n % 3 == 0 then Looping else if n % 3 == 1 then Connecting else Registering)
  }

  /** A close before the first connection, which is then opened. */
  const EARLY: seq<State> := [
    INITIAL,
    INITIAL.(closed := true),
    INITIAL.(phase := Registering),
    INITIAL.(phase := Looping)]

  /** An envelope whose connection is lost while it is sent, and a close while another one is opened. */
  const LATE: seq<State> := [
    INITIAL,
    INITIAL.(phase := Registering),
    INITIAL.(phase := Looping),
    QUEUED,
    QUEUED.(queue := [], flight := Sending(0), taken := [0]),
    REQUEUED.(phase := Connecting),
    REQUEUED.(phase := Connecting, closed := true),
    REQUEUED.(phase := Registering)]

  ghost function UndoneRun(start: seq<State>, looping: State, n: nat): seq<State> {
    start + seq(n, i requires i >= 0 => Losing(looping, i))
  }

  ghost predicate ReadyToLose(start: seq<State>, looping: State) {
    Run(start) && Next(start[|start| - 1], looping) && looping in {QUEUED, REQUEUED}
  }

  lemma EarlyStarts()
    ensures ReadyToLose(EARLY, QUEUED) && Step(EARLY[0], EARLY[1], Close) && Step(EARLY[1], EARLY[2], Opened)
  {
    var run := EARLY;
    assert Step(run[0], run[1], Close) && Step(run[1], run[2], Opened) && Step(run[2], run[3], Registered);
    forall k | 0 <= k < |run| - 1 ensures Next(run[k], run[k + 1]) {
      assert k == 0 || k == 1 || k == 2;
    }
    assert Step(run[3], QUEUED, Schedule(0, true));
  }

  lemma OneMoreStep(run: seq<State>, n: nat, event: Event)
    requires 0 < n < |run| && Run(run[..n]) && Step(run[n - 1], run[n], event)
    ensures Run(run[..n + 1])
  {
    var before, after := run[..n], run[..n + 1];
    forall k | 0 <= k < |after| - 1 ensures Next(after[k], after[k + 1]) {
      assert k < n - 1 ==> Next(before[k], before[k + 1]);
    }
  }

  /** Up to the loss. */
  lemma LateLoses()
    ensures Run(LATE[..6]) && Step(LATE[4], LATE[5], LoseConnection)
  {
    assert Run(LATE[..1]);
    OneMoreStep(LATE, 1, Opened);
    OneMoreStep(LATE, 2, Registered);
    OneMoreStep(LATE, 3, Schedule(0, true));
    OneMoreStep(LATE, 4, TakeNext);
    OneMoreStep(LATE, 5, LoseConnection);
  }

  lemma LateStarts()
    ensures ReadyToLose(LATE, REQUEUED)
    ensures Step(LATE[4], LATE[5], LoseConnection) && Step(LATE[5], LATE[6], Close) && Step(LATE[6], LATE[7], Opened)
  {
    LateLoses();
    OneMoreStep(LATE, 6, Close);
    OneMoreStep(LATE, 7, Opened);
    assert LATE[..8] == LATE;
    assert Step(LATE[7], REQUEUED, Registered);
  }

  lemma LosingStep(looping: State, i: nat)
    requires looping in {QUEUED, REQUEUED}
    ensures Next(Losing(looping, i), Losing(looping, i + 1))
  {
    var event := if i % 3 == 0 then LoseIdle else if i % 3 == 1 then Opened else Registered;
    assert Step(Losing(looping, i), Losing(looping, i + 1), event);
  }

  lemma GoesOn(start: seq<State>, looping: State, n: nat)
    requires ReadyToLose(start, looping)
    ensures Run(UndoneRun(start, looping, n))
  {
    var run, first := UndoneRun(start, looping, n), |start|;
    forall k | 0 <= k < |run| - 1 ensures Next(run[k], run[k + 1]) {
      if k >= first {
        LosingStep(looping, k - first);
      } else if k < first - 1 {
        assert Next(start[k], start[k + 1]);
      }
    }
  }

  /** The run goes on without ending, and the caller waits for a reply to its envelope. */
  ghost predicate Unanswered(s: State) {
    !s.closed && s.phase != Ended && 0 in s.waiting && s.replies == map[]
  }

  /**
    Otherwise it can wait for ever: a close before the first connection, or during the reconnection after a
    loss, is undone, and then the thread goes on for as long as one likes, and so does the caller's wait.
  */
  lemma CloseForgotten(n: nat)
    ensures var run := UndoneRun(EARLY, QUEUED, n);
      Run(run) && Step(EARLY[0], EARLY[1], Close) && forall m :: |EARLY| <= m < |EARLY| + n ==> Unanswered(run[m])
    ensures var run := UndoneRun(LATE, REQUEUED, n);
      Run(run) && Step(LATE[4], LATE[5], LoseConnection) && Step(LATE[5], LATE[6], Close) &&
      forall m :: |LATE| <= m < |LATE| + n ==> Unanswered(run[m])
  {
    EarlyStarts();
    LateStarts();
    GoesOn(EARLY, QUEUED, n);
    GoesOn(LATE, REQUEUED, n);
  }
}
