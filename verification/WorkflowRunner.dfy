/**
  Running a workflow remotely: the parent thread waits for the child thread that executes the workflow
  and polls the execution's status for requests to cancel it.
*/
module WorkflowRunner {

  /** The module-level flags through which a workflow learns that it should stop. */
  class WorkflowApi {
    var cancelRequest: bool
    var killRequest: bool

    ghost predicate Valid()
      reads this
    {
      killRequest ==> cancelRequest
    }

    constructor ()
      ensures Valid() && !cancelRequest && !killRequest
    {
      cancelRequest, killRequest := false, false;
    }

    method SetCancelRequest()
      requires Valid()
      modifies this
      ensures Valid() && cancelRequest && killRequest == old(killRequest)
    {
      cancelRequest := true;
    }

    method SetKillRequest()
      requires Valid()
      modifies this
      ensures Valid() && cancelRequest && killRequest
    {
      cancelRequest := true;
      killRequest := true;
    }

    method HasCancelRequest() returns (r: bool)
      requires Valid()
      ensures r == cancelRequest
    {
      r := cancelRequest || killRequest;
    }
  }

  /** The statuses of the execution in storage that matter here. */
  datatype Status = Running | Cancelling | ForceCancelling | KillCancelling

  /** What the child leaves in the queue: its result, which may be that it was cancelled, or an error. */
  datatype Message = Result(cancelled: bool) | Error

  datatype Report = STARTED | TERMINATED | FAILED | CANCELLED

  /**
    Where the parent is. `Seen` is a poll that found a status; `flagged` counts the flag assignments
    made for it so far, and `killing` tells that it is in the middle of setting the kill flag.
  */
  datatype Parent =
    | Starting
    | Waiting
    | Polling
    | Seen(status: Status, flagged: nat)
    | Decided(cancelled: bool)
    | Failing
    | Over

  datatype Child = NotStarted | Executing | Finished

  datatype State = State(
    parent: Parent, child: Child, queue: seq<Message>, sent: seq<Message>, status: Status,
    cancelRequest: bool, killRequest: bool, reports: seq<Report>)

  const INITIAL := State(Starting, NotStarted, [], [], Running, false, false, [])

  datatype Event =
    | Start
    | StartRefused
    | Finish(m: Message)
    | Receive
    | TimeOut
    | Poll
    | SkipPoll
    | PollFails
    | Flag
    | Act
    | ReportResult
    | ReportFailure
    | StatusChanges(status: Status)

  /**
    The flag assignments that a seen status calls for: cancel once for a plain request; for a kill,
    cancel, cancel and kill.
  */
  function FlagsDue(status: Status): nat {
    match status
    case Running => 0
    case Cancelling => 1
    case ForceCancelling => 1
    case KillCancelling => 3
  }

  predicate Step(s: State, t: State, event: Event) {
    match event
    case Start => s.parent == Starting &&
      t == s.(parent := Waiting, child := Executing, reports := s.reports + [STARTED])
    case StartRefused => s.parent == Starting && t == s.(parent := Over, reports := s.reports + [CANCELLED])
    // the child ends, with or without having noticed a request to cancel
    case Finish(m) => s.child == Executing && t == s.(child := Finished, queue := s.queue + [m], sent := s.sent + [m])
    case Receive =>
      s.parent == Waiting && s.queue != [] &&
      t == s.(queue := s.queue[1..], parent := if s.queue[0].Error? then Failing else Decided(s.queue[0].cancelled))
    case TimeOut => s.parent == Waiting && s.queue == [] && t == s.(parent := Polling)
    case Poll => s.parent == Polling && t == s.(parent := Seen(s.status, 0))
    // the workflow that restores a snapshot does not poll
    case SkipPoll => s.parent == Polling && t == s.(parent := Waiting)
    case PollFails => s.parent == Polling && t == s.(parent := Failing)
    case Flag =>
      s.parent.Seen? && s.parent.flagged < FlagsDue(s.parent.status) &&
      t == s.(parent := s.parent.(flagged := s.parent.flagged + 1),
              cancelRequest := s.cancelRequest || s.parent.flagged < 2,
              killRequest := s.killRequest || s.parent.flagged == 2)
    case Act =>
      s.parent.Seen? && s.parent.flagged == FlagsDue(s.parent.status) &&
      t == s.(parent :=
        if s.parent.status.ForceCancelling? || s.parent.status.KillCancelling? then Decided(true) else Waiting)
    case ReportResult =>
      s.parent.Decided? &&
        t == s.(parent := Over, reports := s.reports + [if s.parent.cancelled then CANCELLED else TERMINATED])
    case ReportFailure => s.parent == Failing && t == s.(parent := Over, reports := s.reports + [FAILED])
    case StatusChanges(status) => t == s.(status := status)
  }

  ghost predicate Next(s: State, t: State) {
    exists event :: Step(s, t, event)
  }

  ghost predicate Run(run: seq<State>) {
    run != [] && run[0] == INITIAL && forall k :: 0 <= k < |run| - 1 ==> Next(run[k], run[k + 1])
  }

  predicate IsFinal(r: Report) {
    r != STARTED
  }

  /** The reports so far: nothing, a start, or one final report after a start that was not refused. */
  predicate ReportsOk(s: State) {
    match s.parent
    case Starting => s.reports == []
    case Over =>
      || s.reports == [CANCELLED]
      || (|s.reports| == 2 && s.reports[0] == STARTED && IsFinal(s.reports[1]))
    case _ => s.reports == [STARTED]
  }

  /** The child has sent at most one message, of which the parent has received the first or none. */
  predicate MessagesOk(s: State) {
    && |s.sent| <= 1 && |s.queue| <= |s.sent| && (s.queue != [] ==> s.queue == s.sent)
    && (s.child == Finished <==> s.sent != [])
    && (s.parent == Starting ==> s.child == NotStarted)
  }

  /** A decision for success can only come from the child's own result. */
  predicate DecisionOk(s: State) {
    && (s.parent == Decided(false) ==> s.sent == [Result(false)])
    && (TERMINATED in s.reports ==> s.sent == [Result(false)])
  }

  predicate FlagsOk(s: State) {
    && (s.killRequest ==> s.cancelRequest)
    && (s.parent.Seen? && s.parent.flagged > 0 ==> s.cancelRequest)
    && (s.parent.Seen? ==> s.parent.flagged <= FlagsDue(s.parent.status))
  }

  predicate Inv(s: State) {
    ReportsOk(s) && MessagesOk(s) && DecisionOk(s) && FlagsOk(s)
  }

  lemma StepReports(s: State, t: State, event: Event)
    requires Inv(s) && Step(s, t, event)
    ensures ReportsOk(t)
  {
  }

  lemma StepMessages(s: State, t: State, event: Event)
    requires Inv(s) && Step(s, t, event)
    ensures MessagesOk(t) && DecisionOk(t)
  {
    if event.Receive? {
      assert s.sent == s.queue == [s.queue[0]];
    }
  }

  lemma {:induction false} RunInv(run: seq<State>, k: nat)
    requires Run(run) && k < |run|
    ensures Inv(run[k])
  {
    if k > 0 {
      RunInv(run, k - 1);
      assert Next(run[k - 1], run[k]);
      var event :| Step(run[k - 1], run[k], event);
      StepReports(run[k - 1], run[k], event);
      StepMessages(run[k - 1], run[k], event);
    }
  }

  /** Exactly one of TERMINATED, FAILED and CANCELLED is reported, as the last report, when the run is over. */
  lemma OneFinalReport(run: seq<State>, k: nat)
    requires Run(run) && k < |run|
    ensures var reports := run[k].reports;
            if run[k].parent == Over
            then reports != [] && IsFinal(reports[|reports| - 1]) &&
              forall m :: 0 <= m < |reports| - 1 ==> !IsFinal(reports[m])
            else forall m :: 0 <= m < |reports| ==> !IsFinal(reports[m])
  {
    RunInv(run, k);
  }

  /** Success is reported only if the child returned a result that is not the cancelled one. */
  lemma TerminatedMeansResult(run: seq<State>, k: nat)
    requires Run(run) && k < |run| && TERMINATED in run[k].reports
    ensures run[k].child == Finished && run[k].sent == [Result(false)]
  {
    RunInv(run, k);
  }

  /** A kill request is always also a cancel request. */
  lemma KillImpliesCancel(run: seq<State>, k: nat)
    requires Run(run) && k < |run| && run[k].killRequest
    ensures run[k].cancelRequest
  {
    RunInv(run, k);
  }

  /** Neither flag is ever cleared, and no report is ever taken back. */
  lemma {:induction false} Monotone(run: seq<State>, k: nat, m: nat)
    requires Run(run) && k <= m < |run|
    ensures run[k].cancelRequest ==> run[m].cancelRequest
    ensures run[k].killRequest ==> run[m].killRequest
    ensures run[k].reports <= run[m].reports
    decreases m - k
  {
    if k < m {
      Monotone(run, k, m - 1);
      assert Next(run[m - 1], run[m]);
    }
  }

  /** Only plain requests to cancel, and no message from the child or failing poll. */
  ghost predicate OnlyPlainRequests(run: seq<State>) {
    && (forall k :: 0 <= k < |run| ==> run[k].status == Running || run[k].status == Cancelling)
    && (forall k :: 0 <= k < |run| ==> run[k].child != Finished)
    && (forall k :: 0 <= k < |run| - 1 ==> !Step(run[k], run[k + 1], PollFails))
    && (forall k :: 0 <= k < |run| - 1 ==> !Step(run[k], run[k + 1], StartRefused))
  }

  /** Then the parent keeps waiting: a plain request to cancel never ends its loop. */
  lemma {:induction false} PlainRequestsKeepWaiting(run: seq<State>, k: nat)
    requires Run(run) && k < |run| && OnlyPlainRequests(run)
    ensures match run[k].parent
            case Starting => true
            case Waiting => true
            case Polling => true
            case Seen(status, _) => status == Running || status == Cancelling
            case _ => false
    ensures run[k].queue == []
  {
    if k > 0 {
      PlainRequestsKeepWaiting(run, k - 1);
      RunInv(run, k);
      assert Next(run[k - 1], run[k]);
    }
  }

  /**
    CANCELLED is reported only for a reason: a refused start, a cancelled result, or a forced request
    that was seen.
  */
  ghost predicate Cause(run: seq<State>, k: nat) {
    && k < |run| - 1
    && (|| Step(run[k], run[k + 1], StartRefused)
        || (Step(run[k], run[k + 1], Receive) && run[k].queue[0] == Result(true))
        || (Step(run[k], run[k + 1], Act) &&
          (run[k].parent.status == ForceCancelling || run[k].parent.status == KillCancelling)))
  }

  lemma {:induction false} CancelledHasCause(run: seq<State>, k: nat)
    requires Run(run) && k < |run|
    requires run[k].parent == Decided(true) || CANCELLED in run[k].reports
    ensures exists m :: 0 <= m < k && Cause(run, m)
  {
    assert k > 0;
    RunInv(run, k - 1);
    assert Next(run[k - 1], run[k]);
    var event :| Step(run[k - 1], run[k], event);
    if run[k - 1].parent == Decided(true) || CANCELLED in run[k - 1].reports {
      CancelledHasCause(run, k - 1);
    } else {
      StepHasCause(run, k - 1, event);
    }
  }

  lemma StepHasCause(run: seq<State>, k: nat, event: Event)
    requires k < |run| - 1 && Step(run[k], run[k + 1], event)
    requires run[k].parent != Decided(true) && CANCELLED !in run[k].reports
    requires run[k + 1].parent == Decided(true) || CANCELLED in run[k + 1].reports
    ensures Cause(run, k)
  {
  }

  // ---------- what is reported ----------

  /** The parent receives this message of the child. */
  ghost predicate Receives(run: seq<State>, k: int, m: Message) {
    && 0 <= k < |run| - 1 && run[k].parent == Waiting
    && run[k].queue != [] && run[k].queue[0] == m && run[k + 1].queue == run[k].queue[1..]
  }

  /** The parent has dealt with a status that makes it stop at once. */
  ghost predicate SeesForce(run: seq<State>, k: int) {
    && 0 <= k < |run| - 1 && run[k].parent.Seen? && !run[k + 1].parent.Seen?
    && (run[k].parent.status == ForceCancelling || run[k].parent.status == KillCancelling)
  }

  ghost predicate StartFails(run: seq<State>, k: int) {
    0 <= k < |run| - 1 && run[k].parent == Starting && run[k + 1].parent == Over
  }

  ghost predicate PollingFails(run: seq<State>, k: int) {
    0 <= k < |run| - 1 && run[k].parent == Polling && run[k + 1].parent == Failing
  }

  ghost predicate Received(run: seq<State>, k: nat, m: Message) {
    exists j :: 0 <= j < k && Receives(run, j, m)
  }

  ghost predicate SawForce(run: seq<State>, k: nat) {
    exists j :: 0 <= j < k && SeesForce(run, j)
  }

  ghost predicate StartFailed(run: seq<State>, k: nat) {
    exists j :: 0 <= j < k && StartFails(run, j)
  }

  ghost predicate PollFailed(run: seq<State>, k: nat) {
    exists j :: 0 <= j < k && PollingFails(run, j)
  }

  /** What has happened by `k`: a result, an error, a cancellation, and a refused start. */
  ghost predicate Happened(run: seq<State>, k: nat, success: bool, error: bool, cancelled: bool, refused: bool) {
    && (Received(run, k, Result(false)) <==> success)
    && (Received(run, k, Error) || PollFailed(run, k) <==> error)
    && (Received(run, k, Result(true)) || SawForce(run, k) <==> cancelled)
    && (StartFailed(run, k) <==> refused)
  }

  /** TERMINATED, FAILED and CANCELLED each stand for what has happened. */
  ghost predicate ReportedAs(run: seq<State>, k: nat)
    requires k < |run|
  {
    var reports := run[k].reports;
    && (reports == [STARTED, TERMINATED] || reports == [STARTED, FAILED] || reports == [STARTED, CANCELLED]
      || reports == [CANCELLED])
    && Happened(run, k, reports == [STARTED, TERMINATED], reports == [STARTED, FAILED],
      reports == [STARTED, CANCELLED], reports == [CANCELLED])
  }

  /** What the parent goes by is what has happened. */
  ghost predicate GoesBy(run: seq<State>, k: nat)
    requires k < |run|
  {
    match run[k].parent
    case Decided(cancelled) => Happened(run, k, !cancelled, false, cancelled, false)
    case Failing => Happened(run, k, false, true, false, false)
    case Over => ReportedAs(run, k)
    case _ => Happened(run, k, false, false, false, false)
  }

  lemma OneStepLater(run: seq<State>, k: nat)
    ensures forall m :: Received(run, k + 1, m) <==> Received(run, k, m) || Receives(run, k, m)
    ensures SawForce(run, k + 1) <==> SawForce(run, k) || SeesForce(run, k)
    ensures StartFailed(run, k + 1) <==> StartFailed(run, k) || StartFails(run, k)
    ensures PollFailed(run, k + 1) <==> PollFailed(run, k) || PollingFails(run, k)
  {
  }

  /** What happens in one step. */
  lemma StepHappens(run: seq<State>, k: nat, event: Event)
    requires k < |run| - 1 && Inv(run[k]) && Step(run[k], run[k + 1], event)
    ensures forall m :: Receives(run, k, m) <==> event == Receive && run[k].queue[0] == m
    ensures SeesForce(run, k) <==> event == Act && run[k + 1].parent == Decided(true)
    ensures StartFails(run, k) <==> event == StartRefused
    ensures PollingFails(run, k) <==> event == PollFails
  {
    forall m ensures Receives(run, k, m) <==> event == Receive && run[k].queue[0] == m {
      assert event != Receive ==> |run[k + 1].queue| >= |run[k].queue|;
    }
  }

  lemma GoesByStep(run: seq<State>, k: nat, event: Event)
    requires k < |run| - 1 && Inv(run[k]) && GoesBy(run, k) && Step(run[k], run[k + 1], event)
    ensures GoesBy(run, k + 1)
  {
    StepHappens(run, k, event);
    OneStepLater(run, k);
    var p := run[k].parent;
    if event == Receive {
      assert run[k].queue[0] == Error || run[k].queue[0] == Result(run[k].queue[0].cancelled);
    } else if event == ReportResult || event == ReportFailure || event == StartRefused {
      assert run[k + 1].reports[|run[k].reports|] != STARTED;
    }
  }

  lemma {:induction false} RunGoesBy(run: seq<State>, k: nat)
    requires Run(run) && k < |run|
    ensures GoesBy(run, k)
  {
    if k > 0 {
      RunGoesBy(run, k - 1);
      RunInv(run, k - 1);
      assert Next(run[k - 1], run[k]);
      var event :| Step(run[k - 1], run[k], event);
      GoesByStep(run, k - 1, event);
    }
  }

  /**
    When a run is over, success is reported exactly if the child's result was received, failure exactly if
    its error was, or a poll failed, and cancellation exactly if the cancelled result was, or a forced request
    was seen, or the start was refused.
  */
  lemma FinalReportExactly(run: seq<State>, k: nat)
    requires Run(run) && k < |run| && run[k].parent == Over
    ensures run[k].reports == [STARTED, TERMINATED] <==> Received(run, k, Result(false))
    ensures run[k].reports == [STARTED, FAILED] <==> Received(run, k, Error) || PollFailed(run, k)
    ensures run[k].reports == [STARTED, CANCELLED] <==> Received(run, k, Result(true)) || SawForce(run, k)
    ensures run[k].reports == [CANCELLED] <==> StartFailed(run, k)
    ensures TERMINATED in run[k].reports || FAILED in run[k].reports || CANCELLED in run[k].reports
  {
    RunGoesBy(run, k);
    var reports := run[k].reports;
    assert reports[|reports| - 1] in reports;
  }

  /** FAILED is reported only for such a reason. */
  lemma FailedHasCause(run: seq<State>, k: nat)
    requires Run(run) && k < |run| && FAILED in run[k].reports
    ensures Received(run, k, Error) || PollFailed(run, k)
  {
    RunInv(run, k);
    RunGoesBy(run, k);
  }

  /** The parent waits with the message in the queue. */
  ghost predicate WaitsWith(s: State, message: Message) {
    s.parent == Waiting && s.queue == [message]
  }

  lemma MessageStays(run: seq<State>, k: nat, message: Message)
    requires k < |run| - 1 && Inv(run[k]) && Next(run[k], run[k + 1]) && WaitsWith(run[k], message)
    ensures WaitsWith(run[k + 1], message) || Receives(run, k, message)
  {
  }

  lemma StillReceived(run: seq<State>, k: nat, n: nat, message: Message)
    requires n == k + 1 && (Received(run, k, message) || Receives(run, k, message))
    ensures Received(run, n, message)
  {
  }

  /** A message that is there while the parent waits is what it goes on with: it does not poll before that. */
  lemma {:induction false} MessageIsNext(run: seq<State>, k: nat, m: nat, message: Message)
    requires Run(run) && k <= m < |run| && WaitsWith(run[k], message)
    ensures WaitsWith(run[m], message) || Received(run, m, message)
    decreases m
  {
    if k < m {
      MessageIsNext(run, k, m - 1, message);
      RunInv(run, m - 1);
      assert Next(run[m - 1], run[m]);
      MessageStep(run, m - 1, m, message);
    }
  }

  lemma MessageStep(run: seq<State>, k: nat, n: nat, message: Message)
    requires n == k + 1 < |run| && Inv(run[k]) && Next(run[k], run[n])
    requires WaitsWith(run[k], message) || Received(run, k, message)
    ensures WaitsWith(run[n], message) || Received(run, n, message)
  {
    if WaitsWith(run[k], message) {
      MessageStays(run, k, message);
    }
    if Received(run, k, message) || Receives(run, k, message) {
      StillReceived(run, k, n, message);
    }
  }

  // ---------- how requests reach the workflow ----------

  /** A poll finds this status in storage. */
  ghost predicate Finds(run: seq<State>, k: int, status: Status) {
    0 <= k < |run| - 1 && run[k].parent == Polling && run[k + 1].parent.Seen? && run[k].status == status
  }

  ghost predicate Found(run: seq<State>, k: nat, status: Status) {
    exists j :: 0 <= j < k && Finds(run, j, status)
  }

  /** The flags follow from the statuses found, but for what is still to be done about the last one. */
  ghost predicate FlagsFollow(run: seq<State>, k: nat)
    requires k < |run|
  {
    var s := run[k];
    && (s.parent.Seen? ==> Found(run, k, s.parent.status))
    && (s.cancelRequest ==> exists status :: status != Running && Found(run, k, status))
    && (s.killRequest ==> Found(run, k, KillCancelling))
    && (forall status :: status != Running && Found(run, k, status) ==>
      s.cancelRequest || (s.parent.Seen? && s.parent.status == status && s.parent.flagged == 0))
    && (Found(run, k, KillCancelling) ==>
      s.killRequest || (s.parent.Seen? && s.parent.status == KillCancelling && s.parent.flagged < 3))
  }

  lemma OneFoundLater(run: seq<State>, k: nat, n: nat)
    requires n == k + 1
    ensures forall status :: Found(run, n, status) <==> Found(run, k, status) || Finds(run, k, status)
  {
  }

  lemma StepFinds(run: seq<State>, k: nat, event: Event)
    requires k < |run| - 1 && Step(run[k], run[k + 1], event)
    ensures forall status :: Finds(run, k, status) <==> event == Poll && status == run[k].status
  {
  }

  lemma FlagsStep(run: seq<State>, k: nat, n: nat, event: Event)
    requires n == k + 1 < |run| && Inv(run[k]) && FlagsFollow(run, k) && Step(run[k], run[n], event)
    ensures FlagsFollow(run, n)
  {
    StepFinds(run, k, event);
    OneFoundLater(run, k, n);
    var s, t := run[k], run[n];
    if t.cancelRequest {
      var status := if s.cancelRequest then FoundRequest(run, k) else s.parent.status;
      assert status != Running && Found(run, n, status);
    }
  }

  ghost function FoundRequest(run: seq<State>, k: nat): (status: Status)
    requires k < |run| && exists status :: status != Running && Found(run, k, status)
    ensures status != Running && Found(run, k, status)
  {
    var status :| status != Running && Found(run, k, status);
    status
  }

  lemma {:induction false} RunFlags(run: seq<State>, k: nat)
    requires Run(run) && k < |run|
    ensures FlagsFollow(run, k)
  {
    if k > 0 {
      RunFlags(run, k - 1);
      RunInv(run, k - 1);
      assert Next(run[k - 1], run[k]);
      var event :| Step(run[k - 1], run[k], event);
      FlagsStep(run, k - 1, k, event);
    }
  }

  /**
    Whatever the parent does next after it has dealt with a status, the workflow is asked to cancel exactly
    if some poll has found a request to cancel, of any kind, and to stop at once exactly if one has found that.
  */
  lemma RequestsReachExactly(run: seq<State>, k: nat)
    requires Run(run) && k < |run| && !run[k].parent.Seen?
    ensures run[k].cancelRequest <==> exists status :: status != Running && Found(run, k, status)
    ensures run[k].killRequest <==> Found(run, k, KillCancelling)
  {
    RunFlags(run, k);
  }

  // ---------- the flags ----------

  /** The workflow's flags are those of the state. */
  ghost predicate FlagsOf(api: WorkflowApi, s: State)
    reads api
  {
    api.cancelRequest == s.cancelRequest && api.killRequest == s.killRequest
  }

  /** `n` flag assignments lead from `s` to `t`. */
  ghost predicate FlagSteps(s: State, t: State, n: nat)
    decreases n
  {
    if n == 0 then s == t else exists r :: Step(s, r, Flag) && FlagSteps(r, t, n - 1)
  }

  /** What the parent does when it has seen a status: it calls the setters that make up these steps. */
  method SetFlags(api: WorkflowApi, status: Status, ghost s: State) returns (ghost t: State)
    requires api.Valid() && FlagsOf(api, s) && s.parent == Seen(status, 0)
    modifies api
    ensures api.Valid() && FlagsOf(api, t) && t.parent == Seen(status, FlagsDue(status))
    ensures FlagSteps(s, t, FlagsDue(status))
  {
    t := s;
    if status != Running {
      api.SetCancelRequest();
      t := s.(parent := Seen(status, 1), cancelRequest := true);
      assert Step(s, t, Flag);
    }
    if status == KillCancelling {
      api.SetKillRequest();
      ghost var r := t.(parent := Seen(status, 2));
      ghost var q := r.(parent := Seen(status, 3), killRequest := true);
      assert Step(t, r, Flag) && Step(r, q, Flag);
      assert FlagSteps(r, q, 1) && FlagSteps(t, q, 2) && FlagSteps(s, q, 3);
      t := q;
    }
  }
}
