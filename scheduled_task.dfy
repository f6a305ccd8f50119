/**
 * The ScheduledTask module: it runs a client callback until the callback
 * reports success, at most once per driver load (or once ever, when the
 * success is persisted in the registry). The work runs immediately from the
 * PrepareHardware or D0Entry hook, or deferred from a timer armed by that
 * hook, and again from the timer whenever the callback asks to try again.
 * Clients can also ask for the work on demand, through a work item that
 * serves every request queued while it runs.
 *
 * The timer, the work item and the rundown object are state here: the timer
 * is either idle or queued with a relative due time, the work item is queued
 * or not, and the rundown either accepts references or refuses them. The
 * client callback is an input: each method that may invoke it takes the
 * result the callback returns, and the state keeps a log of the contexts the
 * callback was invoked with, so that "the callback is not invoked" can be
 * stated.
 */
module ScheduledTask {
  import opened NtStatus

  /** ScheduledTask_Persistence_Type. */
  datatype Persistence = PersistentAcrossReboots | NotPersistentAcrossReboots

  /** ScheduledTask_ExecuteWhen_Type; Other is any setting without a hook. */
  datatype ExecuteWhen = PrepareHardware | D0Entry | Other

  /** ScheduledTask_ExecutionMode_Type. */
  datatype ExecutionMode = Immediate | Deferred

  /** ScheduledTask_Result_Type: what the client callback returns. */
  datatype WorkResult = Success | SuccessButTryAgain | Fail | FailButTryAgain

  /** DMF_CONFIG_ScheduledTask, without the callback and its context. */
  datatype Config =
    Config(persistence: Persistence, executeWhen: ExecuteWhen, executionMode: ExecutionMode,
           timerPeriodMsOnSuccess: nat, timerPeriodMsOnFail: nat, timeMsBeforeInitialCall: nat)

  /**
   * The context a client callback is invoked with: the one in the module's
   * configuration, or one a caller passed to ExecuteNow or
   * ExecuteNowDeferred.
   */
  datatype CallContext = ConfigContext | CallerContext(pointer: nat)

  /**
   * DMF_CONTEXT_ScheduledTask and the objects it owns. onDemandContext is
   * OnDemandCallbackContext (None for NULL); timesRun is the TimesRun
   * registry value (0 when absent); timer is Some(due time in ms) while the
   * timer is queued; calls logs every invocation of the client callback.
   */
  datatype TaskState =
    TaskState(workIsCompleted: bool, timerIsStarted: bool, disableRetries: bool,
              pendingCalls: int, onDemandContext: Option<nat>, timesRun: nat,
              timer: Option<nat>, workItemQueued: bool, rundownOpen: bool,
              calls: seq<CallContext>)

  predicate Persistent(c: Config) {
    c.persistence == PersistentAcrossReboots
  }

  predicate IsRetry(r: WorkResult) {
    r == SuccessButTryAgain || r == FailButTryAgain
  }

  /** The results for which a hook running the work immediately reports success. */
  predicate Succeeded(r: WorkResult) {
    r == Success || r == SuccessButTryAgain
  }

  // ---------------------------------------------------------------------------
  // Invariants.

  /** TimerIsStarted is set exactly while the timer is queued. */
  predicate TimerAgrees(s: TaskState) {
    s.timerIsStarted <==> s.timer.Some?
  }

  /** A success in persistent mode is also recorded in the registry. */
  predicate CompletionRecorded(c: Config, s: TaskState) {
    s.workIsCompleted && Persistent(c) ==> s.timesRun >= 1
  }

  /** The module's invariant between two calls into it. */
  predicate Consistent(c: Config, s: TaskState) {
    TimerAgrees(s) && CompletionRecorded(c, s) && s.pendingCalls >= 0 &&
    (s.workItemQueued <==> s.pendingCalls > 0)
  }

  /** The client's work has been done and ClientWorkDo will not invoke the callback again. */
  predicate WorkDone(c: Config, s: TaskState) {
    s.workIsCompleted || (Persistent(c) && s.timesRun >= 1)
  }

  /** t's log extends s's log with invocations that carry a caller's context only. */
  predicate OnlyCallerCalls(s: TaskState, t: TaskState) {
    |s.calls| <= |t.calls| && t.calls[..|s.calls|] == s.calls &&
    forall k :: |s.calls| <= k < |t.calls| ==> t.calls[k].CallerContext?
  }

  /** The fields that only the on-demand machinery, the hooks and Cancel change. */
  predicate SameScheduling(s: TaskState, t: TaskState) {
    t.pendingCalls == s.pendingCalls && t.workItemQueued == s.workItemQueued &&
    t.rundownOpen == s.rundownOpen && t.disableRetries == s.disableRetries &&
    t.onDemandContext == s.onDemandContext
  }

  // ---------------------------------------------------------------------------
  // The transitions, one function per routine of the module.

  /** The period TimerRestart arms the timer with; 0 for a result that asks for no retry. */
  function RetryPeriod(c: Config, r: WorkResult): (ms: nat)
    ensures r == SuccessButTryAgain ==> ms == c.timerPeriodMsOnSuccess
    ensures r == FailButTryAgain ==> ms == c.timerPeriodMsOnFail
    ensures !IsRetry(r) ==> ms == 0
  {
    match r
    case SuccessButTryAgain => c.timerPeriodMsOnSuccess
    case FailButTryAgain => c.timerPeriodMsOnFail
    case _ => 0
  }

  /**
   * ScheduledTask_TimerRestart: unless retries are disabled or the rundown
   * refuses a reference, mark the timer started and (re)queue it with the
   * period for the result.
   */
  function RestartTimer(c: Config, s: TaskState, r: WorkResult): (t: TaskState)
    ensures s.disableRetries || !s.rundownOpen ==> t == s
    ensures !s.disableRetries && s.rundownOpen ==>
              t.timerIsStarted && t.timer == Some(RetryPeriod(c, r))
    ensures t.(timerIsStarted := s.timerIsStarted, timer := s.timer) == s
  {
    if s.disableRetries || !s.rundownOpen then s
    else s.(timerIsStarted := true, timer := Some(RetryPeriod(c, r)))
  }

  /** What ClientWorkDo leaves behind and returns. */
  datatype WorkOutcome = WorkOutcome(state: TaskState, result: WorkResult)

  /** ClientWorkDo invokes the client callback exactly when this holds. */
  predicate ClientWorkRuns(c: Config, s: TaskState) {
    !WorkDone(c, s)
  }

  /**
   * ScheduledTask_ClientWorkDo, given the result the client callback returns
   * if it is invoked.
   */
  function DoClientWork(c: Config, s: TaskState, callbackResult: WorkResult): (o: WorkOutcome)
    ensures Persistent(c) && s.timesRun >= 1 ==> o == WorkOutcome(s, Success)
    ensures s.workIsCompleted ==> o == WorkOutcome(s, Success)
    ensures ClientWorkRuns(c, s) ==>
              o.state.calls == s.calls + [ConfigContext] && o.result == callbackResult
    ensures ClientWorkRuns(c, s) && callbackResult == Success ==>
              o.state.workIsCompleted && (Persistent(c) ==> o.state.timesRun == 1) &&
              o.state.timer == s.timer
    ensures ClientWorkRuns(c, s) && callbackResult == Fail ==>
              o.state == s.(calls := o.state.calls)
    ensures ClientWorkRuns(c, s) && IsRetry(callbackResult) ==>
              o.state == RestartTimer(c, s.(calls := o.state.calls), callbackResult)
    ensures SameScheduling(s, o.state)
    ensures TimerAgrees(s) ==> TimerAgrees(o.state)
    ensures CompletionRecorded(c, s) ==> CompletionRecorded(c, o.state)
    ensures WorkDone(c, s) ==> WorkDone(c, o.state)
  {
    if Persistent(c) && s.timesRun >= 1 then WorkOutcome(s, Success)
    else if s.workIsCompleted then WorkOutcome(s, Success)
    else
      var invoked := s.(calls := s.calls + [ConfigContext]);
      match callbackResult
      case Success =>
        WorkOutcome(invoked.(workIsCompleted := true,
                             timesRun := if Persistent(c) then 1 else s.timesRun), Success)
      case Fail => WorkOutcome(invoked, Fail)
      case _ => WorkOutcome(RestartTimer(c, invoked, callbackResult), callbackResult)
  }

  /**
   * ScheduledTask_TimerHandler: the queued timer fires; the timer is no
   * longer started, and ClientWorkDo runs.
   */
  function FireTimer(c: Config, s: TaskState, callbackResult: WorkResult): (t: TaskState)
    requires s.timer.Some?
    ensures t.timer.Some? ==> ClientWorkRuns(c, s) && IsRetry(callbackResult)
    ensures !ClientWorkRuns(c, s) ==> t == s.(timerIsStarted := false, timer := None)
    ensures SameScheduling(s, t)
  {
    DoClientWork(c, s.(timerIsStarted := false, timer := None), callbackResult).state
  }

  /**
   * One pass of ScheduledTask_DeferredHandlerOnDemand before the decrement:
   * with a rundown reference, the legacy path (a caller's context was saved)
   * invokes the callback and ignores its result; otherwise ClientWorkDo runs.
   */
  function OnDemandCall(c: Config, s: TaskState, callbackResult: WorkResult): (t: TaskState)
    ensures !s.rundownOpen ==> t == s
    ensures s.rundownOpen && s.onDemandContext.Some? ==>
              t == s.(calls := s.calls + [CallerContext(s.onDemandContext.value)])
    ensures s.rundownOpen && s.onDemandContext.None? ==>
              t == DoClientWork(c, s, callbackResult).state
    ensures SameScheduling(s, t)
    ensures TimerAgrees(s) ==> TimerAgrees(t)
    ensures CompletionRecorded(c, s) ==> CompletionRecorded(c, t)
  {
    if !s.rundownOpen then s
    else if s.onDemandContext.Some? then
      s.(calls := s.calls + [CallerContext(s.onDemandContext.value)])
    else DoClientWork(c, s, callbackResult).state
  }

  /**
   * The do/while loop of ScheduledTask_DeferredHandlerOnDemand from the
   * i-th pass on: each pass makes one call and decrements the pending count,
   * until the count reaches 0. results(k) is what the callback returns when
   * invoked in pass k.
   */
  function OnDemandLoop(c: Config, s: TaskState, results: nat -> WorkResult, i: nat): (t: TaskState)
    requires s.pendingCalls > 0
    ensures t.pendingCalls == 0
    ensures t.workItemQueued == s.workItemQueued && t.rundownOpen == s.rundownOpen &&
            t.disableRetries == s.disableRetries && t.onDemandContext == s.onDemandContext
    ensures TimerAgrees(s) ==> TimerAgrees(t)
    ensures CompletionRecorded(c, s) ==> CompletionRecorded(c, t)
    ensures s.workIsCompleted ==> t.workIsCompleted
    decreases s.pendingCalls
  {
    var called := OnDemandCall(c, s, results(i));
    var next := called.(pendingCalls := called.pendingCalls - 1);
    if next.pendingCalls > 0 then OnDemandLoop(c, next, results, i + 1) else next
  }

  /** ScheduledTask_DeferredHandlerOnDemand: the work item is dequeued and runs its loop. */
  function RunOnDemand(c: Config, s: TaskState, results: nat -> WorkResult): (t: TaskState)
    requires s.pendingCalls > 0
    ensures t.pendingCalls == 0 && !t.workItemQueued
  {
    OnDemandLoop(c, s.(workItemQueued := false), results, 0)
  }

  /** What ExecuteNowDeferred(Ex) leaves behind and returns. */
  datatype Deferral = Deferral(state: TaskState, status: NtStatus)

  /**
   * DMF_ScheduledTask_ExecuteNowDeferred (context is the caller's, None for
   * NULL) and DMF_ScheduledTask_ExecuteNowDeferredEx (context None): count
   * the call; only the call that raises the count from 0 to 1 queues the work
   * item, and undoes its count when the rundown refuses a reference.
   */
  function DeferWork(s: TaskState, context: Option<nat>): (d: Deferral)
    ensures d.state.workItemQueued != s.workItemQueued ==>
              s.pendingCalls == 0 && d.state.workItemQueued && d.state.onDemandContext == context
    ensures d.status == STATUS_UNSUCCESSFUL <==> s.pendingCalls == 0 && !s.rundownOpen
    ensures d.status == STATUS_UNSUCCESSFUL ==> d.state == s
    ensures d.status != STATUS_UNSUCCESSFUL ==>
              d.status == STATUS_SUCCESS && d.state.pendingCalls == s.pendingCalls + 1 &&
              d.state.(pendingCalls := s.pendingCalls, workItemQueued := s.workItemQueued,
                       onDemandContext := s.onDemandContext) == s
  {
    var raised := s.pendingCalls + 1;
    if raised == 1 then
      if s.rundownOpen then
        Deferral(s.(pendingCalls := raised, onDemandContext := context, workItemQueued := true),
                 STATUS_SUCCESS)
      else Deferral(s.(pendingCalls := raised - 1), STATUS_UNSUCCESSFUL)
    else Deferral(s.(pendingCalls := raised), STATUS_SUCCESS)
  }

  /** What a start hook leaves behind and returns. */
  datatype HookOutcome = HookOutcome(state: TaskState, status: NtStatus)

  /**
   * DMF_ScheduledTask_ModulePrepareHardware and _ModuleD0Entry; triggered
   * says whether the configured ExecuteWhen names this hook. Deferred mode
   * queues the timer unless it is already started; Immediate mode runs
   * ClientWorkDo and fails unless it reports Success or SuccessButTryAgain.
   */
  function StartWork(c: Config, s: TaskState, triggered: bool, callbackResult: WorkResult)
    : (h: HookOutcome)
    ensures !triggered ==> h == HookOutcome(s, STATUS_SUCCESS)
    ensures triggered ==> !h.state.disableRetries
    ensures triggered && c.executionMode == Deferred ==>
              h.status == STATUS_SUCCESS && h.state.timerIsStarted &&
              h.state.timer == (if s.timerIsStarted then s.timer else Some(c.timeMsBeforeInitialCall)) &&
              h.state.calls == s.calls
    ensures triggered && c.executionMode == Immediate ==>
              var o := DoClientWork(c, s.(disableRetries := false), callbackResult);
              h.state == o.state &&
              (h.status == STATUS_SUCCESS <==> Succeeded(o.result)) &&
              (h.status == STATUS_SUCCESS || h.status == STATUS_UNSUCCESSFUL)
  {
    if !triggered then HookOutcome(s, STATUS_SUCCESS)
    else
      var enabled := s.(disableRetries := false);
      match c.executionMode
      case Deferred =>
        if !enabled.timerIsStarted then
          HookOutcome(enabled.(timerIsStarted := true, timer := Some(c.timeMsBeforeInitialCall)),
                      STATUS_SUCCESS)
        else HookOutcome(enabled, STATUS_SUCCESS)
      case Immediate =>
        var o := DoClientWork(c, enabled, callbackResult);
        HookOutcome(o.state, if Succeeded(o.result) then STATUS_SUCCESS else STATUS_UNSUCCESSFUL)
  }

  /**
   * DMF_ScheduledTask_ModuleReleaseHardware and _ModuleD0Exit as written:
   * when triggered, stop the timer and disable retries, but leave
   * TimerIsStarted as it was.
   */
  function StopWorkAsWritten(s: TaskState, triggered: bool): (t: TaskState)
    ensures triggered ==> t.timer.None? && t.disableRetries && t.timerIsStarted == s.timerIsStarted
    ensures !triggered ==> t == s
  {
    if triggered then s.(timer := None, disableRetries := true) else s
  }

  /**
   * DMF_ScheduledTask_ModuleReleaseHardware and _ModuleD0Exit as the model
   * runs them: stopping the timer also clears TimerIsStarted, as Cancel and
   * Close do, so that the next start hook queues the timer again.
   */
  function StopWork(s: TaskState, triggered: bool): (t: TaskState)
    ensures triggered ==> t.timer.None? && !t.timerIsStarted && t.disableRetries
    ensures triggered ==> t.(timer := s.timer, timerIsStarted := s.timerIsStarted,
                             disableRetries := s.disableRetries) == s
    ensures !triggered ==> t == s
  {
    if triggered then s.(timer := None, timerIsStarted := false, disableRetries := true) else s
  }

  /**
   * DMF_ScheduledTask_Cancel: end the rundown, flush the work item (which
   * then only drains the pending count, since every rundown reference is
   * refused), and stop the timer.
   */
  function CancelTask(c: Config, s: TaskState): (t: TaskState)
    ensures !t.rundownOpen && t.timer.None? && !t.timerIsStarted
    ensures Consistent(c, s) ==> t.pendingCalls == 0 && !t.workItemQueued
  {
    var closed := s.(rundownOpen := false);
    var flushed :=
      if closed.workItemQueued && closed.pendingCalls > 0
      then RunOnDemand(c, closed, (_: nat) => Fail)
      else closed;
    flushed.(timer := None, timerIsStarted := false)
  }

  // ---------------------------------------------------------------------------
  // Everything that can happen to the module, and the lemmas about all of it.

  datatype Event =
    | TimerExpires(callbackResult: WorkResult)
    | WorkItemRuns(results: nat -> WorkResult)
    | HardwarePrepared(callbackResult: WorkResult)
    | HardwareReleased
    | PoweredUp(callbackResult: WorkResult)
    | PoweredDown
    | Cancelled
    | Restarted
    | RanNow(context: nat)
    | DeferredCall(savedContext: Option<nat>)
    | DeferredCallEx

  /** The timer fires only while queued; the work item runs only while queued. */
  predicate Enabled(s: TaskState, e: Event) {
    match e
    case TimerExpires(_) => s.timer.Some?
    case WorkItemRuns(_) => s.workItemQueued && s.pendingCalls > 0
    case _ => true
  }

  function Apply(c: Config, s: TaskState, e: Event): TaskState
    requires Enabled(s, e)
  {
    match e
    case TimerExpires(r) => FireTimer(c, s, r)
    case WorkItemRuns(results) => RunOnDemand(c, s, results)
    case HardwarePrepared(r) => StartWork(c, s, c.executeWhen == PrepareHardware, r).state
    case HardwareReleased => StopWork(s, c.executeWhen == PrepareHardware)
    case PoweredUp(r) => StartWork(c, s, c.executeWhen == D0Entry, r).state
    case PoweredDown => StopWork(s, c.executeWhen == D0Entry)
    case Cancelled => CancelTask(c, s)
    case Restarted => s.(rundownOpen := true)
    case RanNow(context) => s.(calls := s.calls + [CallerContext(context)])
    case DeferredCall(saved) => DeferWork(s, saved).state
    case DeferredCallEx => DeferWork(s, None).state
  }

  /** Every event keeps the module's invariant. */
  lemma ConsistentAfterEvent(c: Config, s: TaskState, e: Event)
    requires Consistent(c, s) && Enabled(s, e)
    ensures Consistent(c, Apply(c, s, e))
  {
    match e
    case WorkItemRuns(results) =>
      var t := RunOnDemand(c, s, results);
      assert TimerAgrees(t) && CompletionRecorded(c, t);
    case _ =>
  }

  lemma OnlyCallerCallsTransitive(a: TaskState, b: TaskState, d: TaskState)
    requires OnlyCallerCalls(a, b) && OnlyCallerCalls(b, d)
    ensures OnlyCallerCalls(a, d)
  {
    assert d.calls[..|a.calls|] == d.calls[..|b.calls|][..|a.calls|];
    forall k | |a.calls| <= k < |d.calls|
      ensures d.calls[k].CallerContext?
    {
      if k < |b.calls| {
        assert d.calls[k] == d.calls[..|b.calls|][k] == b.calls[k];
      }
    }
  }

  /** Once the work is done, the on-demand loop leaves it done and runs only legacy calls. */
  lemma {:induction false} OnDemandLoopAfterWorkDone(c: Config, s: TaskState,
                                                     results: nat -> WorkResult, i: nat)
    requires s.pendingCalls > 0 && WorkDone(c, s)
    ensures WorkDone(c, OnDemandLoop(c, s, results, i))
    ensures OnlyCallerCalls(s, OnDemandLoop(c, s, results, i))
    decreases s.pendingCalls
  {
    var called := OnDemandCall(c, s, results(i));
    var next := called.(pendingCalls := called.pendingCalls - 1);
    assert WorkDone(c, next) && OnlyCallerCalls(s, next);
    if next.pendingCalls > 0 {
      OnDemandLoopAfterWorkDone(c, next, results, i + 1);
      OnlyCallerCallsTransitive(s, next, OnDemandLoop(c, next, results, i + 1));
    }
  }

  /**
   * Once the work is done (WorkIsCompleted, or a persisted TimesRun), it
   * stays done, and no event invokes the callback with the configured
   * context again: only ExecuteNow and legacy on-demand calls, which carry a
   * caller's context, still reach the callback.
   */
  lemma WorkDoneIsFinal(c: Config, s: TaskState, e: Event)
    requires Enabled(s, e) && WorkDone(c, s)
    ensures WorkDone(c, Apply(c, s, e))
    ensures OnlyCallerCalls(s, Apply(c, s, e))
  {
    match e
    case WorkItemRuns(results) =>
      OnDemandLoopAfterWorkDone(c, s.(workItemQueued := false), results, 0);
    case Cancelled =>
      var closed := s.(rundownOpen := false);
      if closed.workItemQueued && closed.pendingCalls > 0 {
        OnDemandLoopAfterWorkDone(c, closed.(workItemQueued := false), (_: nat) => Fail, 0);
      }
    case RanNow(context) =>
      assert Apply(c, s, e).calls[..|s.calls|] == s.calls;
    case _ =>
      assert Apply(c, s, e).calls[..|s.calls|] == s.calls;
  }

  /** WorkIsCompleted is written once and never cleared. */
  lemma WorkIsCompletedIsWriteOnce(c: Config, s: TaskState, e: Event)
    requires Enabled(s, e) && s.workIsCompleted
    ensures Apply(c, s, e).workIsCompleted
  {
    match e
    case Cancelled =>
      var closed := s.(rundownOpen := false);
      if closed.workItemQueued && closed.pendingCalls > 0 {
        assert RunOnDemand(c, closed, (_: nat) => Fail).workIsCompleted;
      }
    case _ =>
  }

  /** With the rundown ended, the on-demand loop only drains the pending count. */
  lemma {:induction false} ClosedRundownOnlyDrains(c: Config, s: TaskState,
                                                   results: nat -> WorkResult, i: nat)
    requires s.pendingCalls > 0 && !s.rundownOpen
    ensures OnDemandLoop(c, s, results, i) == s.(pendingCalls := 0)
    decreases s.pendingCalls
  {
    if s.pendingCalls > 1 {
      ClosedRundownOnlyDrains(c, s.(pendingCalls := s.pendingCalls - 1), results, i + 1);
    }
  }

  /** Cancel never invokes the callback and leaves the work as it was. */
  lemma CancelInvokesNothing(c: Config, s: TaskState)
    requires Consistent(c, s)
    ensures CancelTask(c, s) ==
              s.(rundownOpen := false, pendingCalls := 0, workItemQueued := false,
                 timer := None, timerIsStarted := false)
  {
    var closed := s.(rundownOpen := false);
    if closed.workItemQueued && closed.pendingCalls > 0 {
      ClosedRundownOnlyDrains(c, closed.(workItemQueued := false), (_: nat) => Fail, 0);
    }
  }

  /**
   * The legacy on-demand path invokes the callback once per pending call with
   * the saved caller's context, whatever the callback returns, and changes
   * nothing else.
   */
  lemma {:induction false} LegacyOnDemandIgnoresResults(c: Config, s: TaskState,
                                                        results: nat -> WorkResult, i: nat)
    requires s.pendingCalls > 0 && s.rundownOpen && s.onDemandContext.Some?
    ensures OnDemandLoop(c, s, results, i) ==
              s.(pendingCalls := 0,
                 calls := s.calls + seq(s.pendingCalls, _ => CallerContext(s.onDemandContext.value)))
    decreases s.pendingCalls
  {
    var x := CallerContext(s.onDemandContext.value);
    var next := s.(calls := s.calls + [x], pendingCalls := s.pendingCalls - 1);
    if s.pendingCalls > 1 {
      LegacyOnDemandIgnoresResults(c, next, results, i + 1);
      assert s.calls + [x] + seq(next.pendingCalls, _ => x) == s.calls + seq(s.pendingCalls, _ => x);
    } else {
      assert s.calls + [x] == s.calls + seq(s.pendingCalls, _ => x);
    }
  }

  /**
   * After a stop hook and the matching start hook in Deferred mode, the
   * timer is queued with TimeMsBeforeInitialCall.
   */
  lemma StopThenStartRequeuesTimer(c: Config, s: TaskState, triggered: bool, r: WorkResult)
    requires Consistent(c, s) && c.executionMode == Deferred && triggered
    ensures var t := StartWork(c, StopWork(s, triggered), triggered, r).state;
            t.timer == Some(c.timeMsBeforeInitialCall) && Consistent(c, t)
  {
  }

  /**
   * As written, a stop hook that interrupts a queued timer leaves
   * TimerIsStarted set, so the next start hook in Deferred mode queues
   * nothing: the timer is idle while the module believes it started.
   */
  lemma StopAsWrittenNeverRequeues(c: Config, s: TaskState, r: WorkResult)
    requires Consistent(c, s) && s.timer.Some? && c.executionMode == Deferred
    ensures var t := StartWork(c, StopWorkAsWritten(s, true), true, r).state;
            t.timer.None? && t.timerIsStarted && !TimerAgrees(t)
  {
  }

  /** A concrete run: the timer armed at PrepareHardware is lost across ReleaseHardware. */
  lemma StopAsWrittenExample()
    ensures var c := Config(NotPersistentAcrossReboots, PrepareHardware, Deferred, 1000, 1000, 50);
            var start := TaskState(false, false, false, 0, None, 0, None, false, true, []);
            var prepared := StartWork(c, start, true, Fail).state;
            var released := StopWorkAsWritten(prepared, true);
            var again := StartWork(c, released, true, Fail).state;
            prepared.timer == Some(50) && again.timer.None? && !again.workIsCompleted &&
            StartWork(c, StopWork(prepared, true), true, Fail).state.timer == Some(50)
  {
  }

  // ---------------------------------------------------------------------------
  // The module's state and its methods.

  class ScheduledTaskModule {
    const config: Config
    var workIsCompleted: bool
    var timerIsStarted: bool
    var disableRetries: bool
    var numberOfPendingCalls: int
    var onDemandCallbackContext: Option<nat>
    /** The TimesRun registry value. */
    var timesRun: nat
    /** The WDFTIMER: Some(due time in ms) while queued. */
    var timer: Option<nat>
    /** The DeferredOnDemand work item. */
    var workItemQueued: bool
    /** The rundown child module: does it grant references? */
    var rundownOpen: bool
    /** Every invocation of the client callback so far. */
    var calls: seq<CallContext>

    function State(): TaskState
      reads this
    {
      TaskState(workIsCompleted, timerIsStarted, disableRetries, numberOfPendingCalls,
                onDemandCallbackContext, timesRun, timer, workItemQueued, rundownOpen, calls)
    }

    ghost predicate Valid()
      reads this
    {
      Consistent(config, State())
    }

    /**
     * DMF_ScheduledTask_Open on a freshly created (zeroed) context, with
     * timesRun the value the registry holds.
     */
    constructor(config: Config, timesRun: nat)
      ensures this.config == config
      ensures State() == TaskState(false, false, false, 0, None, timesRun, None, false, true, [])
      ensures Valid()
    {
      this.config := config;
      workIsCompleted := false;
      timerIsStarted := false;
      numberOfPendingCalls := 0;
      disableRetries := false;
      onDemandCallbackContext := None;
      this.timesRun := timesRun;
      timer := None;
      workItemQueued := false;
      calls := [];
      rundownOpen := true;
    }

    /** ScheduledTask_TimerRestart. */
    method TimerRestart(r: WorkResult)
      modifies this
      ensures State() == RestartTimer(config, old(State()), r)
    {
      if disableRetries {
        return;
      }
      if rundownOpen {
        timerIsStarted := true;
        var timerPeriodMs: nat;
        if r == SuccessButTryAgain {
          timerPeriodMs := config.timerPeriodMsOnSuccess;
        } else if r == FailButTryAgain {
          timerPeriodMs := config.timerPeriodMsOnFail;
        } else {
          timerPeriodMs := 0;
        }
        timer := Some(timerPeriodMs);
      }
    }

    /** ScheduledTask_ClientWorkDo; callbackResult is what the callback returns if invoked. */
    method ClientWorkDo(callbackResult: WorkResult) returns (result: WorkResult)
      modifies this
      ensures WorkOutcome(State(), result) == DoClientWork(config, old(State()), callbackResult)
    {
      if config.persistence == PersistentAcrossReboots && timesRun >= 1 {
        return Success;
      }
      if workIsCompleted {
        return Success;
      }
      calls := calls + [ConfigContext];
      result := callbackResult;
      match result {
        case Success =>
          workIsCompleted := true;
          if config.persistence == PersistentAcrossReboots {
            timesRun := 1;
          }
        case SuccessButTryAgain =>
          TimerRestart(result);
        case Fail =>
        case FailButTryAgain =>
          TimerRestart(result);
      }
    }

    /**
     * ScheduledTask_TimerHandler: the queued timer fires, which dequeues it
     * (the timer is not periodic).
     */
    method TimerHandler(callbackResult: WorkResult)
      requires Valid() && timer.Some?
      modifies this
      ensures Valid() && State() == FireTimer(config, old(State()), callbackResult)
    {
      timer := None;
      timerIsStarted := false;
      var _ := ClientWorkDo(callbackResult);
      ConsistentAfterEvent(config, old(State()), TimerExpires(callbackResult));
    }

    /** One pass of the on-demand loop, before the decrement. */
    method OnDemandCallOnce(callbackResult: WorkResult)
      modifies this
      ensures State() == OnDemandCall(config, old(State()), callbackResult)
    {
      if rundownOpen {
        if onDemandCallbackContext.Some? {
          calls := calls + [CallerContext(onDemandCallbackContext.value)];
        } else {
          var _ := ClientWorkDo(callbackResult);
        }
      }
    }

    /** The do/while loop of the on-demand handler. */
    method DrainPendingCalls(results: nat -> WorkResult)
      requires numberOfPendingCalls > 0
      modifies this
      ensures State() == OnDemandLoop(config, old(State()), results, 0)
    {
      var i: nat := 0;
      var more := true;
      while more
        invariant more ==> numberOfPendingCalls > 0
        invariant more ==> OnDemandLoop(config, State(), results, i) == OnDemandLoop(config, old(State()), results, 0)
        invariant !more ==> State() == OnDemandLoop(config, old(State()), results, 0)
        decreases numberOfPendingCalls, more
      {
        OnDemandCallOnce(results(i));
        numberOfPendingCalls := numberOfPendingCalls - 1;
        var pendingCalls := numberOfPendingCalls;
        more := pendingCalls > 0;
        i := i + 1;
      }
    }

    /**
     * ScheduledTask_DeferredHandlerOnDemand: the queued work item runs;
     * results(k) is what the callback returns if invoked in pass k.
     */
    method DeferredHandlerOnDemand(results: nat -> WorkResult)
      requires Valid() && workItemQueued
      modifies this
      ensures Valid() && State() == RunOnDemand(config, old(State()), results)
    {
      workItemQueued := false;
      DrainPendingCalls(results);
      ConsistentAfterEvent(config, old(State()), WorkItemRuns(results));
    }

    /** The body shared by the PrepareHardware and D0Entry hooks. */
    method StartHook(triggered: bool, callbackResult: WorkResult) returns (status: NtStatus)
      modifies this
      ensures HookOutcome(State(), status) == StartWork(config, old(State()), triggered, callbackResult)
    {
      status := STATUS_SUCCESS;
      if triggered {
        disableRetries := false;
        match config.executionMode {
          case Deferred =>
            if !timerIsStarted {
              timerIsStarted := true;
              timer := Some(config.timeMsBeforeInitialCall);
            }
          case Immediate =>
            var workResult := ClientWorkDo(callbackResult);
            if workResult != Success && workResult != SuccessButTryAgain {
              status := STATUS_UNSUCCESSFUL;
            }
        }
      }
    }

    /** The body shared by the ReleaseHardware and D0Exit hooks. */
    method StopHook(triggered: bool)
      modifies this
      ensures State() == StopWork(old(State()), triggered)
    {
      if triggered {
        timer := None;
        timerIsStarted := false;
        disableRetries := true;
      }
    }

    /** DMF_ScheduledTask_ModulePrepareHardware. */
    method PrepareHardware(callbackResult: WorkResult) returns (status: NtStatus)
      requires Valid()
      modifies this
      ensures Valid()
      ensures HookOutcome(State(), status) ==
                StartWork(config, old(State()), config.executeWhen == ExecuteWhen.PrepareHardware, callbackResult)
    {
      status := StartHook(config.executeWhen == ExecuteWhen.PrepareHardware, callbackResult);
      ConsistentAfterEvent(config, old(State()), HardwarePrepared(callbackResult));
    }

    /** DMF_ScheduledTask_ModuleReleaseHardware. */
    method ReleaseHardware() returns (status: NtStatus)
      requires Valid()
      modifies this
      ensures Valid() && status == STATUS_SUCCESS
      ensures State() == StopWork(old(State()), config.executeWhen == ExecuteWhen.PrepareHardware)
    {
      StopHook(config.executeWhen == ExecuteWhen.PrepareHardware);
      status := STATUS_SUCCESS;
      ConsistentAfterEvent(config, old(State()), HardwareReleased);
    }

    /** DMF_ScheduledTask_ModuleD0Entry. */
    method D0Entry(callbackResult: WorkResult) returns (status: NtStatus)
      requires Valid()
      modifies this
      ensures Valid()
      ensures HookOutcome(State(), status) ==
                StartWork(config, old(State()), config.executeWhen == ExecuteWhen.D0Entry, callbackResult)
    {
      status := StartHook(config.executeWhen == ExecuteWhen.D0Entry, callbackResult);
      ConsistentAfterEvent(config, old(State()), PoweredUp(callbackResult));
    }

    /** DMF_ScheduledTask_ModuleD0Exit. */
    method D0Exit() returns (status: NtStatus)
      requires Valid()
      modifies this
      ensures Valid() && status == STATUS_SUCCESS
      ensures State() == StopWork(old(State()), config.executeWhen == ExecuteWhen.D0Entry)
    {
      StopHook(config.executeWhen == ExecuteWhen.D0Entry);
      status := STATUS_SUCCESS;
      ConsistentAfterEvent(config, old(State()), PoweredDown);
    }

    /** DMF_ScheduledTask_Cancel. */
    method Cancel()
      requires Valid()
      modifies this
      ensures Valid() && State() == CancelTask(config, old(State()))
    {
      rundownOpen := false;
      if workItemQueued && numberOfPendingCalls > 0 {
        DeferredHandlerOnDemand((_: nat) => Fail);
      }
      timer := None;
      timerIsStarted := false;
      ConsistentAfterEvent(config, old(State()), Cancelled);
    }

    /** DMF_ScheduledTask_Restart: the rundown grants references again. */
    method Restart()
      requires Valid()
      modifies this
      ensures Valid() && State() == old(State()).(rundownOpen := true)
    {
      rundownOpen := true;
    }

    /**
     * DMF_ScheduledTask_ExecuteNow: invoke the callback with the caller's
     * context and return its result, whatever the state of the work.
     */
    method ExecuteNow(context: nat, callbackResult: WorkResult) returns (result: WorkResult)
      requires Valid()
      modifies this
      ensures Valid() && result == callbackResult
      ensures State() == old(State()).(calls := old(calls) + [CallerContext(context)])
    {
      calls := calls + [CallerContext(context)];
      result := callbackResult;
    }

    /** DMF_ScheduledTask_ExecuteNowDeferred; context None stands for NULL. */
    method ExecuteNowDeferred(context: Option<nat>) returns (status: NtStatus)
      requires Valid()
      modifies this
      ensures Valid() && Deferral(State(), status) == DeferWork(old(State()), context)
    {
      numberOfPendingCalls := numberOfPendingCalls + 1;
      if numberOfPendingCalls == 1 {
        if rundownOpen {
          onDemandCallbackContext := context;
          workItemQueued := true;
          status := STATUS_SUCCESS;
        } else {
          status := STATUS_UNSUCCESSFUL;
          numberOfPendingCalls := numberOfPendingCalls - 1;
        }
      } else {
        status := STATUS_SUCCESS;
      }
      ConsistentAfterEvent(config, old(State()), DeferredCall(context));
    }

    /** DMF_ScheduledTask_ExecuteNowDeferredEx: as ExecuteNowDeferred with no caller's context. */
    method ExecuteNowDeferredEx() returns (status: NtStatus)
      requires Valid()
      modifies this
      ensures Valid() && Deferral(State(), status) == DeferWork(old(State()), None)
    {
      status := ExecuteNowDeferred(None);
    }
  }
}
