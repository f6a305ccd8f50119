# DMF request target, scheduled task and IOCTL handler, in Dafny

This project models three modules of the Driver Module Framework (DMF), a
library of reusable pieces for Windows (KMDF) drivers, and proves properties
of them. Each module's calls into the Windows Driver Framework (WDF) are
inputs: a record of what each framework call returns, or a status or flag
parameter.

- **RequestTarget** (`request_target.dfy`) sends requests to an I/O target.
  It creates or reuses a request, wraps the client's buffers in memory
  objects, formats the request for its type, and sends it synchronously or
  asynchronously. Every failure is rolled back. The module keeps a pending
  list of asynchronous requests that a cancel token can cancel, and a reuse
  list of requests the client pre-created, each with an in-use flag. One
  process-wide counter hands out both kinds of token. The class
  `RequestTargetModule` holds the lists, the per-request contexts and the set
  of requests in flight. Its methods are proved against value-level stage
  functions and a consistency predicate.
- **ScheduledTask** (`scheduled_task.dfy`) runs a client callback until it
  reports success: once per driver load, or once ever when the success is
  persisted. The callback runs from the PrepareHardware or D0Entry hook, from
  a timer the hook arms, or on demand through a work item. The state machine
  is a value (`TaskState`) with one transition function per operation. The
  class `ScheduledTaskModule` holds the same fields, and each method is
  proved to move them exactly as the transition function does.
- **IoctlHandler** (`ioctl_handler.dfy`) dispatches device I/O control
  requests through a table of IOCTL records. It checks kernel-mode-only and
  per-IOCTL administrator access, applies the minimum buffer sizes, and then
  completes, pends or forwards the request. It routes file objects to
  instances by reference string, keeping them in list collections. The pure
  function `Dispatch` states the decision, and the class method
  `ModuleDeviceIoControl`, with its table loop, is proved to compute it.
- `nt_status.dfy` holds NTSTATUS values, NT_SUCCESS, and the Option and
  Result types. `collection.dfy` models a WDFCOLLECTION as a sequence.

`DMF_RequestTarget_ReuseDelete` returns FALSE for a token whose request is
still in flight, because the reuse-list search refuses a request in use
(Dmf/Modules.Library/Dmf_RequestTarget.c:436-482, 2315-2329). It does not
delete that request.

Two more behaviours are modelled as written, although they may not be
intended:

- A file object whose create was refused in AdministratorOnly mode stays in
  the associated list (`IoctlHandler.RefusedCreateStaysAssociated`).
- A request whose file object this instance never saw is forwarded when
  ForwardUnhandledRequests is set, like any unhandled request (`Dispatch`).

## Model

| member | source | states |
|---|---|---|
| RequestTarget.CompletionBuffers | Dmf/Modules.Library/Dmf_RequestTarget.c:144-213 | every output starts NULL/0; a read reports Read.Buffer and Read.Length, a write Write.Buffer and Write.Length, an IOCTL its input buffer with that buffer's capacity and its output buffer with Ioctl.Output.Length; any other type reports nothing |
| RequestTarget.FormatRequest | Dmf/Modules.Library/Dmf_RequestTarget.c:900-1018 | a write carries the request memory, a read the response memory, an IOCTL both plus the code (internal or not); an unknown type fails with STATUS_INVALID_PARAMETER; otherwise the framework's status decides |
| RequestTarget.FormatThenCompletionBuffers | Dmf/Modules.Library/Dmf_RequestTarget.c:144-213 | a request formatted and then completed hands the client exactly the memory it was sent with, in the same direction, with the transferred size |
| RequestTarget.SubmitStage | Dmf/Modules.Library/Dmf_RequestTarget.c:1140-1315 | a send stops at the first failing step with a failure status; the pool step is asynchronous only; the list add happens only for an asynchronous send that wants a cancel token; reaching WdfRequestSend means every earlier step succeeded |
| RequestTarget.DispatchStage | Dmf/Modules.Library/Dmf_RequestTarget.c:1218-1315 | after formatting, only the pool, list-add and timer steps can fail, each with a failure status |
| RequestTarget.MemoriesMade | Dmf/Modules.Library/Dmf_RequestTarget.c:1140-1200 | the memory objects left under a request never exceed those the send asks for, and are all of them when every creation succeeded |
| RequestTarget.MemoryFailedStatus | Dmf/Modules.Library/Dmf_RequestTarget.c:1140-1200 | a failed memory creation ends the send with a failure status |
| RequestTarget.SendStatusSuccess | Dmf/Modules.Library/Dmf_RequestTarget.c:1583-1641 | create-and-send succeeds iff every step succeeded and either the synchronous request completed successfully or the target accepted the asynchronous one |
| RequestTarget.AsynchronousSendSucceedsIffInFlight | Dmf/Modules.Library/Dmf_RequestTarget.c:1279-1315 | an asynchronous send, new or reused, returns success exactly when the target now owns the request |
| RequestTarget.TimerFailureLeavesPendingEntry | Dmf/Modules.Library/Dmf_RequestTarget.c:1558-1577 | as written, every asynchronous send of a new or reused request with a cancel token whose timer allocation fails returns a failure yet leaves the request in the pending list, where the corrected list does not hold it |
| RequestTarget.TimerFailureExample | Dmf/Modules.Library/Dmf_RequestTarget.c:1558-1577 | a concrete read sent with a cancel token, whose timer allocation fails, stays listed after the failed send |
| RequestTarget.PendingAfterSendListsOnlyAccepted | Dmf/Modules.Library/Dmf_RequestTarget.c:1621-1641 | after any send the request is pending iff the target took it asynchronously with a cancel token; the rest of the list is untouched and removing it restores the list |
| RequestTarget.FindByCancelId | Dmf/Modules.Library/Dmf_RequestTarget.c:360-397 | the cancel lookup returns a listed request carrying the token, and returns nothing iff no listed request carries it |
| RequestTarget.FindByReuseId | Dmf/Modules.Library/Dmf_RequestTarget.c:436-482 | the reuse lookup returns a listed request carrying the token, and returns nothing iff none carries it |
| RequestTarget.ReuseCandidate | Dmf/Modules.Library/Dmf_RequestTarget.c:436-482 | a reuse token claims a request only if it is listed, carries the token and is not in use; an unknown or busy token claims nothing |
| RequestTarget.CancelIdNamesOneRequest | Dmf/Modules.Library/Dmf_RequestTarget.c:1243-1244 | with tokens increasing along the list, a pending request's token finds exactly that request |
| RequestTarget.ReuseIdNamesOneRequest | Dmf/Modules.Library/Dmf_RequestTarget.c:2240-2269 | with tokens increasing along the list, a reuse request's token finds exactly that request |
| RequestTarget.ConsistentWhenCountersGrow | Dmf/Modules.Library/Dmf_RequestTarget.c:79 | drawing tokens from the shared counter and taking pool contexts keeps the module consistent |
| RequestTarget.ConsistentAfterNewRequestSent | Dmf/Modules.Library/Dmf_RequestTarget.c:1553-1620 | a new request the target accepted is live, in flight, and pending exactly when it carries the newest cancel token |
| RequestTarget.ConsistentAfterReuseRequestSent | Dmf/Modules.Library/Dmf_RequestTarget.c:1243-1315 | a reuse request the target accepted is in use, in flight, and pending exactly when it carries the newest cancel token |
| RequestTarget.ConsistentAfterReuseRequestRefused | Dmf/Modules.Library/Dmf_RequestTarget.c:1317-1336 | a reuse send that failed leaves the request idle, whatever token it drew |
| RequestTarget.ConsistentAfterReuseSend | Dmf/Modules.Library/Dmf_RequestTarget.c:1020-1346 | a reuse send of an idle request keeps the module consistent whether or not the target took it |
| RequestTarget.ReuseSendOutcome | Dmf/Modules.Library/Dmf_RequestTarget.c:1249-1336 | a reuse send the target did not take leaves the memory objects and every in-use flag and reuse token as they were; one it took with a cancel token is found by that token in the pending list |
| RequestTarget.RemoveFirstKeepsCancelOrder | Dmf/Modules.Library/Dmf_RequestTarget.c:293-323 | taking a request out of the pending list keeps cancel tokens increasing |
| RequestTarget.RemoveFirstKeepsReuseOrder | Dmf/Modules.Library/Dmf_RequestTarget.c:2315-2329 | taking a request out of the reuse list keeps reuse tokens increasing |
| RequestTarget.ConsistentAfterCompletion | Dmf/Modules.Library/Dmf_RequestTarget.c:527-589 | completion takes the request out of the pending list and out of flight, returns its pool context, makes a reuse request idle and deletes any other request with its memory |
| RequestTarget.PendingAfterCompletion | Dmf/Modules.Library/Dmf_RequestTarget.c:527-540 | after completion the request is no longer pending; the list keeps its order and has no duplicates |
| RequestTarget.ReuseCompletionConsistent | Dmf/Modules.Library/Dmf_RequestTarget.c:555-562 | completing a reuse request clears its in-use flag and keeps consistency |
| RequestTarget.RequestCompletionConsistent | Dmf/Modules.Library/Dmf_RequestTarget.c:576-589 | completing any other request deletes it and keeps consistency |
| RequestTarget.ConsistentAfterReuseCreate | Dmf/Modules.Library/Dmf_RequestTarget.c:2240-2269 | a new reuse request joins the end of the reuse list with the newest reuse token |
| RequestTarget.ConsistentAfterReuseDelete | Dmf/Modules.Library/Dmf_RequestTarget.c:2315-2329 | deleting an idle reuse request removes it from the list and from existence |
| RequestTarget.NeverIssuedCancelIdNotFound | Dmf/Modules.Library/Dmf_RequestTarget.c:2051-2062 | a value the counter has not reached yet, or one at or below zero, finds no request in either list (tokens the counter has handed out are not covered, whatever kind they were drawn for) |
| RequestTarget.UniqueIdCounter.Increment | Dmf/Modules.Library/Dmf_RequestTarget.c:1243-1244 | every token is the counter's new value, one more than before |
| RequestTarget.RequestTargetModule.constructor | Dmf/Modules.Library/Dmf_RequestTarget.c:43-60 | a module starts with no target, empty lists and nothing in flight, and is consistent |
| RequestTarget.RequestTargetModule.ListSearchAndRemove | Dmf/Modules.Library/Dmf_RequestTarget.c:259-324 | returns TRUE iff the request is in the list, removes exactly its first entry; a NULL request finds nothing and changes nothing |
| RequestTarget.RequestTargetModule.PendingSearchAndReference | Dmf/Modules.Library/Dmf_RequestTarget.c:326-398 | returns the request carrying the cancel token, taking one reference on it, or FALSE and nothing with the references unchanged |
| RequestTarget.RequestTargetModule.ReuseListSearch | Dmf/Modules.Library/Dmf_RequestTarget.c:400-483 | an idle request carrying the token is marked in use and returned; a busy or unknown token returns FALSE and changes nothing |
| RequestTarget.RequestTargetModule.AttachMemories | Dmf/Modules.Library/Dmf_RequestTarget.c:1140-1200 | creates the request and response memory for non-empty buffers; fails with the first failing creation's status; counts the memory left under the request |
| RequestTarget.RequestTargetModule.DispatchRequest | Dmf/Modules.Library/Dmf_RequestTarget.c:1218-1315 | corrected (see ## Findings): a timer-allocation failure takes the request off the pending list again; performs the pool, token, list-add, timer and send steps; the pending list, counter, tokens and pool follow the stage reached |
| RequestTarget.RequestTargetModule.SubmitRequest | Dmf/Modules.Library/Dmf_RequestTarget.c:1140-1315 | corrected (see ## Findings): inherits DispatchRequest's timer-failure removal; memory, format and dispatch in order; the status is the stage's and the state follows it |
| RequestTarget.RequestTargetModule.RequestSendReuse | Dmf/Modules.Library/Dmf_RequestTarget.c:1020-1346 | corrected (see ## Findings): inherits DispatchRequest's timer-failure removal; an unknown or busy token fails with STATUS_OBJECTID_NOT_FOUND and changes nothing; otherwise the send's effect; a cancel token is returned only after an accepted send; consistency is kept |
| RequestTarget.RequestTargetModule.SendReusedRequest | Dmf/Modules.Library/Dmf_RequestTarget.c:1111-1336 | corrected (see ## Findings): inherits DispatchRequest's timer-failure removal; WdfRequestReuse then the shared steps; every failure before the send clears the in-use flag and deletes this call's memory |
| RequestTarget.RequestTargetModule.AbortReuse | Dmf/Modules.Library/Dmf_RequestTarget.c:1317-1336 | the rollback clears the in-use flag and deletes the memory this call created |
| RequestTarget.RequestTargetModule.RequestCreateAndSend | Dmf/Modules.Library/Dmf_RequestTarget.c:1349-1646 | corrected (see ## Findings): inherits DispatchRequest's timer-failure removal; the status follows the stage; the new request stays (in flight, with its memory and token) only when the target took it asynchronously, otherwise nothing of it remains; the caller's BytesWritten is left untouched when WdfRequestCreate fails, and otherwise receives the transferred size after a successful synchronous send and 0 else; consistency is kept |
| RequestTarget.RequestTargetModule.SendCreatedRequest | Dmf/Modules.Library/Dmf_RequestTarget.c:1500-1646 | corrected (see ## Findings): inherits DispatchRequest's timer-failure removal; a synchronous request is always deleted, an asynchronous one on any failure; the pending list and token follow the stage |
| RequestTarget.RequestTargetModule.ProcessAsynchronousRequest | Dmf/Modules.Library/Dmf_RequestTarget.c:485-592 | completion removes the request from the pending list and from flight; a reuse request is already idle in the context the client's routine is called with; any other is deleted; the pool context and module reference are returned once |
| RequestTarget.RequestTargetModule.CompleteRequest | Dmf/Modules.Library/Dmf_RequestTarget.c:527-589 | the client call gets the buffers of the request type, the status, and the request's context with in-use already cleared for a reuse request; the bookkeeping of completion |
| RequestTarget.RequestTargetModule.Cancel | Dmf/Modules.Library/Dmf_RequestTarget.c:2007-2071 | returns TRUE iff the module reference is granted, a pending request carries the token and the framework cancels it; the references it takes are released |
| RequestTarget.RequestTargetModule.IoTargetSet | Dmf/Modules.Library/Dmf_RequestTarget.c:2124-2172 | sets the target when the module reference is granted |
| RequestTarget.RequestTargetModule.IoTargetClear | Dmf/Modules.Library/Dmf_RequestTarget.c:2073-2122 | clears the target when the module reference is granted |
| RequestTarget.RequestTargetModule.ReuseCreate | Dmf/Modules.Library/Dmf_RequestTarget.c:2174-2274 | on success the new request joins the reuse list with a token greater than every earlier one, and the token finds it; on any failure the token is 0 and the list is unchanged |
| RequestTarget.RequestTargetModule.AddReuseRequest | Dmf/Modules.Library/Dmf_RequestTarget.c:2209-2269 | draws a token; a failed list add leaves the list unchanged and returns token 0 |
| RequestTarget.RequestTargetModule.ReuseDelete | Dmf/Modules.Library/Dmf_RequestTarget.c:2277-2334 | returns TRUE and removes the request iff the token names an idle reuse request; otherwise FALSE and nothing changes |
| RequestTarget.RequestTargetModule.Send | Dmf/Modules.Library/Dmf_RequestTarget.c:2434-2524 | asynchronous create-and-send without a token; the pending list is unchanged; the request is in flight iff the send succeeded |
| RequestTarget.RequestTargetModule.SendEx | Dmf/Modules.Library/Dmf_RequestTarget.c:2526-2619 | corrected (see ## Findings): inherits DispatchRequest's timer-failure removal; a cancel token is returned iff the send succeeded and one was asked for; it is new and finds the sent request |
| RequestTarget.RequestTargetModule.SendAsynchronously | Dmf/Modules.Library/Dmf_RequestTarget.c:2526-2619 | corrected (see ## Findings): inherits DispatchRequest's timer-failure removal; the shared asynchronous send behind Send and SendEx: a returned token is new and its request is pending; a failure leaves requests, flight and the pending list as they were |
| RequestTarget.RequestTargetModule.SendSynchronously | Dmf/Modules.Library/Dmf_RequestTarget.c:2621-2699 | a synchronous send leaves no trace in the lists; BytesWritten is left untouched when the module reference is refused or WdfRequestCreate fails, and otherwise receives the transferred size on success and 0 on failure |
| RequestTarget.RequestTargetModule.ReuseSend | Dmf/Modules.Library/Dmf_RequestTarget.c:2336-2432 | corrected (see ## Findings): inherits DispatchRequest's timer-failure removal; an unknown or busy token fails with STATUS_OBJECTID_NOT_FOUND; a cancel token only after an accepted send, new and finding the reused request; a failure leaves nothing in flight, deletes the memory this call created and leaves every in-use flag as it was |
| ScheduledTask.RetryPeriod | Dmf/Modules.Library/Dmf_ScheduledTask.c:144-179 | SuccessButTryAgain re-arms with TimerPeriodMsOnSuccess, FailButTryAgain with TimerPeriodMsOnFail |
| ScheduledTask.RestartTimer | Dmf/Modules.Library/Dmf_ScheduledTask.c:112-185 | nothing changes when retries are disabled or the rundown refuses; otherwise the timer is started with the retry period, and only the timer fields change |
| ScheduledTask.DoClientWork | Dmf/Modules.Library/Dmf_ScheduledTask.c:187-353 | persisted TimesRun >= 1 or WorkIsCompleted returns Success without calling the client; Success sets WorkIsCompleted (and TimesRun 1 when persistent); Fail changes nothing; a retry restarts the timer; completion is never undone |
| ScheduledTask.FireTimer | Dmf/Modules.Library/Dmf_ScheduledTask.c:356-408 | the fired timer is idle afterwards unless the callback ran and asked to retry |
| ScheduledTask.OnDemandCall | Dmf/Modules.Library/Dmf_ScheduledTask.c:447-494 | without a rundown reference nothing happens; the legacy path logs a caller call and ignores the result; the Ex path runs ClientWorkDo |
| ScheduledTask.OnDemandLoop | Dmf/Modules.Library/Dmf_ScheduledTask.c:447-494 | the loop ends with the pending count at 0, keeps the module invariants and never undoes completion |
| ScheduledTask.RunOnDemand | Dmf/Modules.Library/Dmf_ScheduledTask.c:411-497 | the work item leaves nothing pending and is no longer queued |
| ScheduledTask.DeferWork | Dmf/Modules.Library/Dmf_ScheduledTask.c:1286-1315 | only the 0-to-1 transition queues the work item; a refused rundown restores the count and returns STATUS_UNSUCCESSFUL; otherwise STATUS_SUCCESS and one more pending call |
| ScheduledTask.StartWork | Dmf/Modules.Library/Dmf_ScheduledTask.c:554-605 | an untriggered hook does nothing; a triggered hook clears DisableRetries; Deferred mode queues the timer only if it is not started; Immediate mode fails with STATUS_UNSUCCESSFUL unless the result is Success or SuccessButTryAgain |
| ScheduledTask.StopWorkAsWritten | Dmf/Modules.Library/Dmf_ScheduledTask.c:663-670 | a triggered stop idles the timer and disables retries but leaves TimerIsStarted as it was |
| ScheduledTask.StopWork | Dmf/Modules.Library/Dmf_ScheduledTask.c:829-836 | corrected (see ## Findings): a triggered stop idles the timer and disables retries as the source does, and also clears TimerIsStarted, which the source does not; nothing else changes |
| ScheduledTask.CancelTask | Dmf/Modules.Library/Dmf_ScheduledTask.c:1184-1198 | after Cancel the rundown refuses, nothing is pending or queued and the timer is stopped |
| ScheduledTask.ConsistentAfterEvent | Dmf/Modules.Library/Dmf_ScheduledTask.c:43-87 | corrected (see ## Findings): with the corrected stop, every operation keeps the timer flag in step with the timer, completion recorded, and the work item queued iff calls are pending |
| ScheduledTask.OnDemandLoopAfterWorkDone | Dmf/Modules.Library/Dmf_ScheduledTask.c:447-494 | once the work is done the on-demand loop keeps it done and invokes the callback only with callers' contexts |
| ScheduledTask.WorkDoneIsFinal | Dmf/Modules.Library/Dmf_ScheduledTask.c:227-268 | once the work is done it stays done, and no operation invokes the callback with the configured context again |
| ScheduledTask.WorkIsCompletedIsWriteOnce | Dmf/Modules.Library/Dmf_ScheduledTask.c:276-294 | WorkIsCompleted is never cleared |
| ScheduledTask.ClosedRundownOnlyDrains | Dmf/Modules.Library/Dmf_ScheduledTask.c:447-494 | with the rundown ended, the on-demand loop only drains the pending count |
| ScheduledTask.CancelInvokesNothing | Dmf/Modules.Library/Dmf_ScheduledTask.c:1149-1202 | Cancel ends the rundown, drains pending calls and stops the timer without invoking the callback or touching the work |
| ScheduledTask.LegacyOnDemandIgnoresResults | Dmf/Modules.Library/Dmf_ScheduledTask.c:465-494 | the legacy path calls the callback once per pending call with the saved context, whatever it returns, and changes nothing else |
| ScheduledTask.StopThenStartRequeuesTimer | Dmf/Modules.Library/Dmf_ScheduledTask.c:570-580 | corrected: after a stop hook, the next Deferred start hook queues the timer with TimeMsBeforeInitialCall |
| ScheduledTask.StopAsWrittenNeverRequeues | Dmf/Modules.Library/Dmf_ScheduledTask.c:665-669 | as written, a stop hook that interrupts a queued timer leaves the next Deferred start hook queuing nothing, although TimerIsStarted says started |
| ScheduledTask.StopAsWrittenExample | Dmf/Modules.Library/Dmf_ScheduledTask.c:738-748 | a concrete run where the timer armed at PrepareHardware is lost across ReleaseHardware |
| ScheduledTask.ScheduledTaskModule.constructor | Dmf/Modules.Library/Dmf_ScheduledTask.c:848-947 | the module after Open: nothing done, timer idle, rundown open, TimesRun as read from the registry |
| ScheduledTask.ScheduledTaskModule.TimerRestart | Dmf/Modules.Library/Dmf_ScheduledTask.c:112-185 | the fields move as RestartTimer says |
| ScheduledTask.ScheduledTaskModule.ClientWorkDo | Dmf/Modules.Library/Dmf_ScheduledTask.c:187-353 | the fields and result are DoClientWork's |
| ScheduledTask.ScheduledTaskModule.TimerHandler | Dmf/Modules.Library/Dmf_ScheduledTask.c:356-408 | the fields move as FireTimer says and the invariant is kept |
| ScheduledTask.ScheduledTaskModule.OnDemandCallOnce | Dmf/Modules.Library/Dmf_ScheduledTask.c:447-480 | one pass of the handler's loop, as OnDemandCall says |
| ScheduledTask.ScheduledTaskModule.DrainPendingCalls | Dmf/Modules.Library/Dmf_ScheduledTask.c:447-494 | the do/while loop decrements once per pass and ends as OnDemandLoop says |
| ScheduledTask.ScheduledTaskModule.DeferredHandlerOnDemand | Dmf/Modules.Library/Dmf_ScheduledTask.c:411-497 | the work item's handler, as RunOnDemand says, keeping the invariant |
| ScheduledTask.ScheduledTaskModule.StartHook | Dmf/Modules.Library/Dmf_ScheduledTask.c:554-605 | the shared start hook, as StartWork says |
| ScheduledTask.ScheduledTaskModule.StopHook | Dmf/Modules.Library/Dmf_ScheduledTask.c:663-670 | corrected (see ## Findings): the shared stop hook, as StopWork says (TimerIsStarted cleared) |
| ScheduledTask.ScheduledTaskModule.PrepareHardware | Dmf/Modules.Library/Dmf_ScheduledTask.c:505-614 | the start hook, triggered when ExecuteWhen is PrepareHardware; the invariant is kept |
| ScheduledTask.ScheduledTaskModule.ReleaseHardware | Dmf/Modules.Library/Dmf_ScheduledTask.c:617-676 | corrected (see ## Findings): the corrected stop hook, triggered when ExecuteWhen is PrepareHardware; the invariant is kept |
| ScheduledTask.ScheduledTaskModule.D0Entry | Dmf/Modules.Library/Dmf_ScheduledTask.c:678-784 | the start hook, triggered when ExecuteWhen is D0Entry; the invariant is kept |
| ScheduledTask.ScheduledTaskModule.D0Exit | Dmf/Modules.Library/Dmf_ScheduledTask.c:786-841 | corrected (see ## Findings): the corrected stop hook, triggered when ExecuteWhen is D0Entry; the invariant is kept |
| ScheduledTask.ScheduledTaskModule.Cancel | Dmf/Modules.Library/Dmf_ScheduledTask.c:1149-1202 | the fields move as CancelTask says |
| ScheduledTask.ScheduledTaskModule.Restart | Dmf/Modules.Library/Dmf_ScheduledTask.c:1380-1413 | the rundown accepts references again |
| ScheduledTask.ScheduledTaskModule.ExecuteNow | Dmf/Modules.Library/Dmf_ScheduledTask.c:1204-1247 | the callback runs once with the caller's context and nothing else changes |
| ScheduledTask.ScheduledTaskModule.ExecuteNowDeferred | Dmf/Modules.Library/Dmf_ScheduledTask.c:1249-1316 | the fields and status are DeferWork's with the caller's context |
| ScheduledTask.ScheduledTaskModule.ExecuteNowDeferredEx | Dmf/Modules.Library/Dmf_ScheduledTask.c:1318-1378 | the fields and status are DeferWork's without a context |
| IoctlHandler.FirstMatch | Dmf/Modules.Library/Dmf_IoctlHandler.c:371-377 | the index of the first record with the request's code; no earlier record has it; the table's length iff no record has it |
| IoctlHandler.LaterRecordsIrrelevant | Dmf/Modules.Library/Dmf_IoctlHandler.c:371-377 | records after the first match never change which record is used |
| IoctlHandler.RetrieveBuffer | Dmf/Modules.Library/Dmf_IoctlHandler.c:447-450 | retrieval succeeds iff there is no other fault and the length is non-zero and at least the minimum |
| IoctlHandler.AcceptBuffer | Dmf/Modules.Library/Dmf_IoctlHandler.c:447-489 | a retrieved buffer is passed with its length; a too-small buffer with minimum 0 falls through as NULL with size 0; any other failure stops with the retrieval's status |
| IoctlHandler.HandleMatched | Dmf/Modules.Library/Dmf_IoctlHandler.c:385-507 | a user-mode sender on a kernel-only module, or a non-administrator on an administrator-only record, gets STATUS_ACCESS_DENIED without a handler call; once the checks pass and both buffers are accepted, the handler is called with the record's index and both sizes, and its status and byte count are used; otherwise the first failing buffer's status is returned without a call |
| IoctlHandler.Unhandled | Dmf/Modules.Library/Dmf_IoctlHandler.c:531-548 | an unhandled request is forwarded and reported handled iff ForwardUnhandledRequests is set; otherwise it is left alone and FALSE returned |
| IoctlHandler.Dispatch | Dmf/Modules.Library/Dmf_IoctlHandler.c:276-554 | a request routed elsewhere or matching no record is the unhandled case; otherwise the first matching record's handling (HandleMatched) decides the call and the outcome; the handler called is the first matching record's, only after the access checks pass; a handled request is completed with its status and byte count unless STATUS_PENDING leaves it pending; a request is forwarded, or not handled, iff it is routed to another instance or matches no record |
| IoctlHandler.MatchedRequestIsHandled | Dmf/Modules.Library/Dmf_IoctlHandler.c:371-402 | a request some record matches is handled whatever error follows; a user-mode request on a kernel-only module is completed with STATUS_ACCESS_DENIED |
| IoctlHandler.RouteOf | Dmf/Modules.Library/Dmf_IoctlHandler.c:617-676 | with a reference string and a file object, a name of at most one character, or a name equal after its first character (compared case-sensitively), is taken; any other name belongs to another instance |
| IoctlHandler.AdmitFile | Dmf/Modules.Library/Dmf_IoctlHandler.c:679-792 | AdministratorOnly refuses with STATUS_ACCESS_DENIED unless context, token and administrator are all there; per-IOCTL mode records only an administrator's file object and admits everyone else; the client filter decides in ClientCallback mode |
| IoctlHandler.CreateFile | Dmf/Modules.Library/Dmf_IoctlHandler.c:561-820 | a name for another instance is not handled and changes nothing; a taken file object is added to the associated list, or the create fails with the add's status; the administrator list grows only in per-IOCTL mode, by this file object |
| IoctlHandler.CleanupFile | Dmf/Modules.Library/Dmf_IoctlHandler.c:865-923 | with a reference string the file object leaves the associated list, and cleanup stops if it was not there; it leaves the administrator list only in per-IOCTL mode |
| IoctlHandler.CleanupThenCloseIsCleanup | Dmf/Modules.Library/Dmf_IoctlHandler.c:932-967 | the second run of the cleanup from FileClose changes nothing |
| IoctlHandler.AssociatedFileIsServed | Dmf/Modules.Library/Dmf_IoctlHandler.c:345-369 | a file object this instance took at create is served by it afterwards |
| IoctlHandler.AdministratorAccessLastsUntilCleanup | Dmf/Modules.Library/Dmf_IoctlHandler.c:731-760 | in per-IOCTL mode an administrator's file object passes the administrator check until its cleanup removes it |
| IoctlHandler.RefusedCreateStaysAssociated | Dmf/Modules.Library/Dmf_IoctlHandler.c:617-677 | a create refused in AdministratorOnly mode still leaves its file object in the associated list |
| IoctlHandler.InterfaceCreateStatus | Dmf/Modules.Library/Dmf_IoctlHandler.c:140-207 | a failed interface creation returns its status; otherwise the client's post-create callback's status, if there is one |
| IoctlHandler.IoctlHandlerModule.constructor | Dmf/Modules.Library/Dmf_IoctlHandler.c:980-1114 | after Open both lists are empty; the interface is created unless in manual mode, where it is disabled |
| IoctlHandler.IoctlHandlerModule.LookUp | Dmf/Modules.Library/Dmf_IoctlHandler.c:242-263 | returns TRUE iff the file object is in the list; with DeleteIfFound exactly its first entry is removed, otherwise the list is unchanged |
| IoctlHandler.IoctlHandlerModule.AssociatedFileObjectsLookUp | Dmf/Modules.Library/Dmf_IoctlHandler.c:210-264 | the lookup on the associated list, changing nothing else |
| IoctlHandler.IoctlHandlerModule.IsAdministrator | Dmf/Modules.Library/Dmf_IoctlHandler.c:406-437 | the scan finds the request's file object iff it is in the administrator list |
| IoctlHandler.IoctlHandlerModule.ModuleDeviceIoControl | Dmf/Modules.Library/Dmf_IoctlHandler.c:276-554 | the routing, table loop and exit compute exactly Dispatch |
| IoctlHandler.IoctlHandlerModule.HandleRecord | Dmf/Modules.Library/Dmf_IoctlHandler.c:385-507 | the loop body for the matched record computes exactly HandleMatched |
| IoctlHandler.IoctlHandlerModule.FileCreate | Dmf/Modules.Library/Dmf_IoctlHandler.c:561-820 | the result, the status and the two lists are CreateFile's |
| IoctlHandler.IoctlHandlerModule.FileCleanup | Dmf/Modules.Library/Dmf_IoctlHandler.c:828-925 | always returns FALSE; the lists are CleanupFile's |
| IoctlHandler.IoctlHandlerModule.FileClose | Dmf/Modules.Library/Dmf_IoctlHandler.c:932-967 | returns FileCleanup's FALSE, with the same effect |
| IoctlHandler.IoctlHandlerModule.DeviceInterfaceCreate | Dmf/Modules.Library/Dmf_IoctlHandler.c:140-207 | the interface counts as created once WdfDeviceCreateDeviceInterface succeeds; the status is InterfaceCreateStatus |
| IoctlHandler.IoctlHandlerModule.IoctlStateSet | Dmf/Modules.Library/Dmf_IoctlHandler.c:1260-1326 | in manual mode the first enable creates the interface; the interface state is set to the request unless that creation failed |

## Left out

- Framework calls are not modelled. WdfRequestCreate, the memory, format, send, timer and cancel calls, collection allocation and WdfObject reference counts are inputs, not code.
- Concurrency is not modelled. Locks, interlocked operations, rundown protection, and timer and work-item scheduling run in sequence. No freedom from races is claimed.
- The 64-bit token counter and the LONG pending-call counter are unbounded integers. Their wrap-around is not modelled.
- Passive-level completion is collapsed. The work item that moves completion to passive level is skipped, and the completion step is called directly.
- The buffer pool is not fully modelled. A context taken from the pool is counted, and the failure paths that do not return it are kept as written. Its contents are not modelled.
- RequestTarget.RequestTargetModule.RequestSendReuse: only the asynchronous reuse send is modelled, because every caller in the module passes FALSE for the synchronous flag.
- DMF_RequestTarget_Close and its polling delay loop are not modelled, because they only wait for the lists to empty. Open and Create are not modelled either: they are descriptor boilerplate.
- The user-mode build is not modelled; the kernel-mode build is. This matters for InternalIoctl and the token-based administrator check.
- Registry I/O is not modelled. DMF_ScheduledTask_TimesRunGet/Set become the persistent TimesRun field. A read failure counts as 0, and a registry write is assumed to succeed.
- ScheduledTask.ScheduledTaskModule.constructor does not model Open's failure paths or DMF_ScheduledTask_Close's timer and work-item teardown, because they create and delete framework objects.
- Security and OS queries are inputs. SeTokenIsAdmin, the requestor mode, the security context and token, DMF_ModuleIsInFilterDriver and DMF_ModuleRequestCompleteOrForward are parameters.
- IoctlHandler.IoctlHandlerModule.constructor does not model Open's failures, GUID and queue checks, or the user-mode build. The reference string counts as set only when a device interface GUID is configured too.
- The default branch of FileCreate is not modelled. It handles an out-of-range AccessModeFilter, and the datatype admits no such value.
- Buffer contents are not modelled. The IOCTL handler is called with sizes only, and its status and byte count are inputs.
- CompletionBuffers: the DmfAssert that an IOCTL's Output.Length fits its output buffer is not modelled; the length is passed through as reported.
- SendContract: every send assumes the framework's promise that a WdfRequestSend returning FALSE leaves the request with a failure status.
- DispatchRequest: models the corrected program: a WdfRequestAllocateTimer failure removes the request from the pending list, where the source leaves it listed.
- SubmitRequest: models the corrected timer-failure path of DispatchRequest.
- RequestSendReuse: models the corrected timer-failure path of DispatchRequest.
- SendReusedRequest: models the corrected timer-failure path of DispatchRequest.
- RequestCreateAndSend: models the corrected timer-failure path of DispatchRequest.
- SendCreatedRequest: models the corrected timer-failure path of DispatchRequest.
- SendEx: models the corrected timer-failure path of DispatchRequest.
- SendAsynchronously: models the corrected timer-failure path of DispatchRequest.
- ReuseSend: models the corrected timer-failure path of DispatchRequest.
- StopWork: models the corrected program: it clears TimerIsStarted, which ReleaseHardware and D0Exit leave set.
- StopHook: models the corrected stop of StopWork.
- ReleaseHardware: runs the corrected stop of StopWork.
- D0Exit: runs the corrected stop of StopWork.
- ConsistentAfterEvent: is proved for the corrected stop; the stop as written breaks the timer-flag invariant.

## Findings

| source | as written | input that shows it | evidently intended | confidence | as-written member | corrected member |
|---|---|---|---|---|---|---|
| Dmf/Modules.Library/Dmf_RequestTarget.c:1558-1577 | after the request is added to the pending list, a WdfRequestAllocateTimer failure jumps to the exit, which does not remove it (same at 1249-1268 for reuse) | an asynchronous SendEx asking for a cancel token whose timer allocation fails | every failure after the list add removes the entry, as a failed WdfRequestSend does | not executed; high | RequestTarget.TimerFailureLeavesPendingEntry | RequestTarget.PendingAfterSendListsOnlyAccepted |
| Dmf/Modules.Library/Dmf_ScheduledTask.c:665-669 | ReleaseHardware (and D0Exit at 831-835) stops the timer but leaves TimerIsStarted TRUE, so the next deferred PrepareHardware (570-580) or D0Entry never queues the timer again | Deferred mode, PrepareHardware queues the timer, ReleaseHardware runs before it fires, then PrepareHardware runs again | stopping the timer clears TimerIsStarted, as Cancel (1196-1198) and Close (995) do, so the timer is restarted on PrepareHardware | not executed; medium | ScheduledTask.StopAsWrittenNeverRequeues | ScheduledTask.StopThenStartRequeuesTimer |
