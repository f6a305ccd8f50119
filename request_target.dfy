/**
 * The RequestTarget module: it creates (or reuses) WDF requests, attaches the
 * client's buffers, formats them for the I/O target, sends them
 * synchronously or asynchronously, keeps a list of asynchronous requests that
 * can be cancelled by a token, and a list of requests the client created for
 * reuse.
 *
 * Every call into the framework is an input here: WdfOutcomes says what each
 * framework call returns on one pass through a method. The I/O target's
 * completion of an asynchronous request is the method
 * ProcessAsynchronousRequest, called with what the target reports.
 */
module RequestTarget {
  import opened NtStatus
  import Collection

  /** A WDFREQUEST handle (never NULL). */
  type Request = nat
  /** A WDFIOTARGET handle (never NULL). */
  type IoTarget = nat

  /** A WDFMEMORY and the size of the buffer it describes. */
  datatype Memory = Memory(handle: nat, capacity: nat)

  /** ContinuousRequestTarget_RequestType; UnknownType is any other value. */
  datatype RequestType = Read | Write | Ioctl | InternalIoctl | UnknownType

  /**
   * ContinuousRequestTarget_CompletionOptions. The Default option has the
   * value of Dispatch, so two choices remain: complete at dispatch level, or
   * hop to passive level through a work item.
   */
  datatype CompletionOption = Dispatch | Passive

  /** UNIQUE_REQUEST: the context of every request this module creates. */
  datatype UniqueRequest = UniqueRequest(cancelId: int, reuseId: int, inUse: bool)

  /** The client's completion routine and the context it is called with. */
  datatype Callback = Callback(routine: nat, clientContext: nat)

  /** RequestTarget_SingleAsynchronousRequestContext, plus which completion routine was set. */
  datatype SingleRequestContext =
    SingleRequestContext(requestType: RequestType, callback: Option<Callback>,
                         completion: CompletionOption, reuse: bool)

  /** What the client asks to send. */
  datatype SendParams =
    SendParams(requestLength: nat, responseLength: nat, requestType: RequestType,
               ioctlCode: nat, timeoutMs: nat, callback: Option<Callback>)

  /**
   * What each framework call returns on one pass through a send or create
   * method: DMF_ModuleReference, WdfRequestCreate (and the new handle),
   * WdfRequestReuse, the two WdfMemoryCreatePreallocated calls (and the new
   * handles), WdfIoTargetFormatRequestFor*, DMF_BufferPool_Get,
   * WdfCollectionAdd, WdfRequestAllocateTimer, WdfRequestSend, and
   * WdfRequestGetStatus / WdfRequestGetInformation after a send that failed
   * or was synchronous.
   */
  datatype WdfOutcomes =
    WdfOutcomes(referenceStatus: NtStatus, createStatus: NtStatus, newRequest: Request,
                reuseStatus: NtStatus, requestMemoryStatus: NtStatus, requestMemory: nat,
                responseMemoryStatus: NtStatus, responseMemory: nat, formatStatus: NtStatus,
                poolStatus: NtStatus, listAddStatus: NtStatus, timerStatus: NtStatus,
                sent: bool, completionStatus: NtStatus, information: nat)

  /**
   * The framework's promise about WdfRequestSend: when it returns FALSE the
   * request's status fails NT_SUCCESS.
   */
  predicate SendContract(w: WdfOutcomes)
  {
    w.sent || !NtSuccess(w.completionStatus)
  }

  // ---------------------------------------------------------------------
  // Formatting a request and reading the buffers back at completion.
  // ---------------------------------------------------------------------

  /** How a formatted request carries its buffers to the target. */
  datatype IoLayout =
    | WriteLayout(input: Option<Memory>)
    | ReadLayout(output: Option<Memory>)
    | IoctlLayout(code: nat, input: Option<Memory>, output: Option<Memory>, internal: bool)

  /**
   * RequestTarget_FormatRequestForRequestType: a write carries the request
   * memory, a read the response memory, an IOCTL (internal or not) both and
   * the code; any other type is refused with STATUS_INVALID_PARAMETER.
   * targetStatus is what the framework's format call returns.
   */
  function FormatRequest(t: RequestType, code: nat, input: Option<Memory>, output: Option<Memory>,
                         targetStatus: NtStatus): (r: Result<IoLayout>)
    ensures t.UnknownType? ==> r == Err(STATUS_INVALID_PARAMETER)
    ensures !t.UnknownType? ==> (r.Ok? <==> NtSuccess(targetStatus))
    ensures !t.UnknownType? && r.Err? ==> r.status == targetStatus
    ensures r.Ok? && t.Write? ==> r.value == WriteLayout(input)
    ensures r.Ok? && t.Read? ==> r.value == ReadLayout(output)
    ensures r.Ok? && (t.Ioctl? || t.InternalIoctl?) ==>
              r.value == IoctlLayout(code, input, output, t.InternalIoctl?)
  {
    if t.UnknownType? then Err(STATUS_INVALID_PARAMETER)
    else if !NtSuccess(targetStatus) then Err(targetStatus)
    else match t
      case Write => Ok(WriteLayout(input))
      case Read => Ok(ReadLayout(output))
      case Ioctl => Ok(IoctlLayout(code, input, output, false))
      case InternalIoctl => Ok(IoctlLayout(code, input, output, true))
  }

  /** WDF_REQUEST_COMPLETION_PARAMS, one field per member of the parameter union the module reads. */
  datatype CompletionParams =
    CompletionParams(readBuffer: Option<Memory>, readLength: nat,
                     writeBuffer: Option<Memory>, writeLength: nat,
                     ioctlInput: Option<Memory>, ioctlOutput: Option<Memory>, ioctlOutputLength: nat)

  /** The buffers and sizes handed to the client's completion routine. */
  datatype Buffers = Buffers(input: Option<Memory>, inputSize: nat, output: Option<Memory>, outputSize: nat)

  /**
   * RequestTarget_CompletionParamsInputBufferAndOutputBufferGet: everything
   * starts NULL and zero; the request type picks which members of the
   * completion parameters are read.
   */
  function CompletionBuffers(p: CompletionParams, t: RequestType): (b: Buffers)
    ensures !(t.Write? || t.Ioctl? || t.InternalIoctl?) ==> b.input.None? && b.inputSize == 0
    ensures !(t.Read? || t.Ioctl? || t.InternalIoctl?) ==> b.output.None? && b.outputSize == 0
    ensures t.Read? ==> b == Buffers(None, 0, p.readBuffer, p.readLength)
    ensures t.Write? ==> b == Buffers(p.writeBuffer, p.writeLength, None, 0)
    ensures t.Ioctl? || t.InternalIoctl? ==>
              && b.input == p.ioctlInput && b.output == p.ioctlOutput
              && (p.ioctlInput.Some? ==> b.inputSize == p.ioctlInput.value.capacity)
              && (p.ioctlInput.None? ==> b.inputSize == 0)
              && (p.ioctlOutput.Some? ==> b.outputSize == p.ioctlOutputLength)
              && (p.ioctlOutput.None? ==> b.outputSize == 0)
  {
    match t
      case Read => Buffers(None, 0, p.readBuffer, p.readLength)
      case Write => Buffers(p.writeBuffer, p.writeLength, None, 0)
      case Ioctl | InternalIoctl =>
        Buffers(p.ioctlInput, if p.ioctlInput.Some? then p.ioctlInput.value.capacity else 0,
                p.ioctlOutput, if p.ioctlOutput.Some? then p.ioctlOutputLength else 0)
      case UnknownType => Buffers(None, 0, None, 0)
  }

  /**
   * The completion parameters the framework reports for a request of the
   * given layout that transferred n bytes (the request's Information).
   */
  function TargetCompletion(l: IoLayout, n: nat): CompletionParams
  {
    match l
      case WriteLayout(input) => CompletionParams(None, 0, input, n, None, None, 0)
      case ReadLayout(output) => CompletionParams(output, n, None, 0, None, None, 0)
      case IoctlLayout(_, input, output, _) => CompletionParams(None, 0, None, 0, input, output, n)
  }

  /**
   * Format, then read back at completion: the client's completion routine
   * receives exactly the memory the request was sent with, in the same
   * direction, and the transferred size for the data the target produced or
   * consumed.
   */
  lemma FormatThenCompletionBuffers(t: RequestType, code: nat, input: Option<Memory>, output: Option<Memory>,
                                    targetStatus: NtStatus, n: nat)
    requires FormatRequest(t, code, input, output, targetStatus).Ok?
    ensures var b := CompletionBuffers(TargetCompletion(FormatRequest(t, code, input, output, targetStatus).value, n), t);
            && (t.Write? ==> b == Buffers(input, n, None, 0))
            && (t.Read? ==> b == Buffers(None, 0, output, n))
            && (t.Ioctl? || t.InternalIoctl? ==>
                  b.input == input && b.output == output &&
                  b.inputSize == (if input.Some? then input.value.capacity else 0) &&
                  b.outputSize == (if output.Some? then n else 0))
  {
  }

  // ---------------------------------------------------------------------
  // The steps of a send, in the order the module takes them.
  // ---------------------------------------------------------------------

  /** The number of memory objects a send creates under its request. */
  function MemoryCount(p: SendParams): nat
  {
    (if p.requestLength > 0 then 1 else 0) + (if p.responseLength > 0 then 1 else 0)
  }

  datatype Step = Create | Reuse | RequestMemory | ResponseMemory | Format | Pool | ListAdd | Timer

  /** How far a send got: the first step that failed and its status, or the call to WdfRequestSend. */
  datatype Stage = FailedAt(step: Step, status: NtStatus) | Submitted(accepted: bool)

  /** The memory a send wraps around the client's request buffer (none for an empty buffer). */
  function RequestMemoryOf(p: SendParams, w: WdfOutcomes): Option<Memory>
  {
    if p.requestLength > 0 then Some(Memory(w.requestMemory, p.requestLength)) else None
  }

  /** The memory a send wraps around the client's response buffer (none for an empty buffer). */
  function ResponseMemoryOf(p: SendParams, w: WdfOutcomes): Option<Memory>
  {
    if p.responseLength > 0 then Some(Memory(w.responseMemory, p.responseLength)) else None
  }

  /**
   * The steps shared by a new and a reused request, from the memory objects
   * to WdfRequestSend: each failing step ends the send with its status.
   */
  function SubmitStage(synchronous: bool, p: SendParams, wantCancelId: bool, w: WdfOutcomes): (s: Stage)
    ensures s.FailedAt? ==> !NtSuccess(s.status)
    ensures s.FailedAt? && s.step == Pool ==> !synchronous
    ensures s.FailedAt? && s.step == ListAdd ==> !synchronous && wantCancelId
    ensures s.Submitted? ==> s.accepted == w.sent && NtSuccess(w.timerStatus) && MemoriesCreated(p, w)
  {
    var format := FormatRequest(p.requestType, p.ioctlCode, RequestMemoryOf(p, w), ResponseMemoryOf(p, w), w.formatStatus);
    if !MemoriesCreated(p, w) then FailedAt(MemoryFailedStep(p, w), MemoryFailedStatus(p, w))
    else if format.Err? then FailedAt(Format, format.status)
    else DispatchStage(synchronous, wantCancelId, w)
  }

  /**
   * The steps after formatting: a pool context (asynchronous only), a cancel
   * token and the pending-list add (when the caller asked for a token), the
   * timer, and WdfRequestSend.
   */
  function DispatchStage(synchronous: bool, wantCancelId: bool, w: WdfOutcomes): (s: Stage)
    ensures s.FailedAt? ==> !NtSuccess(s.status) && (s.step == Pool || s.step == ListAdd || s.step == Timer)
    ensures s.Submitted? ==> s.accepted == w.sent && NtSuccess(w.timerStatus)
  {
    if !synchronous && !NtSuccess(w.poolStatus) then FailedAt(Pool, w.poolStatus)
    else if !synchronous && wantCancelId && !NtSuccess(w.listAddStatus) then FailedAt(ListAdd, w.listAddStatus)
    else if !NtSuccess(w.timerStatus) then FailedAt(Timer, w.timerStatus)
    else Submitted(w.sent)
  }

  /** Both WdfMemoryCreatePreallocated calls that were made succeeded. */
  predicate MemoriesCreated(p: SendParams, w: WdfOutcomes)
  {
    !(p.requestLength > 0 && !NtSuccess(w.requestMemoryStatus)) &&
    !(p.responseLength > 0 && !NtSuccess(w.responseMemoryStatus))
  }

  /**
   * The number of memory objects a send leaves under its request: each
   * creation that succeeded before the first one that failed.
   */
  function MemoriesMade(p: SendParams, w: WdfOutcomes): (n: nat)
    ensures n <= MemoryCount(p)
    ensures MemoriesCreated(p, w) ==> n == MemoryCount(p)
  {
    if p.requestLength > 0 && !NtSuccess(w.requestMemoryStatus) then 0
    else (if p.requestLength > 0 then 1 else 0) +
         (if p.responseLength > 0 && NtSuccess(w.responseMemoryStatus) then 1 else 0)
  }

  /** The memory step that failed first. */
  function MemoryFailedStep(p: SendParams, w: WdfOutcomes): Step
  {
    if p.requestLength > 0 && !NtSuccess(w.requestMemoryStatus) then RequestMemory else ResponseMemory
  }

  /** The status of the memory step that failed first. */
  function MemoryFailedStatus(p: SendParams, w: WdfOutcomes): (s: NtStatus)
    requires !MemoriesCreated(p, w)
    ensures !NtSuccess(s)
  {
    if p.requestLength > 0 && !NtSuccess(w.requestMemoryStatus) then w.requestMemoryStatus else w.responseMemoryStatus
  }

  /** RequestTarget_RequestCreateAndSend: WdfRequestCreate, then the shared steps. */
  function CreateAndSendStage(synchronous: bool, p: SendParams, wantCancelId: bool, w: WdfOutcomes): Stage
  {
    if !NtSuccess(w.createStatus) then FailedAt(Create, w.createStatus)
    else SubmitStage(synchronous, p, wantCancelId, w)
  }

  /**
   * RequestTarget_RequestSendReuse (always asynchronous): the reuse token must
   * name an idle request of the reuse list, then WdfRequestReuse, then the
   * shared steps.
   */
  function ReuseSendStage(found: bool, p: SendParams, wantCancelId: bool, w: WdfOutcomes): Stage
  {
    if !found then FailedAt(Reuse, STATUS_OBJECTID_NOT_FOUND)
    else if !NtSuccess(w.reuseStatus) then FailedAt(Reuse, w.reuseStatus)
    else SubmitStage(false, p, wantCancelId, w)
  }

  /**
   * The status a send returns: the failing step's status; after
   * WdfRequestSend, the request's own status when the send was refused or
   * synchronous, and the status of the last step otherwise.
   */
  function SendStatus(s: Stage, synchronous: bool, w: WdfOutcomes): NtStatus
  {
    match s
      case FailedAt(_, status) => status
      case Submitted(accepted) => if accepted && !synchronous then w.timerStatus else w.completionStatus
  }

  /** Whether the send reached the point where a cancel token was drawn from the counter. */
  predicate CancelIdDrawn(s: Stage, synchronous: bool, wantCancelId: bool)
  {
    !synchronous && wantCancelId && (s.Submitted? || s.step == ListAdd || s.step == Timer)
  }

  /** Whether the send took a context from the buffer pool. */
  predicate PoolContextTaken(s: Stage, synchronous: bool)
  {
    !synchronous && (s.Submitted? || s.step == ListAdd || s.step == Timer)
  }

  /** The request is now owned by the target: an asynchronous send it accepted. */
  predicate InFlightAfter(s: Stage, synchronous: bool)
  {
    !synchronous && s == Submitted(true)
  }

  /**
   * The pending (cancellable) list after a send of request r: r is listed
   * exactly when it went out asynchronously with a cancel token; every
   * failure after the list add takes the entry out again.
   */
  function PendingAfterSend(pending: seq<Request>, r: Request, s: Stage, synchronous: bool,
                            wantCancelId: bool): seq<Request>
  {
    if InFlightAfter(s, synchronous) && wantCancelId then pending + [r] else pending
  }

  /**
   * The pending list after a send as the source writes it: a failure of
   * WdfRequestAllocateTimer jumps to the exit after the list add without
   * removing the entry.
   */
  function PendingAfterSendAsWritten(pending: seq<Request>, r: Request, s: Stage, synchronous: bool,
                                     wantCancelId: bool): seq<Request>
  {
    if !synchronous && wantCancelId && (s == Submitted(true) || (s.FailedAt? && s.step == Timer))
    then pending + [r]
    else pending
  }

  /**
   * As written, every asynchronous send with a cancel token whose timer
   * allocation fails, of a new or of a reused request, returns a failure
   * and leaves the request in the pending list although the target never
   * received it; the corrected list does not hold it.
   */
  lemma TimerFailureLeavesPendingEntry(pending: seq<Request>, r: Request, p: SendParams, w: WdfOutcomes, s: Stage)
    requires s == CreateAndSendStage(false, p, true, w) || s == ReuseSendStage(true, p, true, w)
    requires s.FailedAt? && s.step == Timer
    requires r !in pending
    ensures !NtSuccess(SendStatus(s, false, w)) && !InFlightAfter(s, false)
    ensures r in PendingAfterSendAsWritten(pending, r, s, false, true)
    ensures r !in PendingAfterSend(pending, r, s, false, true)
  {
  }

  /** A concrete send that the timer failure leaves listed: request 7, a read, with a cancel token. */
  lemma TimerFailureExample()
    ensures var p := SendParams(0, 0, Read, 0, 0, None);
            var w := WdfOutcomes(0, 0, 7, 0, 0, 0, 0, 0, 0, 0, 0, STATUS_UNSUCCESSFUL, false, STATUS_UNSUCCESSFUL, 0);
            var s := CreateAndSendStage(false, p, true, w);
            && !NtSuccess(SendStatus(s, false, w))
            && !InFlightAfter(s, false)
            && 7 in PendingAfterSendAsWritten([], 7, s, false, true)
  {
  }

  /**
   * Corrected: after any send, the request is in the pending list exactly
   * when the target accepted it asynchronously with a cancel token, and the
   * rest of the list is untouched.
   */
  lemma PendingAfterSendListsOnlyAccepted(pending: seq<Request>, r: Request, s: Stage,
                                         synchronous: bool, wantCancelId: bool)
    requires r !in pending
    ensures var after := PendingAfterSend(pending, r, s, synchronous, wantCancelId);
            && (r in after <==> InFlightAfter(s, synchronous) && wantCancelId)
            && (forall x :: x != r ==> (x in after <==> x in pending))
            && Collection.RemoveFirst(after, r) == pending
  {
    if InFlightAfter(s, synchronous) && wantCancelId {
      Collection.RemoveFirstOfAppended(pending, r);
    }
  }

  /** A send succeeds exactly when every step succeeded and the request completed or went out. */
  lemma SendStatusSuccess(synchronous: bool, p: SendParams, wantCancelId: bool, w: WdfOutcomes)
    requires SendContract(w)
    ensures var s := CreateAndSendStage(synchronous, p, wantCancelId, w);
            NtSuccess(SendStatus(s, synchronous, w)) <==>
              s.Submitted? && (if synchronous then NtSuccess(w.completionStatus) else w.sent)
  {
  }

  /**
   * An asynchronous send, new or reused, returns success exactly when the
   * target took the request: the caller keeps its module reference and the
   * completion routine will run exactly in that case.
   */
  lemma AsynchronousSendSucceedsIffInFlight(found: bool, p: SendParams, wantCancelId: bool, w: WdfOutcomes)
    requires SendContract(w)
    ensures var s := CreateAndSendStage(false, p, wantCancelId, w);
            NtSuccess(SendStatus(s, false, w)) <==> InFlightAfter(s, false)
    ensures var s := ReuseSendStage(found, p, wantCancelId, w);
            NtSuccess(SendStatus(s, false, w)) <==> InFlightAfter(s, false)
  {
  }

  // ---------------------------------------------------------------------
  // Looking requests up by token.
  // ---------------------------------------------------------------------

  /** The first request of the list whose cancel token is the given one. */
  function FindByCancelId(list: seq<Request>, requests: map<Request, UniqueRequest>, token: int): (r: Option<Request>)
    requires forall x :: x in list ==> x in requests
    ensures r.Some? ==> r.value in list && requests[r.value].cancelId == token
    ensures r.None? <==> forall x :: x in list ==> requests[x].cancelId != token
  {
    if |list| == 0 then None
    else if requests[list[0]].cancelId == token then Some(list[0])
    else FindByCancelId(list[1..], requests, token)
  }

  /** The first request of the list whose reuse token is the given one. */
  function FindByReuseId(list: seq<Request>, requests: map<Request, UniqueRequest>, token: int): (r: Option<Request>)
    requires forall x :: x in list ==> x in requests
    ensures r.Some? ==> r.value in list && requests[r.value].reuseId == token
    ensures r.None? <==> forall x :: x in list ==> requests[x].reuseId != token
  {
    if |list| == 0 then None
    else if requests[list[0]].reuseId == token then Some(list[0])
    else FindByReuseId(list[1..], requests, token)
  }

  /** The reuse request a reuse token can claim: the one carrying the token, when it is idle. */
  function ReuseCandidate(list: seq<Request>, requests: map<Request, UniqueRequest>, token: int): (r: Option<Request>)
    requires forall x :: x in list ==> x in requests
    ensures r.Some? ==> r.value in list && requests[r.value].reuseId == token && !requests[r.value].inUse
    ensures r.None? <==> FindByReuseId(list, requests, token).None? ||
                         requests[FindByReuseId(list, requests, token).value].inUse
  {
    var hit := FindByReuseId(list, requests, token);
    if hit.Some? && !requests[hit.value].inUse then hit else None
  }

  /** With tokens strictly increasing, the lookup finds the one request that carries the token. */
  lemma {:induction false} CancelIdNamesOneRequest(list: seq<Request>, requests: map<Request, UniqueRequest>, x: Request)
    requires forall y :: y in list ==> y in requests
    requires forall i, j :: 0 <= i < j < |list| ==> requests[list[i]].cancelId < requests[list[j]].cancelId
    requires x in list
    ensures FindByCancelId(list, requests, requests[x].cancelId) == Some(x)
  {
    if list[0] != x {
      var k :| 0 <= k < |list| && list[k] == x;
      assert requests[list[0]].cancelId < requests[list[k]].cancelId;
      CancelIdNamesOneRequest(list[1..], requests, x);
    }
  }

  /** With tokens strictly increasing, the reuse lookup finds the one request that carries the token. */
  lemma {:induction false} ReuseIdNamesOneRequest(list: seq<Request>, requests: map<Request, UniqueRequest>, x: Request)
    requires forall y :: y in list ==> y in requests
    requires forall i, j :: 0 <= i < j < |list| ==> requests[list[i]].reuseId < requests[list[j]].reuseId
    requires x in list
    ensures FindByReuseId(list, requests, requests[x].reuseId) == Some(x)
  {
    if list[0] != x {
      var k :| 0 <= k < |list| && list[k] == x;
      assert requests[list[0]].reuseId < requests[list[k]].reuseId;
      ReuseIdNamesOneRequest(list[1..], requests, x);
    }
  }


  // ---------------------------------------------------------------------
  // What holds of the module's lists and requests between calls.
  // ---------------------------------------------------------------------

  /** Both lists hold live requests without duplicates; a pending request is one the target owns. */
  ghost predicate ListsHoldLiveRequests(pending: seq<Request>, reuseList: seq<Request>,
                                        requests: map<Request, UniqueRequest>, memoryObjects: multiset<Request>,
                                        inFlight: map<Request, SingleRequestContext>)
  {
    && Collection.NoDup(pending)
    && Collection.NoDup(reuseList)
    && (forall r :: r in pending ==> r in inFlight)
    && (forall r :: r in inFlight ==> r in requests)
    && (forall r :: r in reuseList ==> r in requests)
    && (forall r :: r in memoryObjects ==> r in requests)
  }

  /**
   * A reuse request is in use exactly while the target owns it, any other
   * request is never marked in use, and a request in flight was sent through
   * the reuse path exactly when it is in the reuse list.
   */
  ghost predicate InUseMeansInFlight(reuseList: seq<Request>, requests: map<Request, UniqueRequest>,
                                     inFlight: map<Request, SingleRequestContext>)
  {
    && (forall r :: r in requests ==> (requests[r].inUse <==> r in reuseList && r in inFlight))
    && (forall r :: r in inFlight ==> (inFlight[r].reuse <==> r in reuseList))
  }

  /** Cancel tokens grow strictly along the list. */
  ghost predicate CancelOrdered(list: seq<Request>, requests: map<Request, UniqueRequest>) {
    forall i, j :: 0 <= i < j < |list| ==>
      list[i] in requests && list[j] in requests && requests[list[i]].cancelId < requests[list[j]].cancelId
  }

  /** Reuse tokens grow strictly along the list. */
  ghost predicate ReuseOrdered(list: seq<Request>, requests: map<Request, UniqueRequest>) {
    forall i, j :: 0 <= i < j < |list| ==>
      list[i] in requests && list[j] in requests && requests[list[i]].reuseId < requests[list[j]].reuseId
  }

  /** Every token in a list was drawn from the counter, and tokens grow along each list. */
  ghost predicate TokensFromCounter(pending: seq<Request>, reuseList: seq<Request>,
                                    requests: map<Request, UniqueRequest>, lastId: int)
  {
    && 0 <= lastId
    && (forall r :: r in pending ==> r in requests && 0 < requests[r].cancelId <= lastId)
    && (forall r :: r in reuseList ==> r in requests && 0 < requests[r].reuseId <= lastId)
    && CancelOrdered(pending, requests)
    && ReuseOrdered(reuseList, requests)
  }

  /**
   * The module's bookkeeping between calls: live, duplicate-free lists;
   * in-use flags that match the target's ownership; tokens drawn from the
   * counter (so at most lastId) in increasing order; a pool context held by
   * every request in flight.
   */
  ghost predicate Consistent(pending: seq<Request>, reuseList: seq<Request>,
                             requests: map<Request, UniqueRequest>, memoryObjects: multiset<Request>,
                             inFlight: map<Request, SingleRequestContext>, lastId: int, pool: nat)
  {
    && ListsHoldLiveRequests(pending, reuseList, requests, memoryObjects, inFlight)
    && InUseMeansInFlight(reuseList, requests, inFlight)
    && TokensFromCounter(pending, reuseList, requests, lastId)
    && |inFlight.Keys| <= pool
  }

  /** Drawing tokens and taking pool contexts never breaks consistency. */
  lemma ConsistentWhenCountersGrow(pending: seq<Request>, reuseList: seq<Request>,
                                   requests: map<Request, UniqueRequest>, memoryObjects: multiset<Request>,
                                   inFlight: map<Request, SingleRequestContext>, lastId: int, pool: nat,
                                   lastId': int, pool': nat)
    requires Consistent(pending, reuseList, requests, memoryObjects, inFlight, lastId, pool)
    requires lastId <= lastId' && pool <= pool'
    ensures Consistent(pending, reuseList, requests, memoryObjects, inFlight, lastId', pool')
  {
  }

  /**
   * A newly created request the target accepted: it is live, in flight with
   * a fresh pool context, and listed as pending exactly when it carries a
   * cancel token, which is the newest token drawn.
   */
  lemma ConsistentAfterNewRequestSent(pending: seq<Request>, reuseList: seq<Request>,
                                      requests: map<Request, UniqueRequest>, memoryObjects: multiset<Request>,
                                      inFlight: map<Request, SingleRequestContext>, lastId: int, pool: nat,
                                      r: Request, ctx: SingleRequestContext, cancelId: int, listed: bool,
                                      memories: nat, lastId': int)
    requires Consistent(pending, reuseList, requests, memoryObjects, inFlight, lastId, pool)
    requires r !in requests && !ctx.reuse && lastId <= lastId'
    requires listed ==> lastId < cancelId == lastId'
    ensures Consistent(if listed then pending + [r] else pending, reuseList,
                       requests[r := UniqueRequest(cancelId, 0, false)], memoryObjects[r := memories],
                       inFlight[r := ctx], lastId', pool + 1)
  {
    assert r !in inFlight && r !in pending && r !in reuseList;
    var pending' := if listed then pending + [r] else pending;
    var requests' := requests[r := UniqueRequest(cancelId, 0, false)];
    var inFlight' := inFlight[r := ctx];
    if listed {
      Collection.AddKeepsNoDup(pending, r);
    }
    assert ListsHoldLiveRequests(pending', reuseList, requests', memoryObjects[r := memories], inFlight');
    assert InUseMeansInFlight(reuseList, requests', inFlight');
    assert TokensFromCounter(pending', reuseList, requests', lastId') by {
      forall i, j | 0 <= i < j < |pending'|
        ensures pending'[i] in requests' && pending'[j] in requests' &&
                requests'[pending'[i]].cancelId < requests'[pending'[j]].cancelId
      {
        if j == |pending| {
          assert pending'[i] == pending[i] && pending'[j] == r;
        } else {
          assert pending'[i] == pending[i] && pending'[j] == pending[j];
        }
      }
    }
    assert inFlight'.Keys == inFlight.Keys + {r};
  }

  /**
   * A reuse request the target accepted: it is marked in use, in flight with
   * a fresh pool context, holds the memory of this send as well, and is
   * listed as pending exactly when it carries the newest cancel token.
   */
  lemma ConsistentAfterReuseRequestSent(pending: seq<Request>, reuseList: seq<Request>,
                                        requests: map<Request, UniqueRequest>, memoryObjects: multiset<Request>,
                                        inFlight: map<Request, SingleRequestContext>, lastId: int, pool: nat,
                                        r: Request, ctx: SingleRequestContext, cancelId: int, listed: bool,
                                        memories: nat, lastId': int)
    requires Consistent(pending, reuseList, requests, memoryObjects, inFlight, lastId, pool)
    requires r in reuseList && !requests[r].inUse && ctx.reuse && lastId <= lastId'
    requires listed ==> lastId < cancelId == lastId'
    ensures Consistent(if listed then pending + [r] else pending, reuseList,
                       requests[r := requests[r].(inUse := true, cancelId := cancelId)],
                       memoryObjects[r := memoryObjects[r] + memories],
                       inFlight[r := ctx], lastId', pool + 1)
  {
    assert r !in inFlight && r !in pending;
    var pending' := if listed then pending + [r] else pending;
    var requests' := requests[r := requests[r].(inUse := true, cancelId := cancelId)];
    var inFlight' := inFlight[r := ctx];
    if listed {
      Collection.AddKeepsNoDup(pending, r);
    }
    assert ListsHoldLiveRequests(pending', reuseList, requests', memoryObjects[r := memoryObjects[r] + memories], inFlight');
    assert InUseMeansInFlight(reuseList, requests', inFlight');
    assert TokensFromCounter(pending', reuseList, requests', lastId') by {
      forall i, j | 0 <= i < j < |pending'|
        ensures pending'[i] in requests' && pending'[j] in requests' &&
                requests'[pending'[i]].cancelId < requests'[pending'[j]].cancelId
      {
        if j == |pending| {
          assert pending'[i] == pending[i] && pending'[j] == r;
        } else {
          assert pending'[i] == pending[i] && pending'[j] == pending[j];
        }
      }
      forall i, j | 0 <= i < j < |reuseList|
        ensures reuseList[i] in requests' && reuseList[j] in requests' &&
                requests'[reuseList[i]].reuseId < requests'[reuseList[j]].reuseId
      {
      }
    }
    assert inFlight'.Keys == inFlight.Keys + {r};
  }

  /** An idle reuse request whose send failed keeps consistency whatever token it was given. */
  lemma ConsistentAfterReuseRequestRefused(pending: seq<Request>, reuseList: seq<Request>,
                                           requests: map<Request, UniqueRequest>, memoryObjects: multiset<Request>,
                                           inFlight: map<Request, SingleRequestContext>, lastId: int, pool: nat,
                                           r: Request, cancelId: int, lastId': int, pool': nat)
    requires Consistent(pending, reuseList, requests, memoryObjects, inFlight, lastId, pool)
    requires r in reuseList && !requests[r].inUse && lastId <= lastId' && pool <= pool'
    ensures Consistent(pending, reuseList, requests[r := requests[r].(cancelId := cancelId)],
                       memoryObjects, inFlight, lastId', pool')
  {
    assert r !in inFlight && r !in pending;
  }

  /** Removal keeps cancel tokens increasing along a list. */
  lemma RemoveFirstKeepsCancelOrder(list: seq<Request>, requests: map<Request, UniqueRequest>, r: Request)
    requires CancelOrdered(list, requests)
    ensures CancelOrdered(Collection.RemoveFirst(list, r), requests)
  {
    if r in list {
      var k := Collection.FirstIndex(list, r);
      var after := Collection.RemoveItem(list, k);
      forall i, j | 0 <= i < j < |after|
        ensures after[i] in requests && after[j] in requests && requests[after[i]].cancelId < requests[after[j]].cancelId
      {
        var i' := if i < k then i else i + 1;
        var j' := if j < k then j else j + 1;
        assert after[i] == list[i'] && after[j] == list[j'];
      }
      Collection.RemoveFirstAtFirstIndex(list, r);
    }
  }

  /** Removal keeps reuse tokens increasing along a list. */
  lemma RemoveFirstKeepsReuseOrder(list: seq<Request>, requests: map<Request, UniqueRequest>, r: Request)
    requires ReuseOrdered(list, requests)
    ensures ReuseOrdered(Collection.RemoveFirst(list, r), requests)
  {
    if r in list {
      var k := Collection.FirstIndex(list, r);
      var after := Collection.RemoveItem(list, k);
      forall i, j | 0 <= i < j < |after|
        ensures after[i] in requests && after[j] in requests && requests[after[i]].reuseId < requests[after[j]].reuseId
      {
        var i' := if i < k then i else i + 1;
        var j' := if j < k then j else j + 1;
        assert after[i] == list[i'] && after[j] == list[j'];
      }
      Collection.RemoveFirstAtFirstIndex(list, r);
    }
  }

  /**
   * Completion of a request in flight: it leaves the pending list and the
   * target; a reuse request becomes idle again, any other request is
   * deleted with its memory; its pool context is returned.
   */
  lemma ConsistentAfterCompletion(pending: seq<Request>, reuseList: seq<Request>,
                                  requests: map<Request, UniqueRequest>, memoryObjects: multiset<Request>,
                                  inFlight: map<Request, SingleRequestContext>, lastId: int, pool: nat,
                                  r: Request)
    requires Consistent(pending, reuseList, requests, memoryObjects, inFlight, lastId, pool)
    requires r in inFlight
    ensures pool >= 1
    ensures var pending' := Collection.RemoveFirst(pending, r);
            var inFlight' := inFlight - {r};
            if inFlight[r].reuse then
              Consistent(pending', reuseList, requests[r := requests[r].(inUse := false)], memoryObjects,
                         inFlight', lastId, pool - 1)
            else
              Consistent(pending', reuseList, requests - {r}, memoryObjects[r := 0], inFlight', lastId, pool - 1)
  {
    assert inFlight.Keys == (inFlight - {r}).Keys + {r};
    if inFlight[r].reuse {
      ReuseCompletionConsistent(pending, reuseList, requests, memoryObjects, inFlight, lastId, pool, r);
    } else {
      RequestCompletionConsistent(pending, reuseList, requests, memoryObjects, inFlight, lastId, pool, r);
    }
  }

  /** What completion does to the pending list: r leaves it, order and uniqueness stay. */
  lemma PendingAfterCompletion(pending: seq<Request>, requests: map<Request, UniqueRequest>, r: Request)
    requires Collection.NoDup(pending) && forall x :: x in pending ==> x in requests
    requires CancelOrdered(pending, requests)
    ensures var pending' := Collection.RemoveFirst(pending, r);
            && Collection.NoDup(pending') && r !in pending'
            && (forall x :: x in pending' ==> x in pending)
            && CancelOrdered(pending', requests)
  {
    Collection.RemoveFirstNoDup(pending, r);
    Collection.RemoveFirstSubset(pending, r);
    RemoveFirstKeepsCancelOrder(pending, requests, r);
  }

  /** Completion of a reuse request keeps consistency. */
  lemma ReuseCompletionConsistent(pending: seq<Request>, reuseList: seq<Request>,
                                  requests: map<Request, UniqueRequest>, memoryObjects: multiset<Request>,
                                  inFlight: map<Request, SingleRequestContext>, lastId: int, pool: nat,
                                  r: Request)
    requires Consistent(pending, reuseList, requests, memoryObjects, inFlight, lastId, pool)
    requires r in inFlight && inFlight[r].reuse && |(inFlight - {r}).Keys| < |inFlight.Keys|
    ensures Consistent(Collection.RemoveFirst(pending, r), reuseList, requests[r := requests[r].(inUse := false)],
                       memoryObjects, inFlight - {r}, lastId, pool - 1)
  {
    PendingAfterCompletion(pending, requests, r);
    var pending' := Collection.RemoveFirst(pending, r);
    var inFlight' := inFlight - {r};
    var requests' := requests[r := requests[r].(inUse := false)];
    assert ListsHoldLiveRequests(pending', reuseList, requests', memoryObjects, inFlight');
    assert InUseMeansInFlight(reuseList, requests', inFlight');
    assert TokensFromCounter(pending', reuseList, requests', lastId) by {
      forall i, j | 0 <= i < j < |pending'|
        ensures pending'[i] in requests' && pending'[j] in requests' &&
                requests'[pending'[i]].cancelId < requests'[pending'[j]].cancelId
      {
        assert requests[pending'[i]].cancelId < requests[pending'[j]].cancelId;
      }
      forall i, j | 0 <= i < j < |reuseList|
        ensures reuseList[i] in requests' && reuseList[j] in requests' &&
                requests'[reuseList[i]].reuseId < requests'[reuseList[j]].reuseId
      {
      }
    }
  }

  /** Completion of a request that is not reused (it is deleted) keeps consistency. */
  lemma RequestCompletionConsistent(pending: seq<Request>, reuseList: seq<Request>,
                                    requests: map<Request, UniqueRequest>, memoryObjects: multiset<Request>,
                                    inFlight: map<Request, SingleRequestContext>, lastId: int, pool: nat,
                                    r: Request)
    requires Consistent(pending, reuseList, requests, memoryObjects, inFlight, lastId, pool)
    requires r in inFlight && !inFlight[r].reuse && |(inFlight - {r}).Keys| < |inFlight.Keys|
    ensures Consistent(Collection.RemoveFirst(pending, r), reuseList, requests - {r},
                       memoryObjects[r := 0], inFlight - {r}, lastId, pool - 1)
  {
    PendingAfterCompletion(pending, requests, r);
    assert r !in reuseList;
    var pending' := Collection.RemoveFirst(pending, r);
    var inFlight' := inFlight - {r};
    var requests' := requests - {r};
    assert ListsHoldLiveRequests(pending', reuseList, requests', memoryObjects[r := 0], inFlight');
    assert InUseMeansInFlight(reuseList, requests', inFlight');
    assert TokensFromCounter(pending', reuseList, requests', lastId) by {
      forall i, j | 0 <= i < j < |pending'|
        ensures pending'[i] in requests' && pending'[j] in requests' &&
                requests'[pending'[i]].cancelId < requests'[pending'[j]].cancelId
      {
        assert requests[pending'[i]].cancelId < requests[pending'[j]].cancelId;
      }
    }
  }

  /** A new reuse request joins the end of the reuse list with the newest reuse token. */
  lemma ConsistentAfterReuseCreate(pending: seq<Request>, reuseList: seq<Request>,
                                   requests: map<Request, UniqueRequest>, memoryObjects: multiset<Request>,
                                   inFlight: map<Request, SingleRequestContext>, lastId: int, pool: nat,
                                   r: Request, lastId': int)
    requires Consistent(pending, reuseList, requests, memoryObjects, inFlight, lastId, pool)
    requires r !in requests && lastId < lastId'
    ensures Consistent(pending, reuseList + [r], requests[r := UniqueRequest(0, lastId', false)],
                       memoryObjects, inFlight, lastId', pool)
  {
    assert r !in inFlight && r !in pending && r !in reuseList && r !in memoryObjects;
  }

  /** Deleting an idle reuse request takes it out of the reuse list and out of existence. */
  lemma ConsistentAfterReuseDelete(pending: seq<Request>, reuseList: seq<Request>,
                                   requests: map<Request, UniqueRequest>, memoryObjects: multiset<Request>,
                                   inFlight: map<Request, SingleRequestContext>, lastId: int, pool: nat,
                                   r: Request)
    requires Consistent(pending, reuseList, requests, memoryObjects, inFlight, lastId, pool)
    requires r in reuseList && !requests[r].inUse
    ensures Consistent(pending, Collection.RemoveFirst(reuseList, r), requests - {r},
                       memoryObjects[r := 0], inFlight, lastId, pool)
  {
    Collection.RemoveFirstNoDup(reuseList, r);
    RemoveFirstKeepsReuseOrder(reuseList, requests, r);
    assert r !in inFlight && r !in pending;
  }

  /**
   * No request in the pending list carries a token the counter has not
   * handed out yet, nor a token of zero or below.
   */
  lemma NeverIssuedCancelIdNotFound(pending: seq<Request>, reuseList: seq<Request>,
                                    requests: map<Request, UniqueRequest>, memoryObjects: multiset<Request>,
                                    inFlight: map<Request, SingleRequestContext>, lastId: int, pool: nat,
                                    token: int)
    requires Consistent(pending, reuseList, requests, memoryObjects, inFlight, lastId, pool)
    requires token <= 0 || token > lastId
    ensures FindByCancelId(pending, requests, token).None?
    ensures FindByReuseId(reuseList, requests, token).None?
  {
  }

  /**
   * The state after a reuse send of the idle reuse request r: in flight and
   * in use with the memory of this send when the target took it; otherwise
   * as before, except for the cancel token the send may have drawn.
   */
  ghost predicate ReuseSendEffect(r: Request, p: SendParams, completion: CompletionOption, wantCancelId: bool,
                                  w: WdfOutcomes, stage: Stage,
                                  pending: seq<Request>, requests: map<Request, UniqueRequest>,
                                  memoryObjects: multiset<Request>, inFlight: map<Request, SingleRequestContext>,
                                  lastId: int,
                                  pending': seq<Request>, requests': map<Request, UniqueRequest>,
                                  memoryObjects': multiset<Request>, inFlight': map<Request, SingleRequestContext>,
                                  lastId': int)
    requires r in requests
  {
    && lastId' == lastId + (if CancelIdDrawn(stage, false, wantCancelId) then 1 else 0)
    && pending' == PendingAfterSend(pending, r, stage, false, wantCancelId)
    && (InFlightAfter(stage, false) ==>
          && inFlight' == inFlight[r := SingleRequestContext(p.requestType, p.callback, completion, true)]
          && requests' == requests[r := requests[r].(inUse := true,
                                                     cancelId := if wantCancelId then lastId' else requests[r].cancelId)]
          && memoryObjects' == memoryObjects[r := memoryObjects[r] + MemoryCount(p)])
    && (!InFlightAfter(stage, false) ==>
          && inFlight' == inFlight && memoryObjects' == memoryObjects
          && requests' == requests[r := requests[r].(cancelId := if CancelIdDrawn(stage, false, wantCancelId) then lastId'
                                                                 else requests[r].cancelId)])
  }

  /** A reuse send of an idle reuse request keeps consistency, whether or not the target took it. */
  lemma ConsistentAfterReuseSend(pending: seq<Request>, reuseList: seq<Request>,
                                 requests: map<Request, UniqueRequest>, memoryObjects: multiset<Request>,
                                 inFlight: map<Request, SingleRequestContext>, lastId: int, pool: nat,
                                 r: Request, p: SendParams, completion: CompletionOption, wantCancelId: bool,
                                 w: WdfOutcomes, stage: Stage,
                                 pending': seq<Request>, requests': map<Request, UniqueRequest>,
                                 memoryObjects': multiset<Request>, inFlight': map<Request, SingleRequestContext>,
                                 lastId': int, pool': nat)
    requires Consistent(pending, reuseList, requests, memoryObjects, inFlight, lastId, pool)
    requires r in reuseList && !requests[r].inUse
    requires ReuseSendEffect(r, p, completion, wantCancelId, w, stage, pending, requests, memoryObjects, inFlight, lastId,
                             pending', requests', memoryObjects', inFlight', lastId')
    requires pool' == pool + if PoolContextTaken(stage, false) then 1 else 0
    ensures Consistent(pending', reuseList, requests', memoryObjects', inFlight', lastId', pool')
  {
    if InFlightAfter(stage, false) {
      ConsistentAfterReuseRequestSent(pending, reuseList, requests, memoryObjects, inFlight, lastId, pool,
                                      r, inFlight'[r], requests'[r].cancelId, wantCancelId, MemoryCount(p), lastId');
    } else {
      ConsistentAfterReuseRequestRefused(pending, reuseList, requests, memoryObjects, inFlight, lastId, pool,
                                         r, requests'[r].cancelId, lastId', pool');
    }
  }

  /**
   * What a reuse send leaves behind. Unless the target took the request, the
   * memory objects are as before and no request's in-use flag or reuse token
   * changed. When the target took it with a cancel token, that token finds
   * it in the pending list.
   */
  lemma ReuseSendOutcome(r: Request, p: SendParams, completion: CompletionOption, wantCancelId: bool,
                         w: WdfOutcomes, stage: Stage,
                         pending: seq<Request>, requests: map<Request, UniqueRequest>,
                         memoryObjects: multiset<Request>, inFlight: map<Request, SingleRequestContext>, lastId: int,
                         pending': seq<Request>, requests': map<Request, UniqueRequest>,
                         memoryObjects': multiset<Request>, inFlight': map<Request, SingleRequestContext>,
                         lastId': int, reuseList: seq<Request>, pool': nat)
    requires r in requests
    requires ReuseSendEffect(r, p, completion, wantCancelId, w, stage, pending, requests, memoryObjects, inFlight, lastId,
                             pending', requests', memoryObjects', inFlight', lastId')
    requires Consistent(pending', reuseList, requests', memoryObjects', inFlight', lastId', pool')
    ensures !InFlightAfter(stage, false) ==>
              && memoryObjects' == memoryObjects
              && forall x :: x in requests ==>
                   x in requests' && requests'[x].inUse == requests[x].inUse && requests'[x].reuseId == requests[x].reuseId
    ensures InFlightAfter(stage, false) && wantCancelId ==>
              FindByCancelId(pending', requests', lastId') == Some(r)
  {
    if InFlightAfter(stage, false) && wantCancelId {
      assert pending' == pending + [r];
      CancelIdNamesOneRequest(pending', requests', r);
    }
  }

  // ---------------------------------------------------------------------
  // The module's state and its methods.
  // ---------------------------------------------------------------------

  /**
   * The process-wide counter that hands out cancel and reuse tokens. It is
   * shared by every instance of the module, so it is an object of its own.
   */
  class UniqueIdCounter {
    var value: int

    constructor()
      ensures value == 0
    {
      value := 0;
    }

    /** InterlockedIncrement64: the new value is the token handed out. */
    method Increment() returns (id: int)
      modifies this
      ensures value == old(value) + 1
      ensures id == value
    {
      value := value + 1;
      id := value;
    }
  }

  /**
   * What the module passes to the client's completion routine, and the
   * request's UNIQUE_REQUEST context as the routine finds it when called.
   */
  datatype ClientCall = ClientCall(callback: Callback, buffers: Buffers, status: NtStatus, requestAtCall: UniqueRequest)

  /**
   * One instance of the RequestTarget module: its I/O target, the pending
   * (cancellable) list, the reuse list, the UNIQUE_REQUEST context of each
   * live request this module created, the memory objects parented to each
   * request, and the completion context of each request the target owns.
   */
  class RequestTargetModule {
    const counter: UniqueIdCounter
    /** The module was created for passive level: completions hop to passive level. */
    const passiveLevel: bool

    var ioTarget: Option<IoTarget>
    var pending: seq<Request>
    var reuseList: seq<Request>
    var requests: map<Request, UniqueRequest>
    var memoryObjects: multiset<Request>
    /** The completion context (from the buffer pool) of each request the target owns. */
    var inFlight: map<Request, SingleRequestContext>
    /** Buffer-pool contexts handed out and not returned. */
    var poolContextsInUse: nat
    /** References held on this module (DMF_ModuleReference). */
    var moduleReferences: nat
    /** References a cancel holds on a request while it cancels it. */
    var cancelReferences: multiset<Request>

    /** The bookkeeping holds between calls. */
    ghost predicate Valid()
      reads this, counter
    {
      && Consistent(pending, reuseList, requests, memoryObjects, inFlight, counter.value, poolContextsInUse)
      && cancelReferences == multiset{}
    }

    /** Between calls, the only module references held are the ones of requests in flight. */
    ghost predicate ReferencesHeld()
      reads this
    {
      moduleReferences == |inFlight.Keys|
    }

    constructor(counter: UniqueIdCounter, passiveLevel: bool)
      requires counter.value >= 0
      ensures this.counter == counter && this.passiveLevel == passiveLevel
      ensures ioTarget.None? && pending == [] && reuseList == [] && requests == map[] && inFlight == map[]
      ensures Valid() && ReferencesHeld()
    {
      this.counter := counter;
      this.passiveLevel := passiveLevel;
      ioTarget := None;
      pending := [];
      reuseList := [];
      requests := map[];
      memoryObjects := multiset{};
      inFlight := map[];
      poolContextsInUse := 0;
      moduleReferences := 0;
      cancelReferences := multiset{};
    }

    /** The completion option of the asynchronous sends of this instance. */
    function CompletionOptionOf(): CompletionOption
    {
      if passiveLevel then Passive else Dispatch
    }

    /**
     * RequestTarget_PendingCollectionListSearchAndRemove: a scan from the
     * front that removes the first entry equal to the request. A NULL request
     * is refused.
     */
    static method ListSearchAndRemove(list: seq<Request>, request: Option<Request>)
      returns (found: bool, after: seq<Request>)
      ensures request.None? ==> !found && after == list
      ensures request.Some? ==> (found <==> request.value in list)
      ensures request.Some? ==> after == Collection.RemoveFirst(list, request.value)
    {
      found := false;
      after := list;
      if request.None? {
        return;
      }
      var i: nat := 0;
      while true
        invariant i <= |list|
        invariant forall j :: 0 <= j < i ==> list[j] != request.value
        decreases |list| - i
      {
        var current := Collection.GetItem(list, i);
        if current == request {
          Collection.RemoveItemAtFirstMatch(list, request.value, i);
          after := Collection.RemoveItem(list, i);
          found := true;
          return;
        }
        if current.None? {
          return;
        }
        i := i + 1;
      }
    }

    /**
     * RequestTarget_PendingCollectionListSearchAndReference: the pending
     * request that carries the cancel token, with a reference taken on it.
     */
    method PendingSearchAndReference(token: int) returns (found: bool, request: Option<Request>)
      requires forall x :: x in pending ==> x in requests
      modifies this`cancelReferences
      ensures request == FindByCancelId(pending, requests, token)
      ensures found <==> request.Some?
      ensures cancelReferences == if found then old(cancelReferences) + multiset{request.value}
                                  else old(cancelReferences)
    {
      found := false;
      request := None;
      var i: nat := 0;
      while true
        invariant i <= |pending|
        invariant FindByCancelId(pending, requests, token) == FindByCancelId(pending[i..], requests, token)
        invariant cancelReferences == old(cancelReferences)
        decreases |pending| - i
      {
        var current := Collection.GetItem(pending, i);
        if current.None? {
          assert pending[i..] == [];
          return;
        }
        assert pending[i..][0] == current.value && pending[i..][1..] == pending[i + 1..];
        if requests[current.value].cancelId == token {
          cancelReferences := cancelReferences + multiset{current.value};
          request := current;
          found := true;
          return;
        }
        i := i + 1;
      }
    }

    /**
     * RequestTarget_PendingCollectionReuseListSearch: the reuse request that
     * carries the token, marked in use; a request already in use is refused
     * and keeps its flag.
     */
    method ReuseListSearch(token: int) returns (found: bool, request: Option<Request>)
      requires forall x :: x in reuseList ==> x in requests
      modifies this`requests
      ensures request == ReuseCandidate(reuseList, old(requests), token)
      ensures found <==> request.Some?
      ensures requests == if found then old(requests)[request.value := old(requests)[request.value].(inUse := true)]
                          else old(requests)
    {
      found := false;
      request := None;
      var i: nat := 0;
      while true
        invariant i <= |reuseList| && requests == old(requests)
        invariant FindByReuseId(reuseList, requests, token) == FindByReuseId(reuseList[i..], requests, token)
        decreases |reuseList| - i
      {
        var current := Collection.GetItem(reuseList, i);
        if current.None? {
          assert reuseList[i..] == [];
          return;
        }
        assert reuseList[i..][0] == current.value && reuseList[i..][1..] == reuseList[i + 1..];
        var unique := requests[current.value];
        if unique.reuseId == token {
          if !unique.inUse {
            requests := requests[current.value := unique.(inUse := true)];
            request := current;
            found := true;
          }
          return;
        }
        i := i + 1;
      }
    }
  
    /**
     * The memory objects a send wraps around the client's buffers, parented
     * to r: one per non-empty buffer, stopping at the first creation that
     * fails.
     */
    method AttachMemories(r: Request, p: SendParams, w: WdfOutcomes)
      returns (status: NtStatus, requestMemory: Option<Memory>, responseMemory: Option<Memory>, made: nat)
      modifies this`memoryObjects
      ensures NtSuccess(status) <==> MemoriesCreated(p, w)
      ensures !MemoriesCreated(p, w) ==> status == MemoryFailedStatus(p, w)
      ensures MemoriesCreated(p, w) ==> requestMemory == RequestMemoryOf(p, w) && responseMemory == ResponseMemoryOf(p, w)
      ensures made == MemoriesMade(p, w)
      ensures memoryObjects == old(memoryObjects)[r := old(memoryObjects)[r] + made]
    {
      status := STATUS_SUCCESS;
      made := 0;
      requestMemory := None;
      responseMemory := None;
      if p.requestLength > 0 {
        if !NtSuccess(w.requestMemoryStatus) {
          return w.requestMemoryStatus, None, None, 0;
        }
        requestMemory := Some(Memory(w.requestMemory, p.requestLength));
        memoryObjects := memoryObjects[r := memoryObjects[r] + 1];
        made := made + 1;
      }
      if p.responseLength > 0 {
        if !NtSuccess(w.responseMemoryStatus) {
          return w.responseMemoryStatus, None, None, made;
        }
        responseMemory := Some(Memory(w.responseMemory, p.responseLength));
        memoryObjects := memoryObjects[r := memoryObjects[r] + 1];
        made := made + 1;
      }
    }

    /**
     * The steps after formatting, on a formatted request r: take a pool
     * context, draw a cancel token and list r as pending (when the caller
     * wants a token), allocate the timer and send; after a send that was
     * refused or synchronous, take r out of the pending list again and read
     * its status and size.
     *
     * A failure of the timer allocation also takes r out of the pending list;
     * the source leaves it listed (PendingAfterSendAsWritten).
     */
    method DispatchRequest(r: Request, synchronous: bool, wantCancelId: bool, w: WdfOutcomes)
      returns (stage: Stage, status: NtStatus, bytesWritten: nat)
      requires r in requests && r !in pending
      requires synchronous ==> !wantCancelId
      modifies this`pending, this`requests, this`poolContextsInUse, counter
      ensures stage == DispatchStage(synchronous, wantCancelId, w)
      ensures status == SendStatus(stage, synchronous, w)
      ensures bytesWritten == if stage.Submitted? && (!stage.accepted || synchronous) &&
                                 NtSuccess(w.completionStatus) then w.information else 0
      ensures pending == PendingAfterSend(old(pending), r, stage, synchronous, wantCancelId)
      ensures counter.value == old(counter.value) + if CancelIdDrawn(stage, synchronous, wantCancelId) then 1 else 0
      ensures requests == if CancelIdDrawn(stage, synchronous, wantCancelId)
                          then old(requests)[r := old(requests)[r].(cancelId := counter.value)]
                          else old(requests)
      ensures poolContextsInUse == old(poolContextsInUse) + if PoolContextTaken(stage, synchronous) then 1 else 0
    {
      bytesWritten := 0;
      if !synchronous {
        if !NtSuccess(w.poolStatus) {
          return FailedAt(Pool, w.poolStatus), w.poolStatus, 0;
        }
        poolContextsInUse := poolContextsInUse + 1;
        if wantCancelId {
          var id := counter.Increment();
          requests := requests[r := requests[r].(cancelId := id)];
          if !NtSuccess(w.listAddStatus) {
            return FailedAt(ListAdd, w.listAddStatus), w.listAddStatus, 0;
          }
          pending := pending + [r];
        }
      }
      if !NtSuccess(w.timerStatus) {
        if wantCancelId {
          // The target never saw the request: it cannot stay cancellable.
          var _, after := ListSearchAndRemove(pending, Some(r));
          Collection.RemoveFirstOfAppended(old(pending), r);
          pending := after;
        }
        return FailedAt(Timer, w.timerStatus), w.timerStatus, 0;
      }
      stage, status := Submitted(w.sent), w.timerStatus;
      if !w.sent || synchronous {
        if wantCancelId {
          var _, after := ListSearchAndRemove(pending, Some(r));
          Collection.RemoveFirstOfAppended(old(pending), r);
          pending := after;
        }
        status := w.completionStatus;
        if NtSuccess(status) {
          bytesWritten := w.information;
        }
      }
    }

    /**
     * The steps RequestTarget_RequestSendReuse and
     * RequestTarget_RequestCreateAndSend share, on a request r that exists:
     * attach the memory objects, format r, then dispatch it. Undoing the
     * memory objects and the request itself is left to the caller.
     */
    method SubmitRequest(r: Request, synchronous: bool, p: SendParams, wantCancelId: bool, w: WdfOutcomes)
      returns (stage: Stage, status: NtStatus, bytesWritten: nat, made: nat)
      requires r in requests && r !in pending
      requires synchronous ==> !wantCancelId
      modifies this`memoryObjects, this`pending, this`requests, this`poolContextsInUse, counter
      ensures stage == SubmitStage(synchronous, p, wantCancelId, w)
      ensures status == SendStatus(stage, synchronous, w)
      ensures bytesWritten == if stage.Submitted? && (!stage.accepted || synchronous) &&
                                 NtSuccess(w.completionStatus) then w.information else 0
      ensures made == MemoriesMade(p, w)
      ensures memoryObjects == old(memoryObjects)[r := old(memoryObjects)[r] + made]
      ensures pending == PendingAfterSend(old(pending), r, stage, synchronous, wantCancelId)
      ensures counter.value == old(counter.value) + if CancelIdDrawn(stage, synchronous, wantCancelId) then 1 else 0
      ensures requests == if CancelIdDrawn(stage, synchronous, wantCancelId)
                          then old(requests)[r := old(requests)[r].(cancelId := counter.value)]
                          else old(requests)
      ensures poolContextsInUse == old(poolContextsInUse) + if PoolContextTaken(stage, synchronous) then 1 else 0
    {
      var requestMemory, responseMemory;
      status, requestMemory, responseMemory, made := AttachMemories(r, p, w);
      bytesWritten := 0;
      if !NtSuccess(status) {
        stage := FailedAt(MemoryFailedStep(p, w), status);
        return;
      }
      var format := FormatRequest(p.requestType, p.ioctlCode, requestMemory, responseMemory, w.formatStatus);
      if format.Err? {
        stage, status := FailedAt(Format, format.status), format.status;
        return;
      }
      stage, status, bytesWritten := DispatchRequest(r, synchronous, wantCancelId, w);
    }
  
    /**
     * RequestTarget_RequestSendReuse (asynchronous): claim the idle reuse
     * request that carries the token, reuse it and run the shared steps.
     * Unless the target took it, the call is undone: the request is idle
     * again and the memory objects this call created are deleted. An unknown
     * token, or one whose request is in flight, fails with
     * STATUS_OBJECTID_NOT_FOUND and changes nothing.
     */
    method RequestSendReuse(token: int, p: SendParams, completion: CompletionOption,
                            wantCancelId: bool, w: WdfOutcomes)
      returns (stage: Stage, status: NtStatus, cancelId: Option<int>)
      requires Valid() && ioTarget.Some? && SendContract(w)
      modifies this`memoryObjects, this`pending, this`requests, this`poolContextsInUse, this`inFlight, counter
      ensures var c := ReuseCandidate(old(reuseList), old(requests), token);
              && stage == ReuseSendStage(c.Some?, p, wantCancelId, w)
              && (c.None? ==> status == STATUS_OBJECTID_NOT_FOUND && cancelId.None? &&
                              pending == old(pending) && requests == old(requests) && inFlight == old(inFlight) &&
                              memoryObjects == old(memoryObjects) && counter.value == old(counter.value))
              && (c.Some? ==> ReuseSendEffect(c.value, p, completion, wantCancelId, w, stage,
                                              old(pending), old(requests), old(memoryObjects), old(inFlight), old(counter.value),
                                              pending, requests, memoryObjects, inFlight, counter.value))
      ensures status == SendStatus(stage, false, w)
      ensures cancelId == if InFlightAfter(stage, false) && wantCancelId then Some(counter.value) else None
      ensures Valid()
    {
      ghost var pending0, requests0, memoryObjects0, inFlight0 := pending, requests, memoryObjects, inFlight;
      ghost var lastId0, pool0 := counter.value, poolContextsInUse;
      var found, request := ReuseListSearch(token);
      if !found {
        return FailedAt(Reuse, STATUS_OBJECTID_NOT_FOUND), STATUS_OBJECTID_NOT_FOUND, None;
      }
      var r := request.value;
      assert r !in inFlight0 && r !in pending;
      stage, status, cancelId := SendReusedRequest(r, p, completion, wantCancelId, w, requests0);
      ConsistentAfterReuseSend(pending0, reuseList, requests0, memoryObjects0, inFlight0, lastId0, pool0,
                               r, p, completion, wantCancelId, w, stage,
                               pending, requests, memoryObjects, inFlight, counter.value, poolContextsInUse);
    }

    /**
     * RequestTarget_RequestSendReuse once the reuse request r is claimed (in
     * use): WdfRequestReuse, the shared steps, and the undo unless the target
     * took r.
     */
    method SendReusedRequest(r: Request, p: SendParams, completion: CompletionOption,
                             wantCancelId: bool, w: WdfOutcomes, ghost requests0: map<Request, UniqueRequest>)
      returns (stage: Stage, status: NtStatus, cancelId: Option<int>)
      requires SendContract(w)
      requires r in requests0 && !requests0[r].inUse && requests == requests0[r := requests0[r].(inUse := true)]
      requires r !in pending && r !in inFlight
      modifies this`memoryObjects, this`pending, this`requests, this`poolContextsInUse, this`inFlight, counter
      ensures stage == if !NtSuccess(w.reuseStatus) then FailedAt(Reuse, w.reuseStatus)
                       else SubmitStage(false, p, wantCancelId, w)
      ensures status == SendStatus(stage, false, w)
      ensures poolContextsInUse == old(poolContextsInUse) + (if PoolContextTaken(stage, false) then 1 else 0)
      ensures ReuseSendEffect(r, p, completion, wantCancelId, w, stage,
                              old(pending), requests0, old(memoryObjects), old(inFlight), old(counter.value),
                              pending, requests, memoryObjects, inFlight, counter.value)
      ensures cancelId == if InFlightAfter(stage, false) && wantCancelId then Some(counter.value) else None
    {
      cancelId := None;
      if !NtSuccess(w.reuseStatus) {
        stage, status := FailedAt(Reuse, w.reuseStatus), w.reuseStatus;
        AbortReuse(r, 0);
        assert requests == requests0;
        return;
      }
      var bytesWritten, created;
      stage, status, bytesWritten, created := SubmitRequest(r, false, p, wantCancelId, w);
      ghost var pending1, requests1, lastId1 := pending, requests, counter.value;
      if stage == Submitted(true) {
        inFlight := inFlight[r := SingleRequestContext(p.requestType, p.callback, completion, true)];
        if wantCancelId {
          cancelId := Some(requests[r].cancelId);
        }
        assert created == MemoryCount(p);
        assert requests == requests0[r := requests0[r].(inUse := true,
                                        cancelId := if wantCancelId then lastId1 else requests0[r].cancelId)];
      } else {
        // The request was not sent: undo everything this call did.
        AbortReuse(r, created);
        assert requests[r] == requests0[r].(cancelId := requests1[r].cancelId);
      }
    }

    /**
     * The undo at the exit of RequestTarget_RequestSendReuse when the
     * request was not sent: the request is idle again and the memory objects
     * the call created under it are deleted.
     */
    method AbortReuse(r: Request, created: nat)
      requires r in requests && created <= memoryObjects[r]
      modifies this`requests, this`memoryObjects
      ensures requests == old(requests)[r := old(requests)[r].(inUse := false)]
      ensures memoryObjects == old(memoryObjects)[r := old(memoryObjects)[r] - created]
    {
      requests := requests[r := requests[r].(inUse := false)];
      memoryObjects := memoryObjects[r := memoryObjects[r] - created];
    }

    /**
     * RequestTarget_RequestCreateAndSend: create a request under the module,
     * run the shared steps, and delete the request again when it was
     * synchronous or did not reach the target. An accepted asynchronous
     * request stays live and in flight with its completion context; the
     * cancel token is returned only for it. bytesWritten is what is stored
     * in the caller's BytesWritten: None when WdfRequestCreate fails, since
     * that failure returns before the store.
     */
    method RequestCreateAndSend(synchronous: bool, p: SendParams, completion: CompletionOption,
                                wantCancelId: bool, w: WdfOutcomes)
      returns (status: NtStatus, bytesWritten: Option<nat>, cancelId: Option<int>)
      requires Valid() && ioTarget.Some? && SendContract(w)
      requires synchronous ==> !wantCancelId
      requires NtSuccess(w.createStatus) ==> w.newRequest !in requests
      modifies this`memoryObjects, this`pending, this`requests, this`poolContextsInUse, this`inFlight, counter
      ensures var s := CreateAndSendStage(synchronous, p, wantCancelId, w);
              && status == SendStatus(s, synchronous, w)
              && counter.value == old(counter.value) + (if CancelIdDrawn(s, synchronous, wantCancelId) then 1 else 0)
              && pending == PendingAfterSend(old(pending), w.newRequest, s, synchronous, wantCancelId)
              && (InFlightAfter(s, synchronous) ==>
                    && inFlight == old(inFlight)[w.newRequest := SingleRequestContext(p.requestType, p.callback, completion, false)]
                    && requests == old(requests)[w.newRequest := UniqueRequest(if wantCancelId then counter.value else 0, 0, false)]
                    && memoryObjects == old(memoryObjects)[w.newRequest := MemoryCount(p)])
              && (!InFlightAfter(s, synchronous) ==>
                    inFlight == old(inFlight) && requests == old(requests) && memoryObjects == old(memoryObjects))
              && cancelId == if InFlightAfter(s, synchronous) && wantCancelId then Some(counter.value) else None
      ensures bytesWritten == if !NtSuccess(w.createStatus) then None
                              else Some(if synchronous && NtSuccess(status) then w.information else 0)
      ensures Valid()
    {
      if !NtSuccess(w.createStatus) {
        return w.createStatus, None, None;
      }
      var r := w.newRequest;
      ghost var pending0, requests0, memoryObjects0, inFlight0 := pending, requests, memoryObjects, inFlight;
      ghost var lastId0, pool0 := counter.value, poolContextsInUse;
      assert r !in memoryObjects && r !in pending;
      ghost var made, stage;
      var transferred;
      stage, status, transferred, cancelId, made := SendCreatedRequest(r, synchronous, p, completion, wantCancelId, w);
      bytesWritten := Some(transferred);
      ghost var s := SubmitStage(synchronous, p, wantCancelId, w);
      if InFlightAfter(s, synchronous) {
        ConsistentAfterNewRequestSent(pending0, reuseList, requests0, memoryObjects0, inFlight0, lastId0, pool0,
                                      r, inFlight[r], requests[r].cancelId, wantCancelId, made, counter.value);
      } else {
        ConsistentWhenCountersGrow(pending0, reuseList, requests0, memoryObjects0, inFlight0, lastId0, pool0,
                                   counter.value, poolContextsInUse);
      }
    }

    /**
     * RequestTarget_RequestCreateAndSend after WdfRequestCreate returned the
     * new request r: r gets a zeroed UNIQUE_REQUEST context, goes through the
     * shared steps, and is deleted with its memory objects unless the target
     * took it asynchronously.
     */
    method SendCreatedRequest(r: Request, synchronous: bool, p: SendParams, completion: CompletionOption,
                              wantCancelId: bool, w: WdfOutcomes)
      returns (stage: Stage, status: NtStatus, bytesWritten: nat, cancelId: Option<int>, ghost made: nat)
      requires SendContract(w)
      requires synchronous ==> !wantCancelId
      requires r !in requests && r !in memoryObjects && r !in pending
      modifies this`memoryObjects, this`pending, this`requests, this`poolContextsInUse, this`inFlight, counter
      ensures stage == SubmitStage(synchronous, p, wantCancelId, w)
      ensures status == SendStatus(stage, synchronous, w)
      ensures counter.value == old(counter.value) + (if CancelIdDrawn(stage, synchronous, wantCancelId) then 1 else 0)
      ensures poolContextsInUse == old(poolContextsInUse) + (if PoolContextTaken(stage, synchronous) then 1 else 0)
      ensures pending == PendingAfterSend(old(pending), r, stage, synchronous, wantCancelId)
      ensures InFlightAfter(stage, synchronous) ==>
                && inFlight == old(inFlight)[r := SingleRequestContext(p.requestType, p.callback, completion, false)]
                && requests == old(requests)[r := UniqueRequest(if wantCancelId then counter.value else 0, 0, false)]
                && made == MemoryCount(p)
                && memoryObjects == old(memoryObjects)[r := made]
      ensures !InFlightAfter(stage, synchronous) ==>
                inFlight == old(inFlight) && requests == old(requests) && memoryObjects == old(memoryObjects)
      ensures cancelId == if InFlightAfter(stage, synchronous) && wantCancelId then Some(counter.value) else None
      ensures bytesWritten == if synchronous && NtSuccess(status) then w.information else 0
    {
      ghost var requests0, memoryObjects0 := requests, memoryObjects;
      cancelId := None;
      requests := requests[r := UniqueRequest(0, 0, false)];
      stage, status, bytesWritten, made := SubmitRequest(r, synchronous, p, wantCancelId, w);
      assert InFlightAfter(stage, synchronous) <==> !(synchronous || !NtSuccess(status));
      if synchronous || !NtSuccess(status) {
        requests := requests - {r};
        memoryObjects := memoryObjects[r := 0];
        assert requests == requests0;
        assert memoryObjects == memoryObjects0;
      } else {
        inFlight := inFlight[r := SingleRequestContext(p.requestType, p.callback, completion, false)];
        if wantCancelId {
          cancelId := Some(requests[r].cancelId);
        }
        assert made == MemoryCount(p);
        assert requests == requests0[r := UniqueRequest(if wantCancelId then counter.value else 0, 0, false)];
      }
    }
  
    /**
     * RequestTarget_ProcessAsynchronousRequestRoot, run when the target
     * completes the request r it owned: r leaves the pending list, a reuse
     * request is idle again before the client's routine is called, the
     * client's routine receives the buffers of r's type and the status, the
     * pool context is returned, any other request is deleted, and the module
     * reference the send kept is released.
     */
    method ProcessAsynchronousRequest(r: Request, params: CompletionParams, completionStatus: NtStatus)
      returns (call: Option<ClientCall>)
      requires Valid() && ReferencesHeld() && r in inFlight
      modifies this`pending, this`requests, this`memoryObjects, this`inFlight, this`poolContextsInUse,
               this`moduleReferences
      ensures var ctx := old(inFlight)[r];
              && (call.Some? <==> ctx.callback.Some?)
              && (call.Some? ==>
                    call.value == ClientCall(ctx.callback.value, CompletionBuffers(params, ctx.requestType),
                                             completionStatus,
                                             if ctx.reuse then old(requests)[r].(inUse := false) else old(requests)[r]))
      ensures call.Some? && old(inFlight)[r].reuse ==> !call.value.requestAtCall.inUse
      ensures pending == Collection.RemoveFirst(old(pending), r) && r !in pending
      ensures inFlight == old(inFlight) - {r}
      ensures old(inFlight)[r].reuse ==>
                requests == old(requests)[r := old(requests)[r].(inUse := false)] && memoryObjects == old(memoryObjects)
      ensures !old(inFlight)[r].reuse ==>
                requests == old(requests) - {r} && memoryObjects == old(memoryObjects)[r := 0]
      ensures poolContextsInUse == old(poolContextsInUse) - 1
      ensures moduleReferences == old(moduleReferences) - 1
      ensures Valid() && ReferencesHeld()
    {
      ConsistentAfterCompletion(pending, reuseList, requests, memoryObjects, inFlight, counter.value, poolContextsInUse, r);
      assert inFlight.Keys == (inFlight - {r}).Keys + {r};
      PendingAfterCompletion(pending, requests, r);
      call := CompleteRequest(r, params, completionStatus);
    }

    /** The steps of ProcessAsynchronousRequest on the module's fields. */
    method CompleteRequest(r: Request, params: CompletionParams, completionStatus: NtStatus)
      returns (call: Option<ClientCall>)
      requires r in inFlight && r in requests && poolContextsInUse >= 1 && moduleReferences >= 1
      modifies this`pending, this`requests, this`memoryObjects, this`inFlight, this`poolContextsInUse,
               this`moduleReferences
      ensures var ctx := old(inFlight)[r];
              && (call.Some? <==> ctx.callback.Some?)
              && (call.Some? ==>
                    call.value == ClientCall(ctx.callback.value, CompletionBuffers(params, ctx.requestType),
                                             completionStatus,
                                             if ctx.reuse then old(requests)[r].(inUse := false) else old(requests)[r]))
      ensures pending == Collection.RemoveFirst(old(pending), r)
      ensures inFlight == old(inFlight) - {r}
      ensures old(inFlight)[r].reuse ==>
                requests == old(requests)[r := old(requests)[r].(inUse := false)] && memoryObjects == old(memoryObjects)
      ensures !old(inFlight)[r].reuse ==>
                requests == old(requests) - {r} && memoryObjects == old(memoryObjects)[r := 0]
      ensures poolContextsInUse == old(poolContextsInUse) - 1
      ensures moduleReferences == old(moduleReferences) - 1
    {
      var context := inFlight[r];
      var _, after := ListSearchAndRemove(pending, Some(r));
      pending := after;
      var buffers := CompletionBuffers(params, context.requestType);
      if context.reuse {
        requests := requests[r := requests[r].(inUse := false)];
      }
      call := None;
      if context.callback.Some? {
        call := Some(ClientCall(context.callback.value, buffers, completionStatus, requests[r]));
      }
      poolContextsInUse := poolContextsInUse - 1;
      inFlight := inFlight - {r};
      if !context.reuse {
        requests := requests - {r};
        memoryObjects := memoryObjects[r := 0];
      }
      moduleReferences := moduleReferences - 1;
    }

    /**
     * DMF_RequestTarget_Cancel: with a module reference, find the pending
     * request that carries the token and ask the framework to cancel it
     * (cancelAccepted is what WdfRequestCancelSentRequest returns), then
     * release the references taken. Nothing else changes: the cancelled
     * request completes later through ProcessAsynchronousRequest.
     */
    method Cancel(token: int, referenceStatus: NtStatus, cancelAccepted: bool) returns (cancelled: bool)
      requires Valid() && ReferencesHeld()
      modifies this`moduleReferences, this`cancelReferences
      ensures cancelled == (NtSuccess(referenceStatus) && FindByCancelId(pending, requests, token).Some? && cancelAccepted)
      ensures moduleReferences == old(moduleReferences) && cancelReferences == old(cancelReferences)
      ensures Valid() && ReferencesHeld()
    {
      if !NtSuccess(referenceStatus) {
        return false;
      }
      moduleReferences := moduleReferences + 1;
      var found, request := PendingSearchAndReference(token);
      cancelled := false;
      if found {
        cancelled := cancelAccepted;
        cancelReferences := cancelReferences - multiset{request.value};
      }
      moduleReferences := moduleReferences - 1;
    }

    /** DMF_RequestTarget_IoTargetSet: with a module reference, the target to send to. */
    method IoTargetSet(target: IoTarget, referenceStatus: NtStatus)
      requires ioTarget.None?
      modifies this`ioTarget
      ensures ioTarget == if NtSuccess(referenceStatus) then Some(target) else old(ioTarget)
    {
      if NtSuccess(referenceStatus) {
        ioTarget := Some(target);
      }
    }

    /** DMF_RequestTarget_IoTargetClear: with a module reference, no target. */
    method IoTargetClear(referenceStatus: NtStatus)
      modifies this`ioTarget
      ensures ioTarget == if NtSuccess(referenceStatus) then None else old(ioTarget)
    {
      if NtSuccess(referenceStatus) {
        ioTarget := None;
      }
    }

    /**
     * DMF_RequestTarget_ReuseCreate: create a request under the device, give
     * it the next reuse token and add it to the reuse list; a list-add
     * failure deletes it again (the token is spent). The returned token is 0
     * (NULL) on every failure.
     */
    method ReuseCreate(w: WdfOutcomes) returns (status: NtStatus, token: int)
      requires Valid() && ReferencesHeld()
      requires NtSuccess(w.createStatus) ==> w.newRequest !in requests
      modifies this`requests, this`reuseList, counter
      ensures !NtSuccess(w.referenceStatus) ==> status == w.referenceStatus
      ensures NtSuccess(w.referenceStatus) && !NtSuccess(w.createStatus) ==> status == w.createStatus
      ensures NtSuccess(w.referenceStatus) && NtSuccess(w.createStatus) ==> status == w.listAddStatus
      ensures NtSuccess(status) ==>
                && token == counter.value && token > old(counter.value)
                && reuseList == old(reuseList) + [w.newRequest]
                && requests == old(requests)[w.newRequest := UniqueRequest(0, token, false)]
                && FindByReuseId(reuseList, requests, token) == Some(w.newRequest)
      ensures !NtSuccess(status) ==> token == 0 && reuseList == old(reuseList) && requests == old(requests)
      ensures counter.value == old(counter.value) +
                if NtSuccess(w.referenceStatus) && NtSuccess(w.createStatus) then 1 else 0
      ensures Valid() && ReferencesHeld()
    {
      token := 0;
      if !NtSuccess(w.referenceStatus) {
        return w.referenceStatus, 0;
      }
      if !NtSuccess(w.createStatus) {
        return w.createStatus, 0;
      }
      var r := w.newRequest;
      ghost var lastId0 := counter.value;
      status, token := AddReuseRequest(r, w.listAddStatus);
      if NtSuccess(status) {
        ConsistentAfterReuseCreate(old(pending), old(reuseList), old(requests), old(memoryObjects), old(inFlight),
                                   lastId0, old(poolContextsInUse), r, token);
        ReuseIdNamesOneRequest(reuseList, requests, r);
      } else {
        ConsistentWhenCountersGrow(pending, reuseList, requests, memoryObjects, inFlight, lastId0, poolContextsInUse,
                                   counter.value, poolContextsInUse);
      }
    }

    /**
     * DMF_RequestTarget_ReuseCreate once WdfRequestCreate returned r: the
     * next reuse token, then the add to the reuse list, whose status is
     * listAddStatus.
     */
    method AddReuseRequest(r: Request, listAddStatus: NtStatus) returns (status: NtStatus, token: int)
      modifies this`requests, this`reuseList, counter
      ensures status == listAddStatus
      ensures counter.value == old(counter.value) + 1
      ensures NtSuccess(status) ==>
                && token == counter.value
                && reuseList == old(reuseList) + [r]
                && requests == old(requests)[r := UniqueRequest(0, token, false)]
      ensures !NtSuccess(status) ==> token == 0 && reuseList == old(reuseList) && requests == old(requests)
    {
      var id := counter.Increment();
      status := listAddStatus;
      token := 0;
      if NtSuccess(status) {
        reuseList := reuseList + [r];
        requests := requests[r := UniqueRequest(0, id, false)];
        token := id;
      }
    }

    /**
     * DMF_RequestTarget_ReuseDelete: claim the reuse request of the token (an
     * unknown token, or one whose request is in flight, is refused), take it
     * out of the reuse list and delete it with its memory objects.
     */
    method ReuseDelete(token: int) returns (deleted: bool)
      requires Valid()
      modifies this`requests, this`reuseList, this`memoryObjects
      ensures var c := ReuseCandidate(old(reuseList), old(requests), token);
              && deleted == c.Some?
              && (c.Some? ==>
                    && reuseList == Collection.RemoveFirst(old(reuseList), c.value) && c.value !in reuseList
                    && requests == old(requests) - {c.value}
                    && memoryObjects == old(memoryObjects)[c.value := 0])
              && (c.None? ==>
                    reuseList == old(reuseList) && requests == old(requests) && memoryObjects == old(memoryObjects))
      ensures Valid()
    {
      ghost var requests0 := requests;
      var found, request := ReuseListSearch(token);
      deleted := false;
      if found {
        var r := request.value;
        ConsistentAfterReuseDelete(pending, reuseList, requests0, memoryObjects, inFlight, counter.value,
                                   poolContextsInUse, r);
        var after;
        deleted, after := ListSearchAndRemove(reuseList, request);
        reuseList := after;
        requests := requests - {r};
        memoryObjects := memoryObjects[r := 0];
        assert requests == requests0 - {r};
      }
    }
  
    /**
     * DMF_RequestTarget_Send: with a module reference, create and send an
     * asynchronous request without a cancel token. The reference stays with
     * the request when the target took it, and is released otherwise.
     */
    method Send(p: SendParams, w: WdfOutcomes) returns (status: NtStatus)
      requires Valid() && ReferencesHeld() && ioTarget.Some? && SendContract(w)
      requires NtSuccess(w.createStatus) ==> w.newRequest !in requests
      modifies this`memoryObjects, this`pending, this`requests, this`poolContextsInUse, this`inFlight, counter,
               this`moduleReferences
      ensures Valid() && ReferencesHeld()
      ensures status == if NtSuccess(w.referenceStatus) then SendStatus(CreateAndSendStage(false, p, false, w), false, w)
                        else w.referenceStatus
      ensures pending == old(pending)
      ensures NtSuccess(status) ==>
                inFlight == old(inFlight)[w.newRequest := SingleRequestContext(p.requestType, p.callback, CompletionOptionOf(), false)]
      ensures !NtSuccess(status) ==> inFlight == old(inFlight) && requests == old(requests)
    {
      var cancelId;
      status, cancelId := SendAsynchronously(p, false, w);
    }

    /**
     * DMF_RequestTarget_SendEx: as Send, and when the caller asks for it the
     * request carries a fresh cancel token, returned only when the send
     * succeeded; that token then names this request in the pending list.
     */
    method SendEx(p: SendParams, wantCancelId: bool, w: WdfOutcomes) returns (status: NtStatus, cancelId: Option<int>)
      requires Valid() && ReferencesHeld() && ioTarget.Some? && SendContract(w)
      requires NtSuccess(w.createStatus) ==> w.newRequest !in requests
      modifies this`memoryObjects, this`pending, this`requests, this`poolContextsInUse, this`inFlight, counter,
               this`moduleReferences
      ensures Valid() && ReferencesHeld()
      ensures status == if NtSuccess(w.referenceStatus) then SendStatus(CreateAndSendStage(false, p, wantCancelId, w), false, w)
                        else w.referenceStatus
      ensures cancelId.Some? <==> NtSuccess(status) && wantCancelId
      ensures cancelId.Some? ==>
                cancelId.value == counter.value > old(counter.value) &&
                FindByCancelId(pending, requests, cancelId.value) == Some(w.newRequest)
      ensures NtSuccess(status) ==>
                inFlight == old(inFlight)[w.newRequest := SingleRequestContext(p.requestType, p.callback, CompletionOptionOf(), false)]
      ensures !NtSuccess(status) ==> inFlight == old(inFlight) && requests == old(requests) && pending == old(pending)
    {
      status, cancelId := SendAsynchronously(p, wantCancelId, w);
      if cancelId.Some? {
        CancelIdNamesOneRequest(pending, requests, w.newRequest);
      }
    }

    /** The body DMF_RequestTarget_Send and DMF_RequestTarget_SendEx share. */
    method SendAsynchronously(p: SendParams, wantCancelId: bool, w: WdfOutcomes)
      returns (status: NtStatus, cancelId: Option<int>)
      requires Valid() && ReferencesHeld() && ioTarget.Some? && SendContract(w)
      requires NtSuccess(w.createStatus) ==> w.newRequest !in requests
      modifies this`memoryObjects, this`pending, this`requests, this`poolContextsInUse, this`inFlight, counter,
               this`moduleReferences
      ensures Valid() && ReferencesHeld()
      ensures status == if NtSuccess(w.referenceStatus) then SendStatus(CreateAndSendStage(false, p, wantCancelId, w), false, w)
                        else w.referenceStatus
      ensures cancelId.Some? <==> NtSuccess(status) && wantCancelId
      ensures cancelId.Some? ==>
                cancelId.value == counter.value > old(counter.value) &&
                w.newRequest in pending && w.newRequest in requests && requests[w.newRequest].cancelId == counter.value
      ensures !wantCancelId ==> pending == old(pending)
      ensures NtSuccess(status) ==>
                inFlight == old(inFlight)[w.newRequest := SingleRequestContext(p.requestType, p.callback, CompletionOptionOf(), false)]
      ensures !NtSuccess(status) ==> inFlight == old(inFlight) && requests == old(requests) && pending == old(pending)
    {
      cancelId := None;
      if !NtSuccess(w.referenceStatus) {
        return w.referenceStatus, None;
      }
      assert NtSuccess(w.createStatus) ==> w.newRequest !in inFlight;
      moduleReferences := moduleReferences + 1;
      var bytesWritten;
      status, bytesWritten, cancelId := RequestCreateAndSend(false, p, CompletionOptionOf(), wantCancelId, w);
      AsynchronousSendSucceedsIffInFlight(false, p, wantCancelId, w);
      if !NtSuccess(status) {
        moduleReferences := moduleReferences - 1;
      }
    }

    /**
     * DMF_RequestTarget_SendSynchronously: with a module reference, create,
     * send and wait; the request is deleted whatever happens and the
     * reference released, so only the token counter can change. The
     * caller's BytesWritten is left untouched (None) when the reference is
     * refused or WdfRequestCreate fails; otherwise it receives the
     * transferred size on success and 0 on failure.
     */
    method SendSynchronously(p: SendParams, w: WdfOutcomes) returns (status: NtStatus, bytesWritten: Option<nat>)
      requires Valid() && ReferencesHeld() && ioTarget.Some? && SendContract(w)
      requires NtSuccess(w.createStatus) ==> w.newRequest !in requests
      modifies this`memoryObjects, this`pending, this`requests, this`poolContextsInUse, this`inFlight, counter,
               this`moduleReferences
      ensures Valid() && ReferencesHeld()
      ensures status == if NtSuccess(w.referenceStatus) then SendStatus(CreateAndSendStage(true, p, false, w), true, w)
                        else w.referenceStatus
      ensures bytesWritten == if !NtSuccess(w.referenceStatus) || !NtSuccess(w.createStatus) then None
                              else Some(if NtSuccess(status) then w.information else 0)
      ensures pending == old(pending) && requests == old(requests) && inFlight == old(inFlight)
      ensures memoryObjects == old(memoryObjects) && moduleReferences == old(moduleReferences)
    {
      bytesWritten := None;
      if !NtSuccess(w.referenceStatus) {
        return w.referenceStatus, None;
      }
      moduleReferences := moduleReferences + 1;
      var cancelId;
      status, bytesWritten, cancelId := RequestCreateAndSend(true, p, Dispatch, false, w);
      moduleReferences := moduleReferences - 1;
    }

    /**
     * DMF_RequestTarget_ReuseSend: with a module reference, send the reuse
     * request of the token asynchronously. The reference stays with the
     * request when the target took it, and is released otherwise.
     */
    method ReuseSend(token: int, p: SendParams, wantCancelId: bool, w: WdfOutcomes)
      returns (status: NtStatus, cancelId: Option<int>)
      requires Valid() && ReferencesHeld() && ioTarget.Some? && SendContract(w)
      modifies this`memoryObjects, this`pending, this`requests, this`poolContextsInUse, this`inFlight, counter,
               this`moduleReferences
      ensures Valid() && ReferencesHeld()
      ensures var c := ReuseCandidate(old(reuseList), old(requests), token);
              status == if !NtSuccess(w.referenceStatus) then w.referenceStatus
                        else SendStatus(ReuseSendStage(c.Some?, p, wantCancelId, w), false, w)
      ensures NtSuccess(w.referenceStatus) && ReuseCandidate(old(reuseList), old(requests), token).None? ==>
                status == STATUS_OBJECTID_NOT_FOUND
      ensures NtSuccess(status) ==>
                var r := ReuseCandidate(old(reuseList), old(requests), token).value;
                && inFlight == old(inFlight)[r := SingleRequestContext(p.requestType, p.callback, CompletionOptionOf(), true)]
                && requests[r].inUse
      ensures !NtSuccess(status) ==> inFlight == old(inFlight) && pending == old(pending)
      ensures !NtSuccess(status) ==> memoryObjects == old(memoryObjects)
      ensures !NtSuccess(status) ==>
                forall x :: x in old(requests) ==>
                  x in requests && requests[x].inUse == old(requests)[x].inUse &&
                  requests[x].reuseId == old(requests)[x].reuseId
      ensures cancelId.Some? <==> NtSuccess(status) && wantCancelId
      ensures cancelId.Some? ==>
                cancelId.value == counter.value > old(counter.value) &&
                FindByCancelId(pending, requests, cancelId.value) == ReuseCandidate(old(reuseList), old(requests), token)
    {
      cancelId := None;
      if !NtSuccess(w.referenceStatus) {
        return w.referenceStatus, None;
      }
      moduleReferences := moduleReferences + 1;
      ghost var c := ReuseCandidate(reuseList, requests, token);
      assert c.Some? ==> c.value !in inFlight;
      var stage;
      ghost var pending0, requests0, memoryObjects0, inFlight0, lastId0 :=
        pending, requests, memoryObjects, inFlight, counter.value;
      stage, status, cancelId := RequestSendReuse(token, p, CompletionOptionOf(), wantCancelId, w);
      AsynchronousSendSucceedsIffInFlight(c.Some?, p, wantCancelId, w);
      if c.Some? {
        ReuseSendOutcome(c.value, p, CompletionOptionOf(), wantCancelId, w, stage,
                         pending0, requests0, memoryObjects0, inFlight0, lastId0,
                         pending, requests, memoryObjects, inFlight, counter.value, reuseList, poolContextsInUse);
      }
      if !NtSuccess(status) {
        moduleReferences := moduleReferences - 1;
      }
    }
  }
}
