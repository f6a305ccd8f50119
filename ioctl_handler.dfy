/**
 * The IoctlHandler module: it answers device I/O control requests from a
 * table of IOCTL records. For the first record whose code matches, it checks
 * the sender's access and the buffer sizes the record demands, then calls the
 * record's handler and completes the request with what the handler returns,
 * unless the handler keeps the request pending. Requests it does not handle
 * can be forwarded down the stack. When a reference string is set, this
 * instance only serves the file objects whose name carries that string; in
 * the per-IOCTL administrator mode it remembers the file objects an
 * administrator opened.
 *
 * The framework's answers (the requestor mode, the buffer retrievals, the
 * client handler, security token queries, sends) are inputs.
 */
module IoctlHandler {
  import opened NtStatus
  import Collection

  /** A WDFFILEOBJECT handle (never NULL; a possibly NULL one is an Option). */
  type FileObject = nat

  /** IoctlHandler_AccessModeFilter. */
  datatype AccessModeFilter =
    | AccessModeDefault
    | KernelModeOnly
    | AdministratorOnly
    | AdministratorOnlyPerIoctl
    | ClientCallback

  /** IoctlHandler_IoctlRecord, without its handler function. */
  datatype IoctlRecord =
    IoctlRecord(ioctlCode: nat, inputBufferMinimumSize: nat, outputBufferMinimumSize: nat,
                administratorAccessOnly: bool)

  /**
   * DMF_CONFIG_IoctlHandler. referenceString is the reference string the
   * module routes by: it is set only when a device interface GUID and a
   * reference string are both configured.
   */
  datatype IoctlConfig =
    IoctlConfig(records: seq<IoctlRecord>, accessModeFilter: AccessModeFilter,
                kernelModeRequestsOnly: bool, forwardUnhandledRequests: bool,
                referenceString: Option<seq<char>>, manualMode: bool)

  /** An IRP_MJ_DEVICE_CONTROL request as the module sees it. */
  datatype IoctlRequest =
    IoctlRequest(ioControlCode: nat, fileObject: Option<FileObject>, fromKernelMode: bool,
                 inputLength: nat, outputLength: nat)

  /**
   * What the framework and the client answer while one request is
   * dispatched: failures of WdfRequestRetrieveInputBuffer and
   * WdfRequestRetrieveOutputBuffer other than a too-small buffer (a success
   * status when there is none), the status and byte count the record's
   * handler returns, and whether WdfRequestSend accepted a forwarded request
   * (with the status the request then carries when it did not).
   */
  datatype IoctlEnvironment =
    IoctlEnvironment(inputFault: NtStatus, outputFault: NtStatus,
                     handlerStatus: NtStatus, handlerBytesReturned: nat,
                     forwardSent: bool, forwardStatus: NtStatus)

  /** The call the module makes to a record's handler. */
  datatype HandlerCall = HandlerCall(tableIndex: nat, inputBufferSize: nat, outputBufferSize: nat)

  /** What happens to the request. */
  datatype RequestAction =
    | Completed(status: NtStatus, information: nat)
    | LeftPending
    | Forwarded(failedWith: Option<NtStatus>)
    | NotTouched

  /** DMF_IoctlHandler_ModuleDeviceIoControl's result, its effect on the request, and the handler call. */
  datatype IoctlOutcome = IoctlOutcome(handled: bool, action: RequestAction, call: Option<HandlerCall>)

  // ---------------------------------------------------------------------------
  // The dispatch decision.

  /** The index of the first record with the code, or |records| when none has it. */
  function FirstMatch(records: seq<IoctlRecord>, code: nat): (i: nat)
    ensures i <= |records|
    ensures i < |records| ==> records[i].ioctlCode == code
    ensures forall j :: 0 <= j < i ==> records[j].ioctlCode != code
    ensures i == |records| <==> forall j :: 0 <= j < |records| ==> records[j].ioctlCode != code
  {
    if |records| == 0 then 0
    else if records[0].ioctlCode == code then 0
    else 1 + FirstMatch(records[1..], code)
  }

  /**
   * WdfRequestRetrieveInputBuffer / WdfRequestRetrieveOutputBuffer: the
   * framework refuses a buffer whose length is zero or below the minimum with
   * STATUS_BUFFER_TOO_SMALL.
   */
  function RetrieveBuffer(length: nat, minimum: nat, fault: NtStatus): (st: NtStatus)
    ensures NtSuccess(st) <==> NtSuccess(fault) && length > 0 && length >= minimum
    ensures !NtSuccess(fault) ==> st == fault
  {
    if !NtSuccess(fault) then fault
    else if length == 0 || length < minimum then STATUS_BUFFER_TOO_SMALL
    else STATUS_SUCCESS
  }

  /**
   * The buffer size the handler gets: the buffer's length when retrieved; 0
   * (a NULL buffer) when it is too small but the record's minimum is 0;
   * otherwise the request fails with the retrieval's status.
   */
  function AcceptBuffer(length: nat, minimum: nat, fault: NtStatus): (r: Result<nat>)
    ensures r.Ok? ==> r.value == 0 || (r.value == length && length >= minimum)
    ensures NtSuccess(RetrieveBuffer(length, minimum, fault)) ==> r == Ok(length)
    ensures RetrieveBuffer(length, minimum, fault) == STATUS_BUFFER_TOO_SMALL && minimum == 0 ==> r == Ok(0)
    ensures minimum == 0 && NtSuccess(fault) ==> r.Ok?
    ensures r.Err? <==> !NtSuccess(RetrieveBuffer(length, minimum, fault)) &&
                        !(RetrieveBuffer(length, minimum, fault) == STATUS_BUFFER_TOO_SMALL && minimum == 0)
    ensures r.Err? ==> r.status == RetrieveBuffer(length, minimum, fault) && !NtSuccess(r.status)
  {
    var st := RetrieveBuffer(length, minimum, fault);
    if NtSuccess(st) then Ok(length)
    else if st == STATUS_BUFFER_TOO_SMALL && minimum == 0 then Ok(0)
    else Err(st)
  }

  /** The request's file object is one an administrator opened. */
  predicate IsAdministratorOf(administrators: seq<FileObject>, f: Option<FileObject>) {
    f.Some? && f.value in administrators
  }

  /** The status, the byte count and the handler call for a matched record. */
  datatype Handling = Handling(status: NtStatus, bytesReturned: nat, call: Option<HandlerCall>)

  /**
   * The access checks of the table loop refuse the sender: a user-mode
   * request on a kernel-mode-only module, or a non-administrator's request
   * for a record reserved to administrators.
   */
  predicate AccessRefused(c: IoctlConfig, administrators: seq<FileObject>, req: IoctlRequest, i: nat)
    requires i < |c.records|
  {
    || (c.kernelModeRequestsOnly && !req.fromKernelMode)
    || (c.accessModeFilter == AdministratorOnlyPerIoctl && c.records[i].administratorAccessOnly &&
        !IsAdministratorOf(administrators, req.fileObject))
  }

  /** The body of the table loop once record i matched. */
  function HandleMatched(c: IoctlConfig, administrators: seq<FileObject>, req: IoctlRequest,
                         env: IoctlEnvironment, i: nat): (h: Handling)
    requires i < |c.records|
    ensures AccessRefused(c, administrators, req, i) ==> h == Handling(STATUS_ACCESS_DENIED, 0, None)
    ensures !AccessRefused(c, administrators, req, i) ==>
              var input := AcceptBuffer(req.inputLength, c.records[i].inputBufferMinimumSize, env.inputFault);
              var output := AcceptBuffer(req.outputLength, c.records[i].outputBufferMinimumSize, env.outputFault);
              && (input.Ok? && output.Ok? ==>
                    h == Handling(env.handlerStatus, env.handlerBytesReturned,
                                  Some(HandlerCall(i, input.value, output.value))))
              && (input.Err? ==> h == Handling(input.status, 0, None))
              && (input.Ok? && output.Err? ==> h == Handling(output.status, 0, None))
    ensures h.call.Some? ==>
              h.call.value.tableIndex == i &&
              h.status == env.handlerStatus && h.bytesReturned == env.handlerBytesReturned
    ensures h.call.Some? ==>
              AcceptBuffer(req.inputLength, c.records[i].inputBufferMinimumSize, env.inputFault)
                == Ok(h.call.value.inputBufferSize) &&
              AcceptBuffer(req.outputLength, c.records[i].outputBufferMinimumSize, env.outputFault)
                == Ok(h.call.value.outputBufferSize)
    ensures h.call.None? ==> h.bytesReturned == 0 && !NtSuccess(h.status)
  {
    var record := c.records[i];
    if c.kernelModeRequestsOnly && !req.fromKernelMode then
      Handling(STATUS_ACCESS_DENIED, 0, None)
    else if c.accessModeFilter == AdministratorOnlyPerIoctl && record.administratorAccessOnly &&
            !IsAdministratorOf(administrators, req.fileObject) then
      Handling(STATUS_ACCESS_DENIED, 0, None)
    else
      match AcceptBuffer(req.inputLength, record.inputBufferMinimumSize, env.inputFault)
      case Err(st) => Handling(st, 0, None)
      case Ok(inputSize) =>
        match AcceptBuffer(req.outputLength, record.outputBufferMinimumSize, env.outputFault)
        case Err(st) => Handling(st, 0, None)
        case Ok(outputSize) =>
          Handling(env.handlerStatus, env.handlerBytesReturned,
                   Some(HandlerCall(i, inputSize, outputSize)))
  }

  /** The request is for another instance: its file object was opened with another reference string. */
  predicate RoutedElsewhere(c: IoctlConfig, associated: seq<FileObject>, req: IoctlRequest) {
    c.referenceString.Some? && req.fileObject.Some? && req.fileObject.value !in associated
  }

  /** IoctlHandler_RequestForward, as the action on the request. */
  function ForwardAction(env: IoctlEnvironment): RequestAction {
    Forwarded(if env.forwardSent then None else Some(env.forwardStatus))
  }

  /** The end of ModuleDeviceIoControl for a request no record handled. */
  function Unhandled(c: IoctlConfig, env: IoctlEnvironment): (o: IoctlOutcome)
    ensures o.handled <==> c.forwardUnhandledRequests
    ensures o.handled ==> o.action == ForwardAction(env)
    ensures !o.handled ==> o.action == NotTouched
    ensures o.call.None?
  {
    if c.forwardUnhandledRequests then IoctlOutcome(true, ForwardAction(env), None)
    else IoctlOutcome(false, NotTouched, None)
  }

  /** DMF_IoctlHandler_ModuleDeviceIoControl, as a decision on the request. */
  function Dispatch(c: IoctlConfig, associated: seq<FileObject>, administrators: seq<FileObject>,
                    req: IoctlRequest, env: IoctlEnvironment): (o: IoctlOutcome)
    ensures o.call.Some? ==>
              var i := o.call.value.tableIndex;
              i < |c.records| && c.records[i].ioctlCode == req.ioControlCode &&
              forall j :: 0 <= j < i ==> c.records[j].ioctlCode != req.ioControlCode
    ensures o.call.Some? ==>
              (o.action == LeftPending <==> env.handlerStatus == STATUS_PENDING) &&
              (o.action != LeftPending ==> o.action == Completed(env.handlerStatus, env.handlerBytesReturned))
    ensures o.call.Some? && c.accessModeFilter == AdministratorOnlyPerIoctl &&
            c.records[o.call.value.tableIndex].administratorAccessOnly ==>
              IsAdministratorOf(administrators, req.fileObject)
    ensures o.call.Some? ==> !c.kernelModeRequestsOnly || req.fromKernelMode
    ensures o.action.Forwarded? <==>
              (c.forwardUnhandledRequests &&
               (RoutedElsewhere(c, associated, req) || FirstMatch(c.records, req.ioControlCode) == |c.records|))
    ensures !o.handled <==>
              (!c.forwardUnhandledRequests &&
               (RoutedElsewhere(c, associated, req) || FirstMatch(c.records, req.ioControlCode) == |c.records|))
    ensures RoutedElsewhere(c, associated, req) || FirstMatch(c.records, req.ioControlCode) == |c.records| ==>
              o == Unhandled(c, env)
    ensures !RoutedElsewhere(c, associated, req) && FirstMatch(c.records, req.ioControlCode) < |c.records| ==>
              var h := HandleMatched(c, administrators, req, env, FirstMatch(c.records, req.ioControlCode));
              && o.handled && o.call == h.call
              && o.action == (if h.status == STATUS_PENDING then LeftPending else Completed(h.status, h.bytesReturned))
  {
    if RoutedElsewhere(c, associated, req) then Unhandled(c, env)
    else
      var i := FirstMatch(c.records, req.ioControlCode);
      if i == |c.records| then Unhandled(c, env)
      else
        var h := HandleMatched(c, administrators, req, env, i);
        var action := if h.status == STATUS_PENDING then LeftPending
                      else Completed(h.status, h.bytesReturned);
        IoctlOutcome(true, action, h.call)
  }

  /** A request a record matches is handled, and a denied sender never reaches the handler. */
  lemma MatchedRequestIsHandled(c: IoctlConfig, associated: seq<FileObject>,
                                administrators: seq<FileObject>, req: IoctlRequest,
                                env: IoctlEnvironment, k: nat)
    requires k < |c.records| && c.records[k].ioctlCode == req.ioControlCode
    requires !RoutedElsewhere(c, associated, req)
    ensures Dispatch(c, associated, administrators, req, env).handled
    ensures c.kernelModeRequestsOnly && !req.fromKernelMode ==>
              Dispatch(c, associated, administrators, req, env)
                == IoctlOutcome(true, Completed(STATUS_ACCESS_DENIED, 0), None)
  {
    assert FirstMatch(c.records, req.ioControlCode) <= k;
  }

  /** Only the first matching record counts: records after it never change the outcome. */
  lemma {:induction false} LaterRecordsIrrelevant(records: seq<IoctlRecord>, more: seq<IoctlRecord>, code: nat)
    requires FirstMatch(records, code) < |records|
    ensures FirstMatch(records + more, code) == FirstMatch(records, code)
  {
    if records[0].ioctlCode != code {
      assert (records + more)[1..] == records[1..] + more;
      LaterRecordsIrrelevant(records[1..], more, code);
    }
  }

  // ---------------------------------------------------------------------------
  // File objects: creation routing, cleanup.

  /** How DMF_IoctlHandler_FileCreate routes a file object by its name. */
  datatype Route = NotRouted | Associate | Elsewhere

  /**
   * With a reference string and a file object, a name of at most one
   * character is taken by this instance; a longer name is taken iff the
   * name after its first character (the leading backslash) is the reference
   * string, compared case-sensitively.
   */
  function RouteOf(referenceString: Option<seq<char>>, requestFileObject: Option<FileObject>,
                   fileName: seq<char>): (r: Route)
    ensures r == NotRouted <==> referenceString.None? || requestFileObject.None?
    ensures r == Associate <==>
              referenceString.Some? && requestFileObject.Some? &&
              (|fileName| <= 1 || fileName[1..] == referenceString.value)
  {
    if referenceString.None? || requestFileObject.None? then NotRouted
    else if |fileName| <= 1 then Associate
    else if fileName[1..] == referenceString.value then Associate
    else Elsewhere
  }

  /**
   * What the framework and the system answer while one file object is
   * created: its name, whether the driver is a filter, what
   * DMF_ModuleRequestCompleteOrForward returns, whether the create carries a
   * security context and an access token, whether the token is an
   * administrator's, the statuses of the two WdfCollectionAdd calls, and
   * what the client's access filter returns.
   */
  datatype CreateEnvironment =
    CreateEnvironment(fileName: seq<char>, inFilterDriver: bool, completeOrForwardResult: bool,
                      hasSecurityContext: bool, hasAccessToken: bool, tokenIsAdmin: bool,
                      associateStatus: NtStatus, administratorAddStatus: NtStatus,
                      clientFilterResult: bool)

  /**
   * DMF_IoctlHandler_FileCreate's result, the status it completes (or
   * forwards) the create request with, if any, and the two lists after it.
   */
  datatype CreateOutcome =
    CreateOutcome(handled: bool, completedWith: Option<NtStatus>,
                  associated: seq<FileObject>, administrators: seq<FileObject>)

  /** The access-mode part of FileCreate, once routing accepted the file object. */
  function AdmitFile(c: IoctlConfig, associated: seq<FileObject>, administrators: seq<FileObject>,
                     fileObject: FileObject, env: CreateEnvironment): (o: CreateOutcome)
    ensures o.associated == associated
    ensures o.administrators != administrators ==>
              c.accessModeFilter == AdministratorOnlyPerIoctl && env.tokenIsAdmin &&
              NtSuccess(env.administratorAddStatus) && o.administrators == administrators + [fileObject] &&
              !o.handled && o.completedWith.None?
    ensures c.accessModeFilter == AdministratorOnly ==>
              (o.completedWith.None? <==> env.hasSecurityContext && env.hasAccessToken && env.tokenIsAdmin)
    ensures c.accessModeFilter == AdministratorOnly && o.completedWith.Some? ==>
              o.completedWith == Some(STATUS_ACCESS_DENIED)
    ensures c.accessModeFilter == AdministratorOnlyPerIoctl && env.hasSecurityContext && env.hasAccessToken &&
            !env.tokenIsAdmin ==>
              o == CreateOutcome(false, None, associated, administrators)
    ensures c.accessModeFilter == ClientCallback ==>
              o == CreateOutcome(env.clientFilterResult, None, associated, administrators)
  {
    match c.accessModeFilter
    case AccessModeDefault => PassThrough(associated, administrators, env)
    case KernelModeOnly => PassThrough(associated, administrators, env)
    case ClientCallback => CreateOutcome(env.clientFilterResult, None, associated, administrators)
    case _ =>
      if !env.hasSecurityContext || !env.hasAccessToken then
        CreateOutcome(env.completeOrForwardResult, Some(STATUS_ACCESS_DENIED), associated, administrators)
      else if env.tokenIsAdmin && c.accessModeFilter == AdministratorOnlyPerIoctl then
        if NtSuccess(env.administratorAddStatus) then
          CreateOutcome(false, None, associated, administrators + [fileObject])
        else
          CreateOutcome(env.completeOrForwardResult, Some(env.administratorAddStatus), associated, administrators)
      else if env.tokenIsAdmin || c.accessModeFilter == AdministratorOnlyPerIoctl then
        CreateOutcome(false, None, associated, administrators)
      else
        CreateOutcome(env.completeOrForwardResult, Some(STATUS_ACCESS_DENIED), associated, administrators)
  }

  /** The default modes do what the framework would: a filter driver passes the create on. */
  function PassThrough(associated: seq<FileObject>, administrators: seq<FileObject>,
                       env: CreateEnvironment): CreateOutcome
  {
    if env.inFilterDriver
    then CreateOutcome(env.completeOrForwardResult, Some(STATUS_SUCCESS), associated, administrators)
    else CreateOutcome(false, None, associated, administrators)
  }

  /** DMF_IoctlHandler_FileCreate. */
  function CreateFile(c: IoctlConfig, associated: seq<FileObject>, administrators: seq<FileObject>,
                      fileObject: FileObject, requestFileObject: Option<FileObject>,
                      env: CreateEnvironment): (o: CreateOutcome)
    ensures RouteOf(c.referenceString, requestFileObject, env.fileName) == Elsewhere ==>
              o == CreateOutcome(false, None, associated, administrators)
    ensures RouteOf(c.referenceString, requestFileObject, env.fileName) == Associate ==>
              if NtSuccess(env.associateStatus)
              then o.associated == associated + [requestFileObject.value]
              else o == CreateOutcome(env.completeOrForwardResult, Some(env.associateStatus),
                                      associated, administrators)
    ensures RouteOf(c.referenceString, requestFileObject, env.fileName) == NotRouted ==>
              o.associated == associated
    ensures o.administrators == administrators ||
            (c.accessModeFilter == AdministratorOnlyPerIoctl && o.administrators == administrators + [fileObject])
  {
    match RouteOf(c.referenceString, requestFileObject, env.fileName)
    case Elsewhere => CreateOutcome(false, None, associated, administrators)
    case Associate =>
      if NtSuccess(env.associateStatus)
      then AdmitFile(c, associated + [requestFileObject.value], administrators, fileObject, env)
      else CreateOutcome(env.completeOrForwardResult, Some(env.associateStatus), associated, administrators)
    case NotRouted => AdmitFile(c, associated, administrators, fileObject, env)
  }

  /** The two lists after DMF_IoctlHandler_FileCleanup. */
  datatype FileLists = FileLists(associated: seq<FileObject>, administrators: seq<FileObject>)

  /**
   * DMF_IoctlHandler_FileCleanup: with a reference string, the file object
   * is taken out of the associated list, and cleanup stops there when it was
   * not in it; in the per-IOCTL administrator mode it is then taken out of
   * the administrator list.
   */
  function CleanupFile(c: IoctlConfig, lists: FileLists, f: Option<FileObject>): (r: FileLists)
    ensures f.None? ==> r == lists
    ensures f.Some? && c.referenceString.Some? ==>
              r.associated == Collection.RemoveFirst(lists.associated, f.value)
    ensures c.referenceString.None? ==> r.associated == lists.associated
    ensures r.administrators != lists.administrators ==>
              c.accessModeFilter == AdministratorOnlyPerIoctl && f.Some? &&
              f.value in lists.administrators &&
              (c.referenceString.Some? ==> f.value in lists.associated)
    ensures c.accessModeFilter == AdministratorOnlyPerIoctl && f.Some? &&
            (c.referenceString.None? || f.value in lists.associated) ==>
              r.administrators == Collection.RemoveFirst(lists.administrators, f.value)
  {
    if f.None? then lists
    else if c.referenceString.Some? && f.value !in lists.associated then lists
    else
      var associated :=
        if c.referenceString.Some? then Collection.RemoveFirst(lists.associated, f.value)
        else lists.associated;
      if c.accessModeFilter != AdministratorOnlyPerIoctl then FileLists(associated, lists.administrators)
      else FileLists(associated, Collection.RemoveFirst(lists.administrators, f.value))
  }

  /**
   * DMF_IoctlHandler_FileClose runs the cleanup again after
   * DMF_IoctlHandler_FileCleanup; on duplicate-free lists the second run
   * changes nothing.
   */
  lemma CleanupThenCloseIsCleanup(c: IoctlConfig, lists: FileLists, f: Option<FileObject>)
    requires Collection.NoDup(lists.associated) && Collection.NoDup(lists.administrators)
    ensures CleanupFile(c, CleanupFile(c, lists, f), f) == CleanupFile(c, lists, f)
  {
    if f.Some? {
      Collection.RemoveFirstNoDup(lists.associated, f.value);
      Collection.RemoveFirstNoDup(lists.administrators, f.value);
    }
  }

  /** A file object this instance admitted is served by it afterwards, until its cleanup. */
  lemma AssociatedFileIsServed(c: IoctlConfig, associated: seq<FileObject>,
                               administrators: seq<FileObject>, fileObject: FileObject,
                               requestFileObject: Option<FileObject>, env: CreateEnvironment,
                               req: IoctlRequest)
    requires RouteOf(c.referenceString, requestFileObject, env.fileName) == Associate
    requires NtSuccess(env.associateStatus)
    requires req.fileObject == requestFileObject
    ensures !RoutedElsewhere(c, CreateFile(c, associated, administrators, fileObject,
                                           requestFileObject, env).associated, req)
  {
  }

  /**
   * In the per-IOCTL administrator mode, a file object an administrator
   * opened passes the administrator check of the IOCTL table until its
   * cleanup takes it out of the administrator list again.
   */
  lemma AdministratorAccessLastsUntilCleanup(c: IoctlConfig, associated: seq<FileObject>,
                                             administrators: seq<FileObject>, fileObject: FileObject,
                                             env: CreateEnvironment)
    requires c.accessModeFilter == AdministratorOnlyPerIoctl && c.referenceString.None?
    requires env.hasSecurityContext && env.hasAccessToken && env.tokenIsAdmin
    requires NtSuccess(env.administratorAddStatus)
    requires Collection.NoDup(administrators) && fileObject !in administrators
    ensures var o := CreateFile(c, associated, administrators, fileObject, Some(fileObject), env);
            IsAdministratorOf(o.administrators, Some(fileObject)) &&
            !IsAdministratorOf(CleanupFile(c, FileLists(o.associated, o.administrators), Some(fileObject)).administrators,
                               Some(fileObject))
  {
    var o := CreateFile(c, associated, administrators, fileObject, Some(fileObject), env);
    assert o.administrators == administrators + [fileObject];
    Collection.AddKeepsNoDup(administrators, fileObject);
    Collection.RemoveFirstNoDup(o.administrators, fileObject);
  }

  /**
   * The file object is added to the associated list before the access check,
   * so a create the AdministratorOnly mode refuses still leaves its file
   * object in the list.
   */
  lemma RefusedCreateStaysAssociated(c: IoctlConfig, associated: seq<FileObject>,
                                     administrators: seq<FileObject>, fileObject: FileObject,
                                     requestFileObject: Option<FileObject>, env: CreateEnvironment)
    requires c.accessModeFilter == AdministratorOnly
    requires RouteOf(c.referenceString, requestFileObject, env.fileName) == Associate
    requires NtSuccess(env.associateStatus) && !env.tokenIsAdmin
    ensures var o := CreateFile(c, associated, administrators, fileObject, requestFileObject, env);
            o.completedWith == Some(STATUS_ACCESS_DENIED) && requestFileObject.value in o.associated
  {
  }

  // ---------------------------------------------------------------------------
  // The module's state and its methods.

  class IoctlHandlerModule {
    const config: IoctlConfig
    /** AdministratorFileObjectsCollection. */
    var administrators: seq<FileObject>
    /** AssociatedFileObjects. */
    var associated: seq<FileObject>
    var isDeviceInterfaceCreated: bool
    /** The state last given to WdfDeviceSetDeviceInterfaceState, if any. */
    var interfaceState: Option<bool>

    /**
     * The module after DMF_IoctlHandler_Open succeeded: both lists are empty,
     * the interface was created unless the module is in manual mode, and in
     * manual mode it was disabled.
     */
    constructor(config: IoctlConfig)
      ensures this.config == config && administrators == [] && associated == []
      ensures isDeviceInterfaceCreated == !config.manualMode
      ensures interfaceState == (if config.manualMode then Some(false) else None)
    {
      this.config := config;
      administrators := [];
      associated := [];
      isDeviceInterfaceCreated := !config.manualMode;
      interfaceState := if config.manualMode then Some(false) else None;
    }

    /**
     * IoctlHandler_AssociatedFileObjectsLookUp on a list: a scan from the
     * front that stops at the first match and, when asked to, removes it.
     */
    static method LookUp(list: seq<FileObject>, lookFor: FileObject, deleteIfFound: bool)
      returns (found: bool, after: seq<FileObject>)
      ensures found <==> lookFor in list
      ensures after == if found && deleteIfFound then Collection.RemoveFirst(list, lookFor) else list
    {
      found := false;
      after := list;
      for itemIndex := 0 to |list|
        invariant !found && after == list
        invariant forall j :: 0 <= j < itemIndex ==> list[j] != lookFor
      {
        if list[itemIndex] == lookFor {
          found := true;
          if deleteIfFound {
            Collection.RemoveItemAtFirstMatch(list, lookFor, itemIndex);
            after := Collection.RemoveItem(list, itemIndex);
          }
          return;
        }
      }
    }

    /** IoctlHandler_AssociatedFileObjectsLookUp. */
    method AssociatedFileObjectsLookUp(lookFor: FileObject, deleteIfFound: bool) returns (found: bool)
      modifies this
      ensures found <==> lookFor in old(associated)
      ensures associated ==
                if found && deleteIfFound then Collection.RemoveFirst(old(associated), lookFor)
                else old(associated)
      ensures administrators == old(administrators)
      ensures isDeviceInterfaceCreated == old(isDeviceInterfaceCreated) && interfaceState == old(interfaceState)
    {
      found, associated := LookUp(associated, lookFor, deleteIfFound);
    }

    /**
     * The administrator scan of ModuleDeviceIoControl: walk the collection
     * with WdfCollectionGetItem until it returns NULL.
     */
    static method IsAdministrator(administrators: seq<FileObject>, fileObjectOfRequest: Option<FileObject>)
      returns (isAdministrator: bool)
      ensures isAdministrator <==> IsAdministratorOf(administrators, fileObjectOfRequest)
    {
      isAdministrator := false;
      var itemIndex: nat := 0;
      var fileObject := Collection.GetItem(administrators, itemIndex);
      while fileObject.Some?
        invariant itemIndex <= |administrators|
        invariant fileObject == Collection.GetItem(administrators, itemIndex)
        invariant forall j :: 0 <= j < itemIndex ==> Some(administrators[j]) != fileObjectOfRequest
        decreases |administrators| - itemIndex
      {
        if fileObject == fileObjectOfRequest {
          isAdministrator := true;
          return;
        }
        itemIndex := itemIndex + 1;
        fileObject := Collection.GetItem(administrators, itemIndex);
      }
    }

    /**
     * DMF_IoctlHandler_ModuleDeviceIoControl: routing by file object, then
     * the loop over the IOCTL table, then completion, pending or forwarding.
     */
    method ModuleDeviceIoControl(req: IoctlRequest, env: IoctlEnvironment) returns (outcome: IoctlOutcome)
      ensures outcome == Dispatch(config, associated, administrators, req, env)
    {
      var handled := false;
      var bytesReturned := 0;
      var ntStatus := STATUS_INVALID_DEVICE_REQUEST;
      var call: Option<HandlerCall> := None;
      var routedAway := false;
      if config.referenceString.Some? && req.fileObject.Some? {
        var found, _ := LookUp(associated, req.fileObject.value, false);
        routedAway := !found;
      }
      if !routedAway {
        for tableIndex := 0 to |config.records|
          invariant !handled && call.None?
          invariant forall j :: 0 <= j < tableIndex ==> config.records[j].ioctlCode != req.ioControlCode
        {
          var ioctlRecord := config.records[tableIndex];
          if ioctlRecord.ioctlCode == req.ioControlCode {
            handled := true;
            ntStatus, bytesReturned, call := HandleRecord(req, env, tableIndex);
            break;
          }
        }
      }
      if handled {
        if ntStatus == STATUS_PENDING {
          outcome := IoctlOutcome(true, LeftPending, call);
        } else {
          outcome := IoctlOutcome(true, Completed(ntStatus, bytesReturned), call);
        }
      } else if config.forwardUnhandledRequests {
        outcome := IoctlOutcome(true, ForwardAction(env), None);
      } else {
        outcome := IoctlOutcome(false, NotTouched, None);
      }
    }

    /** The body of the table loop for the record that matched. */
    method HandleRecord(req: IoctlRequest, env: IoctlEnvironment, tableIndex: nat)
      returns (ntStatus: NtStatus, bytesReturned: nat, call: Option<HandlerCall>)
      requires tableIndex < |config.records|
      ensures Handling(ntStatus, bytesReturned, call) == HandleMatched(config, administrators, req, env, tableIndex)
    {
      var ioctlRecord := config.records[tableIndex];
      bytesReturned := 0;
      call := None;
      if config.kernelModeRequestsOnly && !req.fromKernelMode {
        return STATUS_ACCESS_DENIED, 0, None;
      }
      if config.accessModeFilter == AdministratorOnlyPerIoctl && ioctlRecord.administratorAccessOnly {
        var isAdministrator := IsAdministrator(administrators, req.fileObject);
        if !isAdministrator {
          return STATUS_ACCESS_DENIED, 0, None;
        }
      }
      var inputBufferSize := req.inputLength;
      ntStatus := RetrieveBuffer(req.inputLength, ioctlRecord.inputBufferMinimumSize, env.inputFault);
      if !NtSuccess(ntStatus) {
        if ntStatus == STATUS_BUFFER_TOO_SMALL && ioctlRecord.inputBufferMinimumSize == 0 {
          inputBufferSize := 0;
        } else {
          return;
        }
      }
      var outputBufferSize := req.outputLength;
      ntStatus := RetrieveBuffer(req.outputLength, ioctlRecord.outputBufferMinimumSize, env.outputFault);
      if !NtSuccess(ntStatus) {
        if ntStatus == STATUS_BUFFER_TOO_SMALL && ioctlRecord.outputBufferMinimumSize == 0 {
          outputBufferSize := 0;
        } else {
          return;
        }
      }
      ntStatus := env.handlerStatus;
      bytesReturned := env.handlerBytesReturned;
      call := Some(HandlerCall(tableIndex, inputBufferSize, outputBufferSize));
    }

    /** DMF_IoctlHandler_FileCreate. */
    method FileCreate(fileObject: FileObject, requestFileObject: Option<FileObject>, env: CreateEnvironment)
      returns (handled: bool, completedWith: Option<NtStatus>)
      modifies this
      ensures CreateOutcome(handled, completedWith, associated, administrators) ==
                CreateFile(config, old(associated), old(administrators), fileObject, requestFileObject, env)
      ensures isDeviceInterfaceCreated == old(isDeviceInterfaceCreated) && interfaceState == old(interfaceState)
    {
      handled := false;
      completedWith := None;
      if config.referenceString.Some? && requestFileObject.Some? {
        var fileName := env.fileName;
        if |fileName| > 1 && fileName[1..] != config.referenceString.value {
          return;
        }
        if !NtSuccess(env.associateStatus) {
          return env.completeOrForwardResult, Some(env.associateStatus);
        }
        associated := associated + [requestFileObject.value];
      }
      if config.accessModeFilter == AccessModeDefault || config.accessModeFilter == KernelModeOnly {
        if env.inFilterDriver {
          handled, completedWith := env.completeOrForwardResult, Some(STATUS_SUCCESS);
        }
      } else if config.accessModeFilter == ClientCallback {
        handled := env.clientFilterResult;
      } else {
        var ntStatus := STATUS_ACCESS_DENIED;
        if env.hasSecurityContext && env.hasAccessToken {
          if env.tokenIsAdmin {
            if config.accessModeFilter == AdministratorOnlyPerIoctl {
              ntStatus := env.administratorAddStatus;
              if NtSuccess(ntStatus) {
                administrators := administrators + [fileObject];
              }
            } else {
              ntStatus := STATUS_SUCCESS;
            }
          } else if config.accessModeFilter == AdministratorOnlyPerIoctl {
            ntStatus := STATUS_SUCCESS;
          }
        }
        if !NtSuccess(ntStatus) {
          handled, completedWith := env.completeOrForwardResult, Some(ntStatus);
        }
      }
    }

    /** DMF_IoctlHandler_FileCleanup: always lets other modules see the cleanup too. */
    method FileCleanup(f: Option<FileObject>) returns (handled: bool)
      modifies this
      ensures !handled
      ensures FileLists(associated, administrators) ==
                CleanupFile(config, FileLists(old(associated), old(administrators)), f)
      ensures isDeviceInterfaceCreated == old(isDeviceInterfaceCreated) && interfaceState == old(interfaceState)
    {
      handled := false;
      if f.Some? && config.referenceString.Some? {
        var found := AssociatedFileObjectsLookUp(f.value, true);
        if !found {
          return;
        }
      }
      if config.accessModeFilter != AdministratorOnlyPerIoctl {
        return;
      }
      var itemIndex: nat := 0;
      var fileObject := Collection.GetItem(administrators, itemIndex);
      while fileObject.Some?
        invariant itemIndex <= |administrators|
        invariant fileObject == Collection.GetItem(administrators, itemIndex)
        invariant forall j :: 0 <= j < itemIndex ==> Some(administrators[j]) != f
        decreases |administrators| - itemIndex
      {
        if fileObject == f {
          Collection.RemoveItemAtFirstMatch(administrators, f.value, itemIndex);
          administrators := Collection.RemoveItem(administrators, itemIndex);
          return;
        }
        itemIndex := itemIndex + 1;
        fileObject := Collection.GetItem(administrators, itemIndex);
      }
      assert f.Some? ==> f.value !in administrators;
    }

    /** DMF_IoctlHandler_FileClose: the cleanup once more. */
    method FileClose(f: Option<FileObject>) returns (handled: bool)
      modifies this
      ensures !handled
      ensures FileLists(associated, administrators) ==
                CleanupFile(config, FileLists(old(associated), old(administrators)), f)
      ensures isDeviceInterfaceCreated == old(isDeviceInterfaceCreated) && interfaceState == old(interfaceState)
    {
      handled := FileCleanup(f);
    }

    /**
     * IoctlHandler_DeviceInterfaceCreate, given the status of
     * WdfDeviceCreateDeviceInterface and that of the client's
     * PostDeviceInterfaceCreate callback (None when there is none).
     */
    method DeviceInterfaceCreate(createStatus: NtStatus, postCreateStatus: Option<NtStatus>)
      returns (ntStatus: NtStatus)
      modifies this
      ensures ntStatus == InterfaceCreateStatus(createStatus, postCreateStatus)
      ensures isDeviceInterfaceCreated == (old(isDeviceInterfaceCreated) || NtSuccess(createStatus))
      ensures associated == old(associated) && administrators == old(administrators)
      ensures interfaceState == old(interfaceState)
    {
      ntStatus := createStatus;
      if !NtSuccess(ntStatus) {
        return;
      }
      isDeviceInterfaceCreated := true;
      if postCreateStatus.Some? {
        ntStatus := postCreateStatus.value;
      }
    }

    /**
     * DMF_IoctlHandler_IoctlStateSet: in manual mode the first enable creates
     * the interface; the interface state is set unless that creation failed.
     */
    method IoctlStateSet(enable: bool, createStatus: NtStatus, postCreateStatus: Option<NtStatus>)
      modifies this
      ensures associated == old(associated) && administrators == old(administrators)
      ensures var creates := config.manualMode && enable && !old(isDeviceInterfaceCreated);
              var failed := creates && !NtSuccess(InterfaceCreateStatus(createStatus, postCreateStatus));
              (isDeviceInterfaceCreated == (old(isDeviceInterfaceCreated) || (creates && NtSuccess(createStatus)))) &&
              (interfaceState == if failed then old(interfaceState) else Some(enable))
    {
      if config.manualMode && enable && !isDeviceInterfaceCreated {
        var ntStatus := DeviceInterfaceCreate(createStatus, postCreateStatus);
        if !NtSuccess(ntStatus) {
          return;
        }
      }
      interfaceState := Some(enable);
    }
  }

  /** The status IoctlHandler_DeviceInterfaceCreate returns. */
  function InterfaceCreateStatus(createStatus: NtStatus, postCreateStatus: Option<NtStatus>): (st: NtStatus)
    ensures !NtSuccess(createStatus) ==> st == createStatus
    ensures postCreateStatus.None? ==> st == createStatus
    ensures NtSuccess(createStatus) && postCreateStatus.Some? ==> st == postCreateStatus.value
  {
    if !NtSuccess(createStatus) then createStatus
    else if postCreateStatus.Some? then postCreateStatus.value
    else createStatus
  }
}
