/** internal/agent: the executor behind the socket and the client in front of it. */
module Agent {
  import opened Wrappers
  import opened ServiceNames
  import Command

  datatype Request = Request(service: string, action: string)

  datatype Response = Response(status: string, reason: string)

  datatype AgentError =
    | Unavailable | ConnectionRefused | Timeout | MalformedResponse | NotImplemented | MutationDisabled
    | ServiceNotAllowlisted | CommandFailed | InvalidSocketPath | InvalidServiceName | UnsupportedAction

  const RESPONSE_OK := "ok"
  const RESPONSE_ERROR := "error"
  const NOT_IMPLEMENTED := "not_implemented"
  const MUTATION_DISABLED := "mutation_disabled"
  const SERVICE_NOT_ALLOWLISTED := "service_not_allowlisted"
  const UNSUPPORTED_ACTION := "unsupported_action"
  const VALIDATION_ERROR := "validation_error"
  const COMMAND_FAILED := "command_failed"
  const COMMAND_TIMEOUT := "command_timeout"

  predicate SupportedAction(action: string)
  {
    action == "start" || action == "stop" || action == "restart"
  }

  /** The name is checked before the action. */
  function ValidateRequest(request: Request): Option<AgentError>
  {
    if !ValidServiceName(request.service) then Some(InvalidServiceName)
    else if !SupportedAction(request.action) then Some(UnsupportedAction)
    else None
  }

  datatype Executor = Executor(mutationEnabled: bool, allowlist: set<string>, outputLimit: int)

  /** The reason for which a request is turned away before any command is started. */
  function Refusal(executor: Executor, request: Request): Option<string>
  {
    if !executor.mutationEnabled then Some(MUTATION_DISABLED)
    else match ValidateRequest(request)
      case Some(InvalidServiceName) => Some(VALIDATION_ERROR)
      case Some(_) => Some(UNSUPPORTED_ACTION)
      case None => if request.service !in executor.allowlist then Some(SERVICE_NOT_ALLOWLISTED) else None
  }

  function CommandFailureReason(error: Command.RunError): string
  {
    if error.CommandTimeout? then COMMAND_TIMEOUT else COMMAND_FAILED
  }

  /** Executor.ControlService, with the behaviour of the started command as an input. */
  function ControlService(executor: Executor, request: Request, process: Command.Process): Response
  {
    match Refusal(executor, request)
    case Some(reason) => Response(RESPONSE_ERROR, reason)
    case None =>
      match Command.RunVerdict(process, Command.EffectiveOutputLimit(executor.outputLimit))
      case Some(error) => Response(RESPONSE_ERROR, CommandFailureReason(error))
      case None => Response(RESPONSE_OK, "")
  }

  /** What the client makes of a decoded response. */
  function ResponseError(response: Response): Option<AgentError>
  {
    if response.status == RESPONSE_OK then None
    else if response.status != RESPONSE_ERROR then Some(MalformedResponse)
    else if response.reason == NOT_IMPLEMENTED then Some(NotImplemented)
    else if response.reason == MUTATION_DISABLED then Some(MutationDisabled)
    else if response.reason == SERVICE_NOT_ALLOWLISTED then Some(ServiceNotAllowlisted)
    else if response.reason == UNSUPPORTED_ACTION then Some(UnsupportedAction)
    else if response.reason == VALIDATION_ERROR then Some(InvalidServiceName)
    else if response.reason == COMMAND_FAILED then Some(CommandFailed)
    else if response.reason == COMMAND_TIMEOUT then Some(Timeout)
    else Some(Unavailable)
  }

  /** Everything the agent must have had in order to report success for a request. */
  predicate Executed(executor: Executor, request: Request, process: Command.Process)
  {
    && executor.mutationEnabled
    && ValidServiceName(request.service)
    && request.service in executor.allowlist
    && SupportedAction(request.action)
    && process.Started? && !process.deadlineExceeded && !process.exitError
    && Command.WithinLimit(process.stdout, Command.EffectiveOutputLimit(executor.outputLimit))
    && Command.WithinLimit(process.stderr, Command.EffectiveOutputLimit(executor.outputLimit))
  }

  /** A delivered answer is read as success exactly when all of that held. */
  lemma SuccessIffExecuted(executor: Executor, request: Request, process: Command.Process)
    ensures ResponseError(ControlService(executor, request, process)) == None <==> Executed(executor, request, process)
  {
    var response := ControlService(executor, request, process);
    assert RESPONSE_OK[0] != RESPONSE_ERROR[0];
    assert response.status == RESPONSE_OK <==> Executed(executor, request, process);
  }

  /** Why the executor turns a request away, and that it does so before any command: its checks in their order. */
  lemma TurnedAwayIff(executor: Executor, request: Request, process: Command.Process)
    ensures var response := ControlService(executor, request, process);
            && (response == Response("error", "mutation_disabled") <==> !executor.mutationEnabled)
            && (response == Response("error", "validation_error") <==>
                  executor.mutationEnabled && !ValidServiceName(request.service))
            && (response == Response("error", "unsupported_action") <==>
                  && executor.mutationEnabled && ValidServiceName(request.service)
                  && request.action !in {"start", "stop", "restart"})
            && (response == Response("error", "service_not_allowlisted") <==>
                  && executor.mutationEnabled && ValidServiceName(request.service)
                  && request.action in {"start", "stop", "restart"} && request.service !in executor.allowlist)
  {
    var reasons := ["mutation_disabled", "validation_error", "unsupported_action", "service_not_allowlisted", "command_failed",
                    "command_timeout", ""];
    assert forall i, j | 0 <= i < j < |reasons| :: |reasons[i]| != |reasons[j]| || reasons[i][0] != reasons[j][0];
  }

  // ---------------------------------------------------------------- one call of the client

  /** A request that never reached the agent: a bad path, a dial that fails, a connection that breaks or times out. */
  type LostRequest = e: AgentError | e in {InvalidSocketPath, Unavailable, ConnectionRefused, Timeout, MalformedResponse}
    witness AgentError.Unavailable

  /** A request that the agent has read, but without a usable answer: late, broken, or a write reported as failed. */
  type LostReply = e: AgentError | e in {Timeout, MalformedResponse, Unavailable}
    witness AgentError.Timeout

  /** How the transport treats one call. */
  datatype Delivery = NotSent(before: LostRequest) | ReplyLost(after: LostReply) | Delivered

  /** The agent tries to start the command for this call. */
  predicate Attempts(executor: Executor, request: Request, delivery: Delivery)
  {
    ValidateRequest(request) == None && !delivery.NotSent? && Refusal(executor, request) == None
  }

  /** Client.ControlService: the outcome the worker sees. */
  function Call(executor: Executor, request: Request, delivery: Delivery, process: Command.Process): Option<AgentError>
  {
    match ValidateRequest(request)
    case Some(error) => Some(error)
    case None =>
      match delivery
      case NotSent(error) => Some(error)
      case ReplyLost(error) => Some(error)
      case Delivered => ResponseError(ControlService(executor, request, process))
  }

  /** The command that was started for the call, if one was. */
  function Ran(executor: Executor, request: Request, delivery: Delivery, process: Command.Process): Option<Command.Process>
  {
    if Attempts(executor, request, delivery) && process.Started? then Some(process) else None
  }

  lemma CallSucceedsIff(executor: Executor, request: Request, delivery: Delivery, process: Command.Process)
    ensures Call(executor, request, delivery, process) == None <==>
            delivery.Delivered? && Executed(executor, request, process)
    ensures Call(executor, request, delivery, process) == None ==> Ran(executor, request, delivery, process) == Some(process)
  {
    SuccessIffExecuted(executor, request, process);
  }

  /** The command exited without an error and in time, whatever it wrote. */
  predicate ExitedCleanly(process: Command.Process)
  {
    process.Started? && !process.deadlineExceeded && !process.exitError
  }

  /** The command ended in time, but with an error exit or with more output than the limit. */
  predicate Unsuccessful(executor: Executor, process: Command.Process)
  {
    var limit := Command.EffectiveOutputLimit(executor.outputLimit);
    && process.Started? && !process.deadlineExceeded
    && (process.exitError || !Command.WithinLimit(process.stdout, limit) || !Command.WithinLimit(process.stderr, limit))
  }

  /** What a failed call says about the agent and about the command that was started for it, if one was. */
  predicate Explains(executor: Executor, request: Request, ran: Option<Command.Process>, error: AgentError)
  {
    && (ran.Some? ==> ran.value.Started? && ValidateRequest(request) == None && Refusal(executor, request) == None)
    && match error
       case InvalidServiceName => !ValidServiceName(request.service)
       case UnsupportedAction => ValidServiceName(request.service) && !SupportedAction(request.action)
       case MutationDisabled => ValidateRequest(request) == None && !executor.mutationEnabled
       case ServiceNotAllowlisted =>
         ValidateRequest(request) == None && executor.mutationEnabled && request.service !in executor.allowlist
       case CommandFailed =>
         && ValidateRequest(request) == None && Refusal(executor, request) == None
         && (ran.Some? ==> Unsuccessful(executor, ran.value))
       case Timeout => ValidateRequest(request) == None
       case Unavailable => ValidateRequest(request) == None
       case MalformedResponse => ValidateRequest(request) == None
       case ConnectionRefused => ValidateRequest(request) == None && ran == None
       case InvalidSocketPath => ValidateRequest(request) == None && ran == None
       case NotImplemented => false
  }

  predicate FailsWith(executor: Executor, request: Request, delivery: Delivery, process: Command.Process,
                      ran: Option<Command.Process>, error: AgentError)
  {
    Call(executor, request, delivery, process) == Some(error) && Ran(executor, request, delivery, process) == ran
  }

  lemma FailedCallIsExplained(executor: Executor, request: Request, delivery: Delivery, process: Command.Process,
                              ran: Option<Command.Process>, error: AgentError)
    requires FailsWith(executor, request, delivery, process, ran, error)
    ensures Explains(executor, request, ran, error)
  {
    if ValidateRequest(request) == None && delivery.Delivered? {
      DeliveredFailure(executor, request, process, error);
    }
  }

  lemma DeliveredFailure(executor: Executor, request: Request, process: Command.Process, error: AgentError)
    requires ResponseError(ControlService(executor, request, process)) == Some(error) && ValidateRequest(request) == None
    ensures match Refusal(executor, request)
            case Some(reason) =>
              if executor.mutationEnabled then error == ServiceNotAllowlisted && request.service !in executor.allowlist
              else error == MutationDisabled
            case None =>
              if process.deadlineExceeded then error == Timeout
              else error == CommandFailed && (process.Started? ==> Unsuccessful(executor, process))
  {
    assert RESPONSE_OK[0] != RESPONSE_ERROR[0];
    assert COMMAND_FAILED != COMMAND_TIMEOUT by { assert |COMMAND_FAILED| != |COMMAND_TIMEOUT|; }
  }

  /** A call can fail with this error after starting this command (or none) exactly when the error is so explained. */
  lemma CallFailsIff(executor: Executor, request: Request, ran: Option<Command.Process>, error: AgentError)
    ensures (exists delivery, process :: FailsWith(executor, request, delivery, process, ran, error))
       <==> Explains(executor, request, ran, error)
  {
    if delivery, process :| FailsWith(executor, request, delivery, process, ran, error) {
      FailedCallIsExplained(executor, request, delivery, process, ran, error);
    }
    if Explains(executor, request, ran, error) {
      var delivery, process := ExplanationHappens(executor, request, ran, error);
    }
  }

  lemma ExplanationHappens(executor: Executor, request: Request, ran: Option<Command.Process>, error: AgentError)
    returns (delivery: Delivery, process: Command.Process)
    requires Explains(executor, request, ran, error)
    ensures FailsWith(executor, request, delivery, process, ran, error)
  {
    process := if ran.Some? then ran.value else Command.Unstarted(false);
    if error in {Timeout, Unavailable, MalformedResponse} && ran.Some? {
      delivery := ReplyLost(error);
    } else if error in {Timeout, Unavailable, MalformedResponse, ConnectionRefused, InvalidSocketPath} {
      delivery := NotSent(error);
    } else {
      delivery := Delivered;
      assert RESPONSE_OK[0] != RESPONSE_ERROR[0];
    }
  }

  /**
   So a failed call does not mean that the command failed: behind exactly three errors the command
   may have run to success.
   */
  lemma FailedCallMayHaveExecuted(executor: Executor, request: Request, process: Command.Process, error: AgentError)
    requires Executed(executor, request, process)
    ensures (exists delivery, p :: FailsWith(executor, request, delivery, p, Some(process), error))
       <==> error in {Timeout, MalformedResponse, Unavailable}
  {
    CallFailsIff(executor, request, Some(process), error);
    hide FailsWith;
  }
}
