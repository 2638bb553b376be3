/** What an operation keeps between executions, and what an execution reports. */
module Contexts {
  import opened Options
  import opened Octets
  import opened Values

  datatype ProcessingMode = InTransition | InState

  /** `ProcessingInfo`; a state or a transition is held with its name, as the code holds it. */
  datatype ProcessingInfo = ProcessingInfo(mode: ProcessingMode, fromState: Option<string>,
                                           transition: Option<(string, TransitionInfo)>, toState: (string, StateInfo))

  /** The operation's context, `OperationContextVariant`. */
  datatype Context =
    | NoContext
    | ControlFlowContext(callable: Option<Callable>, value: Option<Value>, arglist: Option<seq<Value>>,
                         accumulator: seq<Value>, callableInvoked: bool, info: Option<ProcessingInfo>)
    | CallbackContext(answer: Option<Value>, callbackCalled: bool)
    | InputOutputContext(buffer: Bytes, cursor: nat, ready: bool, eof: bool)

  const FreshControlFlow := ControlFlowContext(None, None, None, [], false, None)
  const FreshInputOutput := InputOutputContext([], 0, false, false)

  datatype Reason = WaitingForCallback | WaitingCallbackData | WaitingForRead | WaitingForWrite
                  | WaitingForCallableInvocation | WaitingForCallableResult

  /** `OperationResult` */
  datatype OperationResult = Returned(value: Value) | Suspended(reason: Reason)

  /** What a control-flow operation does next: go on with a call, return a value, or never come back. */
  datatype Choice = Invoke(context: Context) | Return(value: Value) | Never
}
