/**
 The resumable stack machine: frames inside continuations, continuations inside
 the interpreter, and the runner's answer to a blocked operation.
 */
module Machine {
  import opened Options
  import opened Values
  import opened Contexts
  import opened ReadOperations
  import opened StateMachine

  /** `ExecutionStackFrame` */
  datatype Frame = Frame(node: Node, accumulator: seq<Value>, context: Context, pad: nat)

  /** `Continuation`: the frames from the outermost one to the top. */
  datatype Continuation = Continuation(frames: seq<Frame>, pad: nat, result: OperationResult)

  /** The interpreter, its continuations from the outermost one to the top, or a run that stopped. */
  datatype Config = Running(continuations: seq<Continuation>, world: World) | Halted(cause: Cause)

  function InitialContext(op: Operation): Context {
    if ControlFlow(op) then FreshControlFlow
    else if op.UnaryCallback? then CallbackContext(None, false)
    else if Writes(op) || Reads(op) then FreshInputOutput
    else NoContext
  }

  function Fresh(node: Node, pad: nat): Frame {
    Frame(node, [], InitialContext(node.op), pad)
  }

  /** The operation's own result: a value, or a reason and the context to resume with. */
  datatype Execution = Done(value: Value, pads: seq<Pad>) | Blocked(reason: Reason, context: Context)
    | Stuck(cause: Cause)

  // ----- the control-flow operations -----

  /** The first execution chooses the callable and its arguments. */
  function Start(op: Operation, context: Context, args: seq<Value>): Choice
    requires ControlFlow(op) && |args| >= Arity(op) && context.ControlFlowContext?
  {
    if op.StateMachineOperation? then Begin(op.states, context)
    else
      match Select(op, args)
      case Yields(v) => Return(v)
      case Never => Choice.Never
      case Calls(c, list) => Invoke(context.(callable := Some(c), arglist := list, accumulator := []))
  }

  /** A later execution, once the callable has returned `v`. */
  function Resume(op: Operation, context: Context, v: Value): Choice
    requires ControlFlow(op) && context.ControlFlowContext?
  {
    match op
    case If => Return(v)
    case FunctionCall => Return(v)
    case FunctionCallForEach(_) =>
      var done := context.accumulator + [v];
      if context.arglist.Some? && |done| < |context.arglist.value|
      then Invoke(context.(accumulator := done, value := None, callableInvoked := false))
      else Return(DynamicList(done))
    case GenerateList =>
      if v.InterruptGenerator? then Return(DynamicList(context.accumulator))
      else if v.Error? then Return(v)
      else Invoke(context.(accumulator := context.accumulator + [v], value := None, callableInvoked := false))
    case StateMachineOperation(states) =>
      if context.info.Some? then Advance(states, context, v) else Choice.Never
  }

  function ExecuteControlFlow(op: Operation, context: Context, args: seq<Value>, pads: seq<Pad>): Execution
    requires ControlFlow(op) && |args| >= Arity(op) && context.ControlFlowContext?
  {
    if context.callable.Some? && !context.callableInvoked then Blocked(WaitingForCallableInvocation, context)
    else if context.callable.Some? && context.value.None? then Blocked(WaitingForCallableResult, context)
    else
      ExecutionOf(if context.callable.Some? then Resume(op, context, context.value.value) else Start(op, context, args),
                  pads)
  }

  function ExecutionOf(c: Choice, pads: seq<Pad>): Execution {
    match c
    case Return(v) => Done(v, pads)
    case Invoke(context) => Blocked(WaitingForCallableInvocation, context)
    case Never => Stuck(Endless)
  }

  /** `get_argument_list`; `None` inside is the null pointer of the operations that have no arguments. */
  function ArgumentList(op: Operation, context: Context): (r: Result<Option<seq<Value>>>)
    requires ControlFlow(op) && context.ControlFlowContext?
  {
    if op.FunctionCallForEach? then
      if context.arglist.None? || |context.accumulator| >= |context.arglist.value| then Raise(ElementOutOfRange)
      else
        var item := context.arglist.value[|context.accumulator|];
        if op.elementIsSingleArgument then Ok(Some([item]))
        else if item.DynamicList? then Ok(Some(item.values))
        else Raise(NotAList)
    else if op.StateMachineOperation? then Ok(Some(context.accumulator))
    else Ok(context.arglist)
  }

  datatype Result<T> = Ok(value: T) | Raise(cause: Cause)

  // ----- execution of the top frame -----

  function ExecuteWrite(op: Operation, context: Context, args: seq<Value>, pads: seq<Pad>): Execution
    requires Writes(op) && |args| >= Arity(op) && context.InputOutputContext?
  {
    match Encode(op, args)
    case Refused(v) => Done(v, pads)
    case Endlessly => Stuck(Endless)
    case Wire(octets) =>
      var c := if context.buffer == [] then context.(buffer := octets, cursor := 0) else context;
      if c.cursor >= |c.buffer| then Done(Int(0), pads)
      else if c.eof then Done(Error(ProtocolMismatchError), pads)
      else Blocked(WaitingForWrite, c)
  }

  function ExecuteRead(op: Operation, context: Context, pads: seq<Pad>): Execution
    requires Reads(op) && context.InputOutputContext?
  {
    match Evaluate(op, context)
    case Some(v) => Done(v, pads)
    case None => Blocked(WaitingForRead, context)
  }

  /** `ExecutionStackFrame::execute` */
  function Execute(f: Frame, pads: seq<Pad>): Execution {
    var op := f.node.op;
    if !Dynamic(op) && |f.accumulator| < Arity(op) then Stuck(MissingArguments)
    else if Immediate(op) then
      match Apply(op, f.accumulator, pads, f.pad)
      case Result(v, pads') => Done(v, pads')
      case Undefined(cause) => Stuck(cause)
    else if ControlFlow(op) && f.context.ControlFlowContext? then
      ExecuteControlFlow(op, f.context, f.accumulator, pads)
    else if Writes(op) && f.context.InputOutputContext? then
      ExecuteWrite(op, f.context, f.accumulator, pads)
    else if Reads(op) && f.context.InputOutputContext? then
      ExecuteRead(op, f.context, pads)
    else if op.UnaryCallback? && f.context.CallbackContext? then
      if !f.context.callbackCalled then Blocked(WaitingForCallback, f.context)
      else if f.context.answer.None? then Blocked(WaitingCallbackData, f.context)
      else Done(f.context.answer.value, pads)
    else Stuck(NotCallable)
  }

  /**
   `Continuation::prepare` on `frames + [top]`: push the frames of the children
   still missing; `None` is the failed assert.
   */
  function Prepare(frames: seq<Frame>, top: Frame): (r: Option<seq<Frame>>)
    ensures r.Some? ==> |r.value| > |frames|
    decreases top.node
  {
    if ArgumentsReady(top.node, top.accumulator) then Some(frames + [top])
    else if |top.accumulator| >= |top.node.children| then None
    else Prepare(frames + [top], Fresh(top.node.children[|top.accumulator|], top.pad))
  }

  // ----- the interpreter -----

  function ButLast<T>(s: seq<T>): seq<T>
    requires s != []
  {
    s[..|s| - 1]
  }

  function Last<T>(s: seq<T>): T
    requires s != []
  {
    s[|s| - 1]
  }

  /** `set_callable_return` on the continuation below, then `prepare`. */
  function ReturnTo(c: Continuation, v: Value): (r: Result<Continuation>) {
    if c.frames == [] then Raise(MissingFrame)
    else
      var top := Last(c.frames);
      var context := if top.context.ControlFlowContext? then top.context.(value := Some(v)) else top.context;
      match Prepare(ButLast(c.frames), top.(context := context))
      case None => Raise(MissingChild)
      case Some(frames) => Ok(Continuation(frames, c.pad, Returned(v)))
  }

  /** The top frame of the top continuation gave `v`: hand it to the frame, or the continuation, below. */
  function Deliver(below: seq<Continuation>, frames: seq<Frame>, pad: nat, v: Value, w: World): Config {
    if frames != [] then
      var parent := Last(frames).(accumulator := Last(frames).accumulator + [v]);
      Running(below + [Continuation(ButLast(frames) + [parent], pad, Returned(v))], w)
    else if below == [] then Running([Continuation([], pad, Returned(v))], w)
    else
      match ReturnTo(Last(below), v)
      case Raise(cause) => Halted(cause)
      case Ok(c) => Running(ButLast(below) + [c], w)
  }

  /** A blocked invocation: bind the arguments in a new pad and stack a continuation for the callable. */
  function Call(below: seq<Continuation>, frames: seq<Frame>, top: Frame, pad: nat, context: Context,
                w: World): Config {
    if !context.ControlFlowContext? || context.callable.None? || !ControlFlow(top.node.op) then Halted(NotCallable)
    else
      match ArgumentList(top.node.op, context)
      case Raise(cause) => Halted(cause)
      case Ok(args) =>
        var c := context.callable.value;
        if c.names != [] && args.None? then Halted(NullArgumentList)
        else
          var caller := Continuation(frames + [top.(context := context.(callableInvoked := true))], pad,
                                     Suspended(WaitingForCallableInvocation));
          match Prepare([], Fresh(c.tree, |w.pads|))
          case None => Halted(MissingChild)
          case Some(callee) =>
            Running(below + [caller, Continuation(callee, |w.pads|, Returned(Bool(false)))],
                    w.(pads := w.pads + [CallPad(c, args, pad)]))
  }

  /** What the runner makes of a block that is not about callables: a context and a world, or the end of the run. */
  datatype Service = Served(context: Context, world: World) | Dropped(cause: Cause)

  /** The runner's `handle_blocked_interpreter` for those reasons. */
  function ServiceOf(top: Frame, reason: Reason, context: Context, w: World, answers: Answers): Service {
    if reason.WaitingForCallback? && context.CallbackContext? && top.node.op.UnaryCallback? then
      Served(context.(callbackCalled := true),
             w.(requests := w.requests + [Request(top.node.op.callbackKey, top.accumulator)]))
    else if reason.WaitingCallbackData? && context.CallbackContext? then
      Served(context.(answer := Some(answers(w.requests))), w)
    else if reason.WaitingForWrite? && context.InputOutputContext? && context.cursor <= |context.buffer| then
      if w.eof then Served(context.(eof := true), w)
      else Served(context.(cursor := |context.buffer|), w.(output := w.output + context.buffer[context.cursor..]))
    else if reason.WaitingForRead? && context.InputOutputContext? && Reads(top.node.op) then
      match HandleRead(top.node.op, context, w.input, w.eof)
      case Resumed(next, queue) => Served(next, w.(input := queue))
      case Starving => Dropped(Starved)
      case Spinning => Dropped(Endless)
    else Served(context, w)
  }

  function Serve(below: seq<Continuation>, frames: seq<Frame>, top: Frame, pad: nat, reason: Reason,
                 context: Context, w: World, answers: Answers): Config
  {
    match ServiceOf(top, reason, context, w, answers)
    case Dropped(cause) => Halted(cause)
    case Served(c, w1) => Running(below + [Continuation(frames + [top.(context := c)], pad, Suspended(reason))], w1)
  }

  /** `Interpreter::step`, and the runner's answer when it blocks. */
  function Step(cfg: Config, answers: Answers): Config {
    if cfg.Halted? then cfg
    else if cfg.continuations == [] then Halted(MissingFrame)
    else
      StepTopContinuation(ButLast(cfg.continuations), Last(cfg.continuations), cfg.world, answers)
  }

  function StepTopContinuation(below: seq<Continuation>, c: Continuation, w: World, answers: Answers): Config {
    if c.frames == [] then
      if c.result.Returned? then Deliver(below, [], c.pad, c.result.value, w) else Halted(MissingFrame)
    else match Prepare(ButLast(c.frames), Last(c.frames))
      case None => Halted(MissingChild)
      case Some(all) => StepTop(below, ButLast(all), Last(all), c.pad, w, answers)
  }

  /** The step of a prepared top frame. */
  function StepTop(below: seq<Continuation>, frames: seq<Frame>, top: Frame, pad: nat, w: World,
                   answers: Answers): Config {
    match Execute(top, w.pads)
    case Done(v, pads) => Deliver(below, frames, pad, v, w.(pads := pads))
    case Stuck(cause) => Halted(cause)
    case Blocked(reason, context) =>
      if reason.WaitingForCallableInvocation? then Call(below, frames, top, pad, context, w)
      else Serve(below, frames, top, pad, reason, context, w, answers)
  }

  /** `n` steps. */
  function Run(cfg: Config, n: nat, answers: Answers): Config
    decreases n
  {
    if n == 0 then cfg else Run(Step(cfg, answers), n - 1, answers)
  }

  /** An interpreter for `tree`, with the root pad at index 0. */
  function Instance(tree: Node, w: World): Config {
    Running([Continuation([Fresh(tree, 0)], 0, Returned(Bool(false)))], w)
  }

  /** The program has ended with `v`. */
  predicate Exited(cfg: Config, v: Value, w: World) {
    cfg == Running([Continuation([], 0, Returned(v))], w)
  }
}
