/**
 The meaning of an operation tree: a left-to-right evaluator with dynamic scope.
 Callables may recurse, so it carries fuel, spent by calls. It also counts the
 interpreter steps the evaluation takes.
 */
module Evaluator {
  import opened Options
  import opened Values
  import opened Contexts
  import opened ReadOperations
  import opened StateMachine

  datatype Outcome =
    | Evaluated(value: Value, world: World, steps: nat)
    | Fails(cause: Cause)
    | OutOfFuel

  datatype ArgumentsOutcome =
    | Arguments(values: seq<Value>, world: World, steps: nat)
    | NoArguments(why: Outcome)

  function Later(n: nat, o: Outcome): (r: Outcome)
    ensures r.Evaluated? <==> o.Evaluated?
  {
    if o.Evaluated? then o.(steps := n + o.steps) else o
  }

  function Eval(fuel: nat, node: Node, pad: nat, w: World, answers: Answers): (o: Outcome)
    ensures o.Evaluated? ==> o.steps > 0
    decreases fuel, 3, node, |node.children| + 1
  {
    match EvalArguments(fuel, node, [], pad, w, answers)
    case NoArguments(why) => why
    case Arguments(args, w1, n) => Later(n, Finish(fuel, node.op, args, pad, w1, answers))
  }

  /** The children, left to right, until the operation has what it needs. */
  function EvalArguments(fuel: nat, node: Node, done: seq<Value>, pad: nat, w: World,
                         answers: Answers): (o: ArgumentsOutcome)
    ensures o.NoArguments? ==> !o.why.Evaluated?
    ensures o.Arguments? ==> ArgumentsReady(node, o.values) && o.steps >= |o.values| - |done|
    decreases fuel, 3, node, |node.children| - |done|
  {
    if ArgumentsReady(node, done) then Arguments(done, w, 0)
    else if |done| >= |node.children| then NoArguments(Fails(MissingChild))
    else
      match Eval(fuel, node.children[|done|], pad, w, answers)
      case Fails(cause) => NoArguments(Fails(cause))
      case OutOfFuel => NoArguments(OutOfFuel)
      case Evaluated(v, w1, n) =>
        match EvalArguments(fuel, node, done + [v], pad, w1, answers)
        case NoArguments(why) => NoArguments(why)
        case Arguments(args, w2, m) => Arguments(args, w2, n + m)
  }

  /** The operation itself, on evaluated arguments. */
  function Finish(fuel: nat, op: Operation, args: seq<Value>, pad: nat, w: World, answers: Answers): (o: Outcome)
    ensures o.Evaluated? ==> o.steps > 0
    decreases fuel, 2
  {
    if !Dynamic(op) && |args| < Arity(op) then Fails(MissingArguments)
    else if Immediate(op) then
      match Apply(op, args, w.pads, pad)
      case Result(v, pads) => Evaluated(v, w.(pads := pads), 1)
      case Undefined(cause) => Fails(cause)
    else if Writes(op) then
      match Encode(op, args)
      case Refused(v) => Evaluated(v, w, 1)
      case Endlessly => Fails(Endless)
      case Wire(octets) =>
        if octets == [] then Evaluated(Int(0), w, 1)
        else if w.eof then Evaluated(Error(ProtocolMismatchError), w, 2)
        else Evaluated(Int(0), w.(output := w.output + octets), 2)
    else if Reads(op) then FinishRead(op, w)
    else if op.UnaryCallback? then
      var requests := w.requests + [Request(op.callbackKey, args)];
      Evaluated(answers(requests), w.(requests := requests), 3)
    else if op.StateMachineOperation? then
      match Begin(op.states, FreshControlFlow)
      case Return(v) => Evaluated(v, w, 1)
      case Never => Fails(Endless)
      case Invoke(ctx) => EvalStates(fuel, op.states, ctx, pad, w, answers)
    else
      match Select(op, args)
      case Yields(v) => Evaluated(v, w, 1)
      case Never => Fails(Endless)
      case Calls(c, list) =>
        if op.FunctionCallForEach? then
          EvalForEach(fuel, op.elementIsSingleArgument, c, if list.Some? then list.value else [], [], pad, w, answers)
        else if op.GenerateList? then EvalGenerate(fuel, c, [], pad, w, answers)
        else Later(2, EvalCall(fuel, c, list, pad, w, answers))
  }

  /** A read: its value at once, or after the delivered input was taken to it. */
  function FinishRead(op: Operation, w: World): (o: Outcome)
    requires Reads(op)
    ensures o.Evaluated? ==> o.steps > 0 && o.world.pads == w.pads
    ensures !o.OutOfFuel?
  {
    match Evaluate(op, FreshInputOutput)
    case Some(v) => Evaluated(v, w, 1)
    case None =>
      ResumedSettles(op, w.input, w.eof);
      match HandleRead(op, FreshInputOutput, w.input, w.eof)
      case Resumed(ctx, queue) => Evaluated(Evaluate(op, ctx).value, w.(input := queue), 2)
      case Starving => Fails(Starved)
      case Spinning => Fails(Endless)
  }

  /** A call: its own pad, under the caller's pad or under the root. */
  function EvalCall(fuel: nat, c: Callable, args: Option<seq<Value>>, pad: nat, w: World,
                    answers: Answers): (o: Outcome)
    ensures o.Evaluated? ==> fuel > 0 && o.steps > 0
    decreases fuel, 0
  {
    if c.names != [] && args.None? then Fails(NullArgumentList)
    else if fuel == 0 then OutOfFuel
    else Eval(fuel - 1, c.tree, |w.pads|, w.(pads := w.pads + [CallPad(c, args, pad)]), answers)
  }

  /** The arguments for one element of the list. */
  function ElementArguments(single: bool, items: seq<Value>, k: nat): (r: Option<seq<Value>>)
    requires k < |items|
  {
    if single then Some([items[k]]) else if items[k].DynamicList? then Some(items[k].values) else None
  }

  /** One call per element, results in order, each call in the world the one before left. */
  function EvalForEach(fuel: nat, single: bool, c: Callable, items: seq<Value>, done: seq<Value>,
                       pad: nat, w: World, answers: Answers): (o: Outcome)
    ensures o.Evaluated? ==> o.steps > 0
    decreases fuel, 1, if |items| > |done| then |items| - |done| else 0
  {
    if |done| >= |items| then Fails(ElementOutOfRange)
    else if ElementArguments(single, items, |done|).None? then Fails(NotAList)
    else
      match EvalCall(fuel, c, ElementArguments(single, items, |done|), pad, w, answers)
      case Fails(cause) => Fails(cause)
      case OutOfFuel => OutOfFuel
      case Evaluated(v, w1, n) =>
        if |done| + 1 < |items|
        then Later(1 + n, EvalForEach(fuel, single, c, items, done + [v], pad, w1, answers))
        else Evaluated(DynamicList(done + [v]), w1, 1 + n + 1)
  }

  /** Calls until one gives the interrupt, or an error. */
  function EvalGenerate(fuel: nat, c: Callable, done: seq<Value>, pad: nat, w: World, answers: Answers): (o: Outcome)
    ensures o.Evaluated? ==> o.steps > 0
    decreases fuel, 1, 0
  {
    match EvalCall(fuel, c, None, pad, w, answers)
    case Fails(cause) => Fails(cause)
    case OutOfFuel => OutOfFuel
    case Evaluated(v, w1, n) =>
      if v.InterruptGenerator? then Evaluated(DynamicList(done), w1, 1 + n + 1)
      else if v.Error? then Evaluated(v, w1, 1 + n + 1)
      else Later(1 + n, EvalGenerate(fuel - 1, c, done + [v], pad, w1, answers))
  }

  /** The callbacks of states and transitions, one after the other, until one of them ends the operation. */
  function EvalStates(fuel: nat, states: StateMap, ctx: Context, pad: nat, w: World, answers: Answers): (o: Outcome)
    requires Calling(ctx)
    ensures o.Evaluated? ==> o.steps > 0
    decreases fuel, 1, 0
  {
    match EvalCall(fuel, ctx.callable.value, Some(ctx.accumulator), pad, w, answers)
    case Fails(cause) => Fails(cause)
    case OutOfFuel => OutOfFuel
    case Evaluated(v, w1, n) =>
      match Advance(states, Answered(ctx, v), v)
      case Return(r) => Evaluated(r, w1, 1 + n + 1)
      case Never => Fails(Endless)
      case Invoke(next) => Later(1 + n, EvalStates(fuel - 1, states, next, pad, w1, answers))
  }
}
