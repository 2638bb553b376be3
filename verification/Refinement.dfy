/**
 The stack machine and the evaluator agree: every evaluation is a run, step for
 step, from any surrounding context, and every finished run is an evaluation.
 */
module Refinement {
  import opened Options
  import opened Values
  import opened Contexts
  import opened ReadOperations
  import opened StateMachine
  import opened Machine
  import opened Evaluator

  // ----- runs of any step function -----

  type Stepper = Config -> Config

  function RunWith(step: Stepper, cfg: Config, n: nat): Config
    decreases n
  {
    if n == 0 then cfg else RunWith(step, step(cfg), n - 1)
  }

  /** `step` is the machine's step; the trigger keeps `Step` folded where it is not named. */
  ghost predicate Steps(step: Stepper, answers: Answers) {
    forall c: Config {:trigger Step(c, answers)} :: step(c) == Step(c, answers)
  }

  lemma {:induction false} RunAdd(step: Stepper, cfg: Config, m: nat, n: nat)
    ensures RunWith(step, cfg, m + n) == RunWith(step, RunWith(step, cfg, m), n)
    decreases m
  {
    if m > 0 { RunAdd(step, step(cfg), m - 1, n); }
  }

  lemma RunOne(step: Stepper, cfg: Config)
    ensures RunWith(step, cfg, 1) == step(cfg)
  {
    assert RunWith(step, cfg, 1) == RunWith(step, step(cfg), 0);
  }

  /** Two configurations with one next step run alike. */
  lemma RunAlike(step: Stepper, a: Config, b: Config, n: nat)
    requires n > 0 && step(a) == step(b)
    ensures RunWith(step, a, n) == RunWith(step, b, n)
  {}

  // ----- a frame and what surrounds it -----

  /** The frames and the continuations under a frame, and the pad of its continuation. */
  datatype Site = Site(below: seq<Continuation>, frames: seq<Frame>, pad: nat)

  /** The machine with `top` on the stack. */
  function Facing(s: Site, r: OperationResult, w: World, top: Frame): Config {
    Running(s.below + [Continuation(s.frames + [top], s.pad, r)], w)
  }

  /** The machine after the frame on top has given `v`. */
  function Delivered(s: Site, v: Value, w: World): Config {
    Deliver(s.below, s.frames, s.pad, v, w)
  }

  /** The frame above is still at work. */
  ghost predicate Inside(cfg: Config, s: Site) {
    && cfg.Running?
    && |cfg.continuations| > |s.below|
    && (|cfg.continuations| == |s.below| + 1 ==> |Last(cfg.continuations).frames| > |s.frames|)
  }

  /** The site of the child that `top` waits for. */
  function Under(s: Site, top: Frame): Site {
    s.(frames := s.frames + [top])
  }

  /** The site of the callable that `top` waits for. */
  function Above(s: Site, top: Frame, context: Context, pad: nat): Site
    requires context.ControlFlowContext?
  {
    Site(s.below + [Continuation(s.frames + [top.(context := context.(callableInvoked := true))], s.pad,
                                 Suspended(WaitingForCallableInvocation))], [], pad)
  }

  // ----- single steps -----

  lemma FacingStep(s: Site, r: OperationResult, w: World, top: Frame, answers: Answers)
    ensures Step(Facing(s, r, w, top), answers) ==
            match Prepare(s.frames, top)
            case None => Halted(MissingChild)
            case Some(all) => StepTop(s.below, ButLast(all), Last(all), s.pad, w, answers)
  {
    var cs := s.below + [Continuation(s.frames + [top], s.pad, r)];
    assert ButLast(cs) == s.below && ButLast(s.frames + [top]) == s.frames;
  }

  /** A frame with its arguments executes at once. */
  lemma ReadyStep(s: Site, r: OperationResult, w: World, top: Frame, answers: Answers)
    requires ArgumentsReady(top.node, top.accumulator)
    ensures Step(Facing(s, r, w, top), answers) == StepTop(s.below, s.frames, top, s.pad, w, answers)
  {
    FacingStep(s, r, w, top, answers);
    assert ButLast(s.frames + [top]) == s.frames;
  }

  /** A frame without its arguments faces the next child. */
  lemma DescendStep(step: Stepper, s: Site, r: OperationResult, w: World, top: Frame, answers: Answers)
    requires Steps(step, answers) && !ArgumentsReady(top.node, top.accumulator)
    ensures |top.accumulator| >= |top.node.children| ==> step(Facing(s, r, w, top)) == Halted(MissingChild)
    ensures |top.accumulator| < |top.node.children| ==>
              step(Facing(s, r, w, top))
              == step(Facing(Under(s, top), r, w, Fresh(top.node.children[|top.accumulator|], top.pad)))
  {
    FacingStep(s, r, w, top, answers);
    if |top.accumulator| < |top.node.children| {
      FacingStep(Under(s, top), r, w, Fresh(top.node.children[|top.accumulator|], top.pad), answers);
    }
  }

  /** A frame that returns. */
  lemma ReturnStep(step: Stepper, s: Site, r: OperationResult, w: World, top: Frame, v: Value, pads: seq<Pad>,
                   answers: Answers)
    requires Steps(step, answers) && ArgumentsReady(top.node, top.accumulator)
    requires Execute(top, w.pads) == Done(v, pads)
    ensures step(Facing(s, r, w, top)) == Delivered(s, v, w.(pads := pads))
  {
    ReadyStep(s, r, w, top, answers);
  }

  /** A frame that stops the run. */
  lemma StuckStep(step: Stepper, s: Site, r: OperationResult, w: World, top: Frame, cause: Cause, answers: Answers)
    requires Steps(step, answers) && ArgumentsReady(top.node, top.accumulator)
    requires Execute(top, w.pads) == Stuck(cause)
    ensures step(Facing(s, r, w, top)) == Halted(cause)
  {
    ReadyStep(s, r, w, top, answers);
  }

  /** What the step of a blocked invocation is. */
  ghost predicate Enters(step: Stepper, cfg: Config, c: Callable, args: Option<seq<Value>>, s: Site, top: Frame,
                         context: Context, w: World)
    requires context.ControlFlowContext?
  {
    if c.names != [] && args.None? then step(cfg) == Halted(NullArgumentList)
    else
      step(cfg) == Stacked(Above(s, top, context, |w.pads|), w.(pads := w.pads + [CallPad(c, args, s.pad)]),
                           Fresh(c.tree, |w.pads|))
  }

  /** A frame that asks for a call: its arguments are missing, or the callee faces the next step. */
  lemma InvokeStep(step: Stepper, s: Site, r: OperationResult, w: World, top: Frame, context: Context, answers: Answers)
    requires Steps(step, answers) && ArgumentsReady(top.node, top.accumulator) && ControlFlow(top.node.op)
    requires Execute(top, w.pads) == Blocked(WaitingForCallableInvocation, context)
    requires context.ControlFlowContext? && context.callable.Some?
    ensures match ArgumentList(top.node.op, context)
            case Raise(cause) => step(Facing(s, r, w, top)) == Halted(cause)
            case Ok(args) => Enters(step, Facing(s, r, w, top), context.callable.value, args, s, top, context, w)
  {
    ReadyStep(s, r, w, top, answers);
    var list := ArgumentList(top.node.op, context);
    var c := context.callable.value;
    if list.Ok? && (c.names == [] || list.value.Some?) {
      CallStacks(s, top, context, w, list.value);
    }
  }

  /** The machine right after a call has been stacked. */
  function Stacked(s: Site, w: World, callee: Frame): Config {
    match Prepare([], callee)
    case None => Halted(MissingChild)
    case Some(frames) => Running(s.below + [Continuation(frames, s.pad, Returned(Bool(false)))], w)
  }

  /** `Call` with its arguments stacks the callee. */
  lemma CallStacks(s: Site, top: Frame, context: Context, w: World, args: Option<seq<Value>>)
    requires context.ControlFlowContext? && context.callable.Some? && ControlFlow(top.node.op)
    requires ArgumentList(top.node.op, context) == Ok(args)
    requires context.callable.value.names == [] || args.Some?
    ensures var c := context.callable.value;
            Call(s.below, s.frames, top, s.pad, context, w)
            == Stacked(Above(s, top, context, |w.pads|), w.(pads := w.pads + [CallPad(c, args, s.pad)]),
                       Fresh(c.tree, |w.pads|))
  {
    var site := Above(s, top, context, |w.pads|);
    match Prepare([], Fresh(context.callable.value.tree, |w.pads|))
    case None =>
    case Some(all) =>
      assert site.below + [Continuation(all, |w.pads|, Returned(Bool(false)))]
          == s.below + [site.below[|s.below|], Continuation(all, |w.pads|, Returned(Bool(false)))];
  }

  lemma StackedStep(s: Site, w: World, callee: Frame, answers: Answers)
    requires s.frames == []
    ensures Step(Stacked(s, w, callee), answers) == Step(Facing(s, Returned(Bool(false)), w, callee), answers)
  {
    FacingStep(s, Returned(Bool(false)), w, callee, answers);
    match Prepare([], callee)
    case None =>
    case Some(all) =>
      PrepareAgain([], callee);
      assert ButLast(all) + [Last(all)] == all;
      FacingStep(s.(frames := ButLast(all)), Returned(Bool(false)), w, Last(all), answers);
  }

  /** Whether preparing fails does not depend on the frames below. */
  lemma {:induction false} PrepareAnywhere(a: seq<Frame>, b: seq<Frame>, top: Frame, other: Frame)
    requires top.node == other.node && |top.accumulator| == |other.accumulator|
    requires ArgumentsReady(top.node, top.accumulator) <==> ArgumentsReady(other.node, other.accumulator)
    ensures Prepare(a, top).Some? <==> Prepare(b, other).Some?
    decreases top.node
  {
    if !ArgumentsReady(top.node, top.accumulator) && |top.accumulator| < |top.node.children| {
      var child := top.node.children[|top.accumulator|];
      PrepareAnywhere(a + [top], b + [other], Fresh(child, top.pad), Fresh(child, other.pad));
    }
  }

  /** A prepared stack stays as it is. */
  lemma {:induction false} PrepareAgain(frames: seq<Frame>, top: Frame)
    requires Prepare(frames, top).Some?
    ensures var all := Prepare(frames, top).value;
            ArgumentsReady(Last(all).node, Last(all).accumulator) && Prepare(ButLast(all), Last(all)) == Some(all)
    decreases top.node
  {
    if ArgumentsReady(top.node, top.accumulator) {
      assert ButLast(frames + [top]) == frames;
    } else {
      PrepareAgain(frames + [top], Fresh(top.node.children[|top.accumulator|], top.pad));
    }
  }

  lemma StackedAlike(step: Stepper, s: Site, w: World, callee: Frame, m: nat, answers: Answers)
    requires Steps(step, answers) && s.frames == [] && m > 0
    ensures RunWith(step, Stacked(s, w, callee), m) == RunWith(step, Facing(s, Returned(Bool(false)), w, callee), m)
  {
    StackedStep(s, w, callee, answers);
    assert step(Stacked(s, w, callee)) == Step(Stacked(s, w, callee), answers);
    RunAlike(step, Stacked(s, w, callee), Facing(s, Returned(Bool(false)), w, callee), m);
  }

  /** The callee's continuation goes, and the caller's context has the value. */
  lemma ReturnsTo(s: Site, top: Frame, context: Context, v: Value, pad: nat, w: World)
    requires ControlFlow(top.node.op) && ArgumentsReady(top.node, top.accumulator) && context.ControlFlowContext?
    ensures Delivered(Above(s, top, context, pad), v, w)
         == Facing(s, Returned(v), w, top.(context := Answered(context, v)))
  {
    var waiting := top.(context := context.(callableInvoked := true));
    var caller := Continuation(s.frames + [waiting], s.pad, Suspended(WaitingForCallableInvocation));
    assert ButLast(s.below + [caller]) == s.below && ButLast(s.frames + [waiting]) == s.frames;
  }

  // ----- what a run from `start` must be, for each outcome of the evaluator -----

  ghost predicate Follows(o: Outcome, step: Stepper, start: Config, n: nat, fuel: nat, s: Site) {
    match o
    case Evaluated(v, w, steps) => n == steps && RunWith(step, start, n) == Delivered(s, v, w)
    case Fails(cause) => n > 0 && RunWith(step, start, n) == Halted(cause)
    case OutOfFuel => n >= fuel && Inside(RunWith(step, start, n), s)
  }

  /** A run of `n` steps up to `next`, followed by one that follows `o`. */
  lemma Joins(o: Outcome, step: Stepper, cfg: Config, n: nat, next: Config, k: nat, fuel: nat, s: Site)
    requires RunWith(step, cfg, n) == next && Follows(o, step, next, k, fuel, s)
    ensures Follows(Later(n, o), step, cfg, n + k, n + fuel, s)
  {
    RunAdd(step, cfg, n, k);
  }

  /** A tree evaluates: the machine that faces it delivers its value, in as many steps. */
  lemma {:induction false} EvalRuns(fuel: nat, node: Node, w: World, answers: Answers, step: Stepper,
                                    s: Site, r: OperationResult) returns (n: nat)
    requires Steps(step, answers)
    ensures n == 0 ==> Prepare([], Fresh(node, s.pad)).Some?
    ensures Follows(Eval(fuel, node, s.pad, w, answers), step, Facing(s, r, w, Fresh(node, s.pad)), n, fuel, s)
    decreases fuel, 3, node, |node.children| + 1
  {
    var start := Facing(s, r, w, Fresh(node, s.pad));
    var m, r' := ArgumentsRun(fuel, node, [], w, answers, step, s, r);
    n := m;
    match EvalArguments(fuel, node, [], s.pad, w, answers)
    case NoArguments(_) =>
    case Arguments(args, w1, _) =>
      var ready := Frame(node, args, InitialContext(node.op), s.pad);
      var next := Facing(s, r', w1, ready);
      var k := FinishRuns(fuel, ready, w1, answers, step, s, r');
      Joins(Finish(fuel, node.op, args, s.pad, w1, answers), step, start, m, next, k, fuel, s);
      n := m + k;
  }

  lemma RunZero(step: Stepper, start: Config, s: Site, top: Frame, w: World, r: OperationResult)
    requires start == Facing(s, r, w, top)
    ensures RunWith(step, start, 0) == start && Inside(start, s)
  {}

  lemma {:induction false} ArgumentsRun(fuel: nat, node: Node, done: seq<Value>, w: World, answers: Answers,
                                        step: Stepper,
                                        s: Site, r: OperationResult)
    returns (n: nat, r': OperationResult)
    requires Steps(step, answers)
    ensures var start := Facing(s, r, w, Frame(node, done, InitialContext(node.op), s.pad));
            match EvalArguments(fuel, node, done, s.pad, w, answers)
            case Arguments(args, w1, steps) =>
              && n == steps
              && RunWith(step, start, n) == Facing(s, r', w1, Frame(node, args, InitialContext(node.op), s.pad))
            case NoArguments(why) =>
              && Follows(why, step, start, n, fuel, s)
              && (n == 0 ==> Prepare([], Frame(node, done, InitialContext(node.op), s.pad)).Some?)
    decreases fuel, 3, node, |node.children| - |done|
  {
    var top := Frame(node, done, InitialContext(node.op), s.pad);
    var start := Facing(s, r, w, top);
    n, r' := 0, r;
    if ArgumentsReady(node, done) { return; }
    DescendStep(step, s, r, w, top, answers);
    if |done| >= |node.children| {
      RunOne(step, start);
      return 1, r;
    }
    var child := node.children[|done|];
    var m := EvalRuns(fuel, child, w, answers, step, Under(s, top), r);
    if m == 0 {
      PrepareAnywhere([], [] + [top], Fresh(child, s.pad), Fresh(child, s.pad));
      assert Prepare([], top) == Prepare([] + [top], Fresh(child, s.pad));
      RunZero(step, start, s, top, w, r);
      return 0, r;
    }
    RunAlike(step, start, Facing(Under(s, top), r, w, Fresh(child, s.pad)), m);
    n := m;
    match Eval(fuel, child, s.pad, w, answers)
    case Fails(_) =>
    case OutOfFuel =>
    case Evaluated(v, w1, _) =>
      assert ButLast(s.frames + [top]) == s.frames;
      var k;
      k, r' := ArgumentsRun(fuel, node, done + [v], w1, answers, step, s, Returned(v));
      RunAdd(step, start, m, k);
      n := m + k;
  }

  lemma {:induction false} FinishRuns(fuel: nat, top: Frame, w: World, answers: Answers, step: Stepper,
                                      s: Site, r: OperationResult) returns (n: nat)
    requires Steps(step, answers) && ArgumentsReady(top.node, top.accumulator)
    requires top == Frame(top.node, top.accumulator, InitialContext(top.node.op), s.pad)
    ensures Follows(Finish(fuel, top.node.op, top.accumulator, s.pad, w, answers), step, Facing(s, r, w, top), n, fuel,
                    s)
    decreases fuel, 2
  {
    var op := top.node.op;
    if Immediate(op) {
      n := 1;
      RunOne(step, Facing(s, r, w, top));
      match Apply(op, top.accumulator, w.pads, s.pad)
      case Result(v, pads) => ReturnStep(step, s, r, w, top, v, pads, answers);
      case Undefined(cause) => StuckStep(step, s, r, w, top, cause, answers);
    } else if Writes(op) {
      n := WriteRuns(top, w, answers, step, s, r);
    } else if Reads(op) {
      n := ReadRuns(top, w, answers, step, s, r);
    } else if op.UnaryCallback? {
      n := CallbackRuns(top, w, answers, step, s, r);
    } else {
      n := ControlFlowRuns(fuel, top, w, answers, step, s, r);
    }
  }

  /** The last step of an operation: it returns `v` and its frame goes. */
  lemma Closing(step: Stepper, start: Config, m: nat, r: OperationResult, top: Frame, v: Value, w: World,
                answers: Answers,
                s: Site) returns (n: nat)
    requires Steps(step, answers) && ArgumentsReady(top.node, top.accumulator)
             && Execute(top, w.pads) == Done(v, w.pads)
    requires RunWith(step, start, m) == Facing(s, r, w, top)
    ensures n == m + 1 && RunWith(step, start, n) == Delivered(s, v, w)
  {
    ReturnStep(step, s, r, w, top, v, w.pads, answers);
    RunAdd(step, start, m, 1);
    RunOne(step, Facing(s, r, w, top));
    n := m + 1;
  }

  lemma WriteRuns(top: Frame, w: World, answers: Answers, step: Stepper, s: Site, r: OperationResult) returns (n: nat)
    requires Steps(step, answers) && Writes(top.node.op) && ArgumentsReady(top.node, top.accumulator)
    requires top.context == FreshInputOutput
    ensures n > 0
    ensures forall fuel ::
              Follows(Finish(fuel, top.node.op, top.accumulator, s.pad, w, answers), step, Facing(s, r, w, top), n,
                      fuel, s)
  {
    var start := Facing(s, r, w, top);
    ReadyStep(s, r, w, top, answers);
    RunOne(step, start);
    n := 1;
    var encoded := Encode(top.node.op, top.accumulator);
    if encoded.Wire? && encoded.octets != [] {
      var octets := encoded.octets;
      assert octets[0..] == octets;
      var begun := FreshInputOutput.(buffer := octets);
      if w.eof {
        n := ServedOnce(step, s, r, w, top, WaitingForWrite, begun, begun.(eof := true), w,
                        Error(ProtocolMismatchError), answers);
      } else {
        n := ServedOnce(step, s, r, w, top, WaitingForWrite, begun, begun.(cursor := |octets|),
                        w.(output := w.output + octets), Int(0), answers);
      }
    }
  }

  /** An operation that blocks once, is served, and returns. */
  lemma ServedOnce(step: Stepper, s: Site, r: OperationResult, w: World, top: Frame, reason: Reason, blocked: Context,
                   served: Context, w1: World, v: Value, answers: Answers) returns (n: nat)
    requires Steps(step, answers) && ArgumentsReady(top.node, top.accumulator) && !reason.WaitingForCallableInvocation?
    requires Execute(top, w.pads) == Blocked(reason, blocked)
    requires ServiceOf(top, reason, blocked, w, answers) == Served(served, w1)
    requires Execute(top.(context := served), w1.pads) == Done(v, w1.pads)
    ensures n == 2 && RunWith(step, Facing(s, r, w, top), n) == Delivered(s, v, w1)
  {
    var start := Facing(s, r, w, top);
    ReadyStep(s, r, w, top, answers);
    RunOne(step, start);
    assert Step(start, answers) == Facing(s, Suspended(reason), w1, top.(context := served));
    n := Closing(step, start, 1, Suspended(reason), top.(context := served), v, w1, answers, s);
  }

  lemma ReadRuns(top: Frame, w: World, answers: Answers, step: Stepper, s: Site, r: OperationResult) returns (n: nat)
    requires Steps(step, answers) && Reads(top.node.op) && ArgumentsReady(top.node, top.accumulator)
    requires top.context == FreshInputOutput
    ensures n > 0
    ensures forall fuel ::
              Follows(Finish(fuel, top.node.op, top.accumulator, s.pad, w, answers), step, Facing(s, r, w, top), n,
                      fuel, s)
  {
    var op, start := top.node.op, Facing(s, r, w, top);
    ReadyStep(s, r, w, top, answers);
    RunOne(step, start);
    n := 1;
    if Evaluate(op, FreshInputOutput).None? {
      ResumedSettles(op, w.input, w.eof);
      match HandleRead(op, FreshInputOutput, w.input, w.eof)
      case Starving =>
      case Spinning =>
      case Resumed(ctx, queue) =>
        n := ServedOnce(step, s, r, w, top, WaitingForRead, FreshInputOutput, ctx, w.(input := queue),
                        Evaluate(op, ctx).value, answers);
    }
  }

  lemma CallbackRuns(top: Frame, w: World, answers: Answers, step: Stepper, s: Site, r: OperationResult)
    returns (n: nat)
    requires Steps(step, answers) && top.node.op.UnaryCallback? && ArgumentsReady(top.node, top.accumulator)
    requires top.context == CallbackContext(None, false)
    ensures n > 0
    ensures forall fuel ::
            Follows(Finish(fuel, top.node.op, top.accumulator, s.pad, w, answers), step, Facing(s, r, w, top), n, fuel,
                    s)
  {
    var start := Facing(s, r, w, top);
    var requests := w.requests + [Request(top.node.op.callbackKey, top.accumulator)];
    var w1 := w.(requests := requests);
    var called := top.(context := CallbackContext(None, true));
    var answered := top.(context := CallbackContext(Some(answers(requests)), true));
    var second := Facing(s, Suspended(WaitingForCallback), w1, called);
    var third := Facing(s, Suspended(WaitingCallbackData), w1, answered);
    ReadyStep(s, r, w, top, answers);
    assert Step(start, answers) == second;
    ReadyStep(s, Suspended(WaitingForCallback), w1, called, answers);
    assert Step(second, answers) == third;
    RunOne(step, start);
    RunAdd(step, start, 1, 1);
    RunOne(step, second);
    n := Closing(step, start, 2, Suspended(WaitingCallbackData), answered, answers(requests), w1, answers, s);
  }

  lemma {:induction false} ControlFlowRuns(fuel: nat, top: Frame, w: World, answers: Answers, step: Stepper,
                                           s: Site, r: OperationResult) returns (n: nat)
    requires Steps(step, answers) && ControlFlow(top.node.op) && ArgumentsReady(top.node, top.accumulator)
    requires top.context == FreshControlFlow
    ensures Follows(Finish(fuel, top.node.op, top.accumulator, s.pad, w, answers), step, Facing(s, r, w, top), n, fuel,
                    s)
    decreases fuel, 1, 1, 0
  {
    hide Step, Deliver, Call, Prepare;
    var op, start := top.node.op, Facing(s, r, w, top);
    if op.StateMachineOperation? {
      n := BeginRuns(fuel, top, w, answers, step, s, r);
      return;
    }
    match Select(op, top.accumulator)
    case Yields(v) =>
      ReturnStep(step, s, r, w, top, v, w.pads, answers);
      RunOne(step, start);
      n := 1;
    case Never =>
      StuckStep(step, s, r, w, top, Endless, answers);
      RunOne(step, start);
      n := 1;
    case Calls(c, list) =>
      var context := FreshControlFlow.(callable := Some(c), arglist := list);
      if op.FunctionCallForEach? {
        n := ForEachRuns(fuel, c, list.value, [], top, context, w, answers, step, s, r);
      } else if op.GenerateList? {
        n := GenerateRuns(fuel, c, [], top, context, w, answers, step, s, r);
      } else {
        InvokeStep(step, s, r, w, top, context, answers);
        n := CallRuns(fuel, c, list, start, top, context, w, answers, step, s);
        match EvalCall(fuel, c, list, s.pad, w, answers)
        case Fails(_) =>
        case OutOfFuel =>
        case Evaluated(v, w1, _) =>
          n := Closing(step, start, n, Returned(v), top.(context := Answered(context, v)), v, w1, answers, s);
      }
  }

  /** A call: the next step of `cfg` stacks the callee, and its value comes back into the context. */
  lemma {:induction false} CallRuns(fuel: nat, c: Callable, args: Option<seq<Value>>, cfg: Config, top: Frame,
                                    context: Context, w: World, answers: Answers, step: Stepper, s: Site)
    returns (n: nat)
    requires Steps(step, answers) && ControlFlow(top.node.op) && ArgumentsReady(top.node, top.accumulator)
    requires context.ControlFlowContext?
    requires Inside(cfg, s) && Enters(step, cfg, c, args, s, top, context, w)
    ensures match EvalCall(fuel, c, args, s.pad, w, answers)
            case Evaluated(v, w1, steps) =>
              && n == 1 + steps
              && RunWith(step, cfg, n) == Facing(s, Returned(v), w1, top.(context := Answered(context, v)))
            case Fails(cause) => n > 0 && RunWith(step, cfg, n) == Halted(cause)
            case OutOfFuel => n >= fuel && Inside(RunWith(step, cfg, n), s)
    decreases fuel, 0
  {
    if c.names != [] && args.None? {
      n := 1;
      RunOne(step, cfg);
    } else if fuel == 0 {
      n := 0;
    } else {
      var w1 := w.(pads := w.pads + [CallPad(c, args, s.pad)]);
      var site := Above(s, top, context, |w.pads|);
      var m := EvalRuns(fuel - 1, c.tree, w1, answers, step, site, Returned(Bool(false)));
      n := 1 + m;
      assert RunWith(step, cfg, n) == RunWith(step, step(cfg), m);
      if m == 0 {
        return;
      }
      StackedAlike(step, site, w1, Fresh(c.tree, |w.pads|), m, answers);
      match Eval(fuel - 1, c.tree, |w.pads|, w1, answers)
      case Fails(_) =>
      case OutOfFuel =>
      case Evaluated(v, w2, _) => ReturnsTo(s, top, context, v, |w.pads|, w2);
    }
  }

  /** The execution after a call has returned. */
  lemma Resumes(top: Frame, context: Context, v: Value, before: seq<Pad>, pads: seq<Pad>)
    requires ControlFlow(top.node.op) && context.ControlFlowContext? && context.callable.Some?
    requires Execute(top, before) == Blocked(WaitingForCallableInvocation, context)
    ensures Execute(top.(context := Answered(context, v)), pads)
         == ExecutionOf(Resume(top.node.op, Answered(context, v), v), pads)
  {
    hide Resume, Start;
  }

  lemma {:induction false} ForEachRuns(fuel: nat, c: Callable, items: seq<Value>, done: seq<Value>, top: Frame,
                                       context: Context, w: World, answers: Answers, step: Stepper, s: Site,
                                       r: OperationResult)
    returns (n: nat)
    requires Steps(step, answers) && top.node.op.FunctionCallForEach? && ArgumentsReady(top.node, top.accumulator)
    requires context == FreshControlFlow.(callable := Some(c), arglist := Some(items), accumulator := done)
    requires Execute(top, w.pads) == Blocked(WaitingForCallableInvocation, context)
    ensures Follows(EvalForEach(fuel, top.node.op.elementIsSingleArgument, c, items, done, s.pad, w, answers),
                    step, Facing(s, r, w, top), n, fuel, s)
    decreases fuel, 1, 0, if |items| > |done| then |items| - |done| else 0
  {
    hide Step, Deliver, Call, Prepare, Execute;
    var single, cfg := top.node.op.elementIsSingleArgument, Facing(s, r, w, top);
    InvokeStep(step, s, r, w, top, context, answers);
    if |done| >= |items| || ElementArguments(single, items, |done|).None? {
      n := 1;
      RunOne(step, cfg);
      return;
    }
    var args := ElementArguments(single, items, |done|);
    n := CallRuns(fuel, c, args, cfg, top, context, w, answers, step, s);
    match EvalCall(fuel, c, args, s.pad, w, answers)
    case Fails(_) =>
    case OutOfFuel =>
    case Evaluated(v, w1, _) =>
      var returned := top.(context := Answered(context, v));
      Resumes(top, context, v, w.pads, w1.pads);
      if |done| + 1 < |items| {
        var context' := FreshControlFlow.(callable := Some(c), arglist := Some(items), accumulator := done + [v]);
        var k := ForEachRuns(fuel, c, items, done + [v], returned, context', w1, answers, step, s, Returned(v));
        Joins(EvalForEach(fuel, single, c, items, done + [v], s.pad, w1, answers),
              step, cfg, n, Facing(s, Returned(v), w1, returned), k, fuel, s);
        n := n + k;
      } else {
        n := Closing(step, cfg, n, Returned(v), returned, DynamicList(done + [v]), w1, answers, s);
      }
  }

  lemma {:induction false} GenerateRuns(fuel: nat, c: Callable, done: seq<Value>, top: Frame, context: Context,
                                        w: World, answers: Answers, step: Stepper, s: Site, r: OperationResult)
    returns (n: nat)
    requires Steps(step, answers) && top.node.op.GenerateList? && ArgumentsReady(top.node, top.accumulator)
    requires context == FreshControlFlow.(callable := Some(c), accumulator := done)
    requires Execute(top, w.pads) == Blocked(WaitingForCallableInvocation, context)
    ensures Follows(EvalGenerate(fuel, c, done, s.pad, w, answers), step, Facing(s, r, w, top), n, fuel, s)
    decreases fuel, 1, 0, 0
  {
    hide Step, Deliver, Call, Prepare, Execute;
    var cfg := Facing(s, r, w, top);
    InvokeStep(step, s, r, w, top, context, answers);
    n := CallRuns(fuel, c, None, cfg, top, context, w, answers, step, s);
    match EvalCall(fuel, c, None, s.pad, w, answers)
    case Fails(_) =>
    case OutOfFuel =>
    case Evaluated(v, w1, _) =>
      var returned := top.(context := Answered(context, v));
      Resumes(top, context, v, w.pads, w1.pads);
      if v.InterruptGenerator? || v.Error? {
        var result := if v.Error? then v else DynamicList(done);
        n := Closing(step, cfg, n, Returned(v), returned, result, w1, answers, s);
      } else {
        var context' := FreshControlFlow.(callable := Some(c), accumulator := done + [v]);
        var k := GenerateRuns(fuel - 1, c, done + [v], returned, context', w1, answers, step, s, Returned(v));
        Joins(EvalGenerate(fuel - 1, c, done + [v], s.pad, w1, answers),
              step, cfg, n, Facing(s, Returned(v), w1, returned), k, fuel - 1, s);
        n := n + k;
      }
  }

  lemma {:induction false} BeginRuns(fuel: nat, top: Frame, w: World, answers: Answers, step: Stepper,
                                     s: Site, r: OperationResult) returns (n: nat)
    requires Steps(step, answers) && top.node.op.StateMachineOperation? && ArgumentsReady(top.node, top.accumulator)
    requires top.context == FreshControlFlow
    ensures Follows(Finish(fuel, top.node.op, top.accumulator, s.pad, w, answers), step, Facing(s, r, w, top), n, fuel,
                    s)
    decreases fuel, 1, 0, 1
  {
    match Begin(top.node.op.states, FreshControlFlow)
    case Return(v) =>
      ReturnStep(step, s, r, w, top, v, w.pads, answers);
      RunOne(step, Facing(s, r, w, top));
      n := 1;
    case Invoke(ctx) =>
      n := StatesRun(fuel, ctx, top, w, answers, step, s, r);
  }

  lemma {:induction false} StatesRun(fuel: nat, ctx: Context, top: Frame, w: World, answers: Answers, step: Stepper,
                                     s: Site, r: OperationResult) returns (n: nat)
    requires Steps(step, answers) && top.node.op.StateMachineOperation? && ArgumentsReady(top.node, top.accumulator)
    requires StateMachine.Calling(ctx) && Execute(top, w.pads) == Blocked(WaitingForCallableInvocation, ctx)
    ensures Follows(EvalStates(fuel, top.node.op.states, ctx, s.pad, w, answers), step, Facing(s, r, w, top), n, fuel,
                    s)
    decreases fuel, 1, 0, 0
  {
    hide Step, Deliver, Call, Prepare, Execute, Advance;
    var cfg, states := Facing(s, r, w, top), top.node.op.states;
    InvokeStep(step, s, r, w, top, ctx, answers);
    n := CallRuns(fuel, ctx.callable.value, Some(ctx.accumulator), cfg, top, ctx, w, answers, step, s);
    match EvalCall(fuel, ctx.callable.value, Some(ctx.accumulator), s.pad, w, answers)
    case Fails(_) =>
    case OutOfFuel =>
    case Evaluated(v, w1, _) =>
      var returned := top.(context := Answered(ctx, v));
      Resumes(top, ctx, v, w.pads, w1.pads);
      match Advance(states, Answered(ctx, v), v)
      case Return(result) =>
        n := Closing(step, cfg, n, Returned(v), returned, result, w1, answers, s);
      case Invoke(next) =>
        var k := StatesRun(fuel - 1, next, returned, w1, answers, step, s, Returned(v));
        Joins(EvalStates(fuel - 1, states, next, s.pad, w1, answers),
              step, cfg, n, Facing(s, Returned(v), w1, returned), k, fuel - 1, s);
        n := n + k;
  }
}
