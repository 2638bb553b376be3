/** What the refinement says about whole programs. */
module Adequacy {
  import opened Options
  import opened Values
  import opened Contexts
  import opened StateMachine
  import opened Machine
  import opened Evaluator
  import opened Refinement
  import opened Scope

  /** The machine's step, as a function value. */
  function Stepping(answers: Answers): Stepper {
    (c: Config) => Step(c, answers)
  }

  lemma {:induction false} RunIsRunWith(cfg: Config, n: nat, answers: Answers)
    ensures Run(cfg, n, answers) == RunWith(Stepping(answers), cfg, n)
    decreases n
  {
    if n > 0 { RunIsRunWith(Step(cfg, answers), n - 1, answers); }
  }

  /**
   The machine refines the evaluator. From any surrounding context, with any tree
   on top of the stack: if the evaluator has a value, the machine hands that
   value to the context, in the same world, after exactly the evaluator's steps;
   if the evaluator fails, the machine halts for the same cause.
   */
  lemma MachineRefinesEvaluator(fuel: nat, node: Node, s: Site, r: OperationResult, w: World, answers: Answers)
    ensures match Eval(fuel, node, s.pad, w, answers)
            case Evaluated(v, w', steps) =>
              Run(Facing(s, r, w, Fresh(node, s.pad)), steps, answers) == Delivered(s, v, w')
            case Fails(cause) => exists n :: Run(Facing(s, r, w, Fresh(node, s.pad)), n, answers) == Halted(cause)
            case OutOfFuel => exists n :: n >= fuel && Inside(Run(Facing(s, r, w, Fresh(node, s.pad)), n, answers), s)
  {
    var n := EvalRuns(fuel, node, w, answers, Stepping(answers), s, r);
    RunIsRunWith(Facing(s, r, w, Fresh(node, s.pad)), n, answers);
  }

  ghost predicate Finished(cfg: Config) {
    cfg.Halted? || (|cfg.continuations| == 1 && cfg.continuations[0].frames == []
                    && cfg.continuations[0].result.Returned?)
  }

  /** A finished run stays where it is. */
  lemma {:induction false} FinishedStays(cfg: Config, n: nat, answers: Answers)
    requires Finished(cfg)
    ensures Run(cfg, n, answers) == cfg
    decreases n
  {
    if n > 0 {
      FinishedStep(cfg, answers);
      FinishedStays(cfg, n - 1, answers);
    }
  }

  lemma FinishedStep(cfg: Config, answers: Answers)
    requires Finished(cfg)
    ensures Step(cfg, answers) == cfg
  {
    if cfg.Running? {
      assert ButLast(cfg.continuations) == [];
      assert cfg.continuations == [Last(cfg.continuations)];
    }
  }

  /** Two finished points of one run are one. */
  lemma SameEnd(cfg: Config, m: nat, n: nat, answers: Answers)
    requires m <= n && Finished(Run(cfg, m, answers))
    ensures Run(cfg, n, answers) == Run(cfg, m, answers)
  {
    RunIsRunWith(cfg, n, answers);
    RunIsRunWith(cfg, m, answers);
    RunAdd(Stepping(answers), cfg, m, n - m);
    FinishedStays(Run(cfg, m, answers), n - m, answers);
    RunIsRunWith(Run(cfg, m, answers), n - m, answers);
  }

  const TopLevel := Site([], [], 0)

  lemma InstanceFaces(tree: Node, w: World)
    ensures Instance(tree, w) == Facing(TopLevel, Returned(Bool(false)), w, Fresh(tree, 0))
  {
    assert [] + [Fresh(tree, 0)] == [Fresh(tree, 0)];
  }

  /** Where the run of a whole program ends is what the evaluator, given that much fuel, says. */
  lemma EndOfRun(tree: Node, w: World, answers: Answers, n: nat)
    requires Finished(Run(Instance(tree, w), n, answers))
    ensures match Eval(n, tree, 0, w, answers)
            case Evaluated(v, w', _) => Exited(Run(Instance(tree, w), n, answers), v, w')
            case Fails(cause) => Run(Instance(tree, w), n, answers) == Halted(cause)
            case OutOfFuel => false
  {
    var start := Instance(tree, w);
    InstanceFaces(tree, w);
    var m := EvalRuns(n, tree, w, answers, Stepping(answers), TopLevel, Returned(Bool(false)));
    RunIsRunWith(start, m, answers);
    var o := Eval(n, tree, 0, w, answers);
    if o.OutOfFuel? {
      SameEnd(start, n, m, answers);
    } else if m <= n {
      SameEnd(start, m, n, answers);
    } else {
      SameEnd(start, n, m, answers);
    }
  }

  /**
   Adequacy, both ways: a program exits with a value and a world exactly when its
   tree evaluates to them for some fuel, and halts for a cause exactly when its
   tree fails for that cause.
   */
  lemma ExitsIffEvaluates(tree: Node, w: World, answers: Answers, v: Value, w': World)
    ensures (exists n :: Exited(Run(Instance(tree, w), n, answers), v, w'))
       <==> (exists fuel, steps :: Eval(fuel, tree, 0, w, answers) == Evaluated(v, w', steps))
  {
    if n :| Exited(Run(Instance(tree, w), n, answers), v, w') {
      EndOfRun(tree, w, answers, n);
      var steps := Eval(n, tree, 0, w, answers).steps;
      assert Eval(n, tree, 0, w, answers) == Evaluated(v, w', steps);
    }
    if fuel, steps :| Eval(fuel, tree, 0, w, answers) == Evaluated(v, w', steps) {
      InstanceFaces(tree, w);
      MachineRefinesEvaluator(fuel, tree, TopLevel, Returned(Bool(false)), w, answers);
      assert Exited(Run(Instance(tree, w), steps, answers), v, w');
    }
  }

  lemma HaltsIffFails(tree: Node, w: World, answers: Answers, cause: Cause)
    ensures (exists n :: Run(Instance(tree, w), n, answers) == Halted(cause))
       <==> (exists fuel :: Eval(fuel, tree, 0, w, answers) == Fails(cause))
  {
    if n :| Run(Instance(tree, w), n, answers) == Halted(cause) {
      EndOfRun(tree, w, answers, n);
      assert Eval(n, tree, 0, w, answers) == Fails(cause);
    }
    if fuel :| Eval(fuel, tree, 0, w, answers) == Fails(cause) {
      InstanceFaces(tree, w);
      MachineRefinesEvaluator(fuel, tree, TopLevel, Returned(Bool(false)), w, answers);
    }
  }

  // ----- fuel -----

  /** More fuel changes nothing once there is an outcome. */
  lemma {:induction false} FuelMonotone(f: nat, g: nat, node: Node, pad: nat, w: World, answers: Answers)
    requires f <= g && !Eval(f, node, pad, w, answers).OutOfFuel?
    ensures Eval(g, node, pad, w, answers) == Eval(f, node, pad, w, answers)
    decreases f, 3, node, |node.children| + 1
  {
    ArgumentsMonotone(f, g, node, [], pad, w, answers);
    match EvalArguments(f, node, [], pad, w, answers)
    case NoArguments(_) =>
    case Arguments(args, w1, _) => FinishMonotone(f, g, node.op, args, pad, w1, answers);
  }

  lemma {:induction false} ArgumentsMonotone(f: nat, g: nat, node: Node, done: seq<Value>, pad: nat, w: World,
                                             answers: Answers)
    requires f <= g && EvalArguments(f, node, done, pad, w, answers) != NoArguments(OutOfFuel)
    ensures EvalArguments(g, node, done, pad, w, answers) == EvalArguments(f, node, done, pad, w, answers)
    decreases f, 3, node, |node.children| - |done|
  {
    if !ArgumentsReady(node, done) && |done| < |node.children| {
      FuelMonotone(f, g, node.children[|done|], pad, w, answers);
      match Eval(f, node.children[|done|], pad, w, answers)
      case Fails(_) =>
      case Evaluated(v, w1, _) => ArgumentsMonotone(f, g, node, done + [v], pad, w1, answers);
    }
  }

  lemma {:induction false} FinishMonotone(f: nat, g: nat, op: Operation, args: seq<Value>, pad: nat, w: World,
                                          answers: Answers)
    requires f <= g && !Finish(f, op, args, pad, w, answers).OutOfFuel?
    ensures Finish(g, op, args, pad, w, answers) == Finish(f, op, args, pad, w, answers)
    decreases f, 2
  {
    hide Apply, Select, Begin, Encode, EvalCall, FinishRead;
    if op.StateMachineOperation? {
      match Begin(op.states, FreshControlFlow)
      case Return(_) =>
      case Invoke(ctx) => StatesMonotone(f, g, op.states, ctx, pad, w, answers);
    } else if ControlFlow(op) && |args| >= Arity(op) {
      ControlFlowMonotone(f, g, op, args, pad, w, answers);
    }
  }

  lemma {:induction false} ControlFlowMonotone(f: nat, g: nat, op: Operation, args: seq<Value>, pad: nat, w: World,
                                               answers: Answers)
    requires ControlFlow(op) && !op.StateMachineOperation? && |args| >= Arity(op)
    requires f <= g && !Finish(f, op, args, pad, w, answers).OutOfFuel?
    ensures Finish(g, op, args, pad, w, answers) == Finish(f, op, args, pad, w, answers)
    decreases f, 2, 0
  {
    hide EvalCall;
    match Select(op, args)
    case Yields(_) =>
    case Never =>
    case Calls(c, list) =>
      if op.FunctionCallForEach? {
        ForEachMonotone(f, g, op.elementIsSingleArgument, c, if list.Some? then list.value else [], [], pad, w,
                        answers);
      } else if op.GenerateList? {
        GenerateMonotone(f, g, c, [], pad, w, answers);
      } else {
        CallMonotone(f, g, c, list, pad, w, answers);
      }
  }

  lemma {:induction false} CallMonotone(f: nat, g: nat, c: Callable, args: Option<seq<Value>>, pad: nat, w: World,
                                        answers: Answers)
    requires f <= g && !EvalCall(f, c, args, pad, w, answers).OutOfFuel?
    ensures EvalCall(g, c, args, pad, w, answers) == EvalCall(f, c, args, pad, w, answers)
    decreases f, 0
  {
    if c.names == [] || args.Some? {
      FuelMonotone(f - 1, g - 1, c.tree, |w.pads|, w.(pads := w.pads + [CallPad(c, args, pad)]), answers);
    }
  }

  lemma {:induction false} ForEachMonotone(f: nat, g: nat, single: bool, c: Callable, items: seq<Value>,
                                           done: seq<Value>,
                                           pad: nat, w: World, answers: Answers)
    requires f <= g && !EvalForEach(f, single, c, items, done, pad, w, answers).OutOfFuel?
    ensures EvalForEach(g, single, c, items, done, pad, w, answers)
            == EvalForEach(f, single, c, items, done, pad, w, answers)
    decreases f, 1, if |items| > |done| then |items| - |done| else 0
  {
    if |done| < |items| && ElementArguments(single, items, |done|).Some? {
      CallMonotone(f, g, c, ElementArguments(single, items, |done|), pad, w, answers);
      match EvalCall(f, c, ElementArguments(single, items, |done|), pad, w, answers)
      case Fails(_) =>
      case Evaluated(v, w1, _) =>
        if |done| + 1 < |items| { ForEachMonotone(f, g, single, c, items, done + [v], pad, w1, answers); }
    }
  }

  lemma {:induction false} GenerateMonotone(f: nat, g: nat, c: Callable, done: seq<Value>, pad: nat, w: World,
                                            answers: Answers)
    requires f <= g && !EvalGenerate(f, c, done, pad, w, answers).OutOfFuel?
    ensures EvalGenerate(g, c, done, pad, w, answers) == EvalGenerate(f, c, done, pad, w, answers)
    decreases f, 1, 0
  {
    CallMonotone(f, g, c, None, pad, w, answers);
    match EvalCall(f, c, None, pad, w, answers)
    case Fails(_) =>
    case Evaluated(v, w1, _) =>
      if !v.InterruptGenerator? && !v.Error? { GenerateMonotone(f - 1, g - 1, c, done + [v], pad, w1, answers); }
  }

  lemma {:induction false} StatesMonotone(f: nat, g: nat, states: StateMap, ctx: Context, pad: nat, w: World,
                                          answers: Answers)
    requires StateMachine.Calling(ctx) && f <= g && !EvalStates(f, states, ctx, pad, w, answers).OutOfFuel?
    ensures EvalStates(g, states, ctx, pad, w, answers) == EvalStates(f, states, ctx, pad, w, answers)
    decreases f, 1, 0
  {
    hide Advance;
    CallMonotone(f, g, ctx.callable.value, Some(ctx.accumulator), pad, w, answers);
    match EvalCall(f, ctx.callable.value, Some(ctx.accumulator), pad, w, answers)
    case Fails(_) =>
    case Evaluated(v, w1, _) =>
      var next := Advance(states, Answered(ctx, v), v);
      if next.Invoke? { StatesMonotone(f - 1, g - 1, states, next.context, pad, w1, answers); }
  }

  // ----- termination without calls -----

  /** No callable is ever called and nothing blocks. */
  predicate Plain(node: Node) {
    Immediate(node.op) && forall i :: 0 <= i < |node.children| ==> Plain(node.children[i])
  }

  function Size(node: Node): nat {
    1 + SizeOfAll(node, 0)
  }

  function SizeOfAll(node: Node, from: nat): nat
    decreases node, if from < |node.children| then |node.children| - from else 0
  {
    if from >= |node.children| then 0 else Size(node.children[from]) + SizeOfAll(node, from + 1)
  }

  /** A plain tree needs no fuel and takes at most one step per node. */
  lemma {:induction false} PlainTerminates(node: Node, pad: nat, w: World, answers: Answers)
    requires Plain(node)
    ensures !Eval(0, node, pad, w, answers).OutOfFuel?
    ensures Eval(0, node, pad, w, answers).Evaluated? ==> Eval(0, node, pad, w, answers).steps <= Size(node)
    decreases node, |node.children| + 1
  {
    PlainArguments(node, [], pad, w, answers);
  }

  lemma {:induction false} PlainArguments(node: Node, done: seq<Value>, pad: nat, w: World, answers: Answers)
    requires Plain(node)
    ensures EvalArguments(0, node, done, pad, w, answers) != NoArguments(OutOfFuel)
    ensures var o := EvalArguments(0, node, done, pad, w, answers);
            o.Arguments? ==> o.steps <= SizeOfAll(node, |done|)
    decreases node, |node.children| - |done|
  {
    if !ArgumentsReady(node, done) && |done| < |node.children| {
      var child := node.children[|done|];
      PlainTerminates(child, pad, w, answers);
      match Eval(0, child, pad, w, answers)
      case Fails(_) =>
      case Evaluated(v, w1, _) => PlainArguments(node, done + [v], pad, w1, answers);
    }
  }

  /** A well-formed plain tree fails for nothing but overflow. */
  lemma {:induction false} PlainOverflows(node: Node, pad: nat, w: World, answers: Answers)
    requires Plain(node) && WellFormed(node)
    ensures Eval(0, node, pad, w, answers).Fails? ==> Eval(0, node, pad, w, answers).cause == IntegerOverflow
    decreases node, |node.children| + 1
  {
    PlainArgumentsOverflow(node, [], pad, w, answers);
  }

  lemma {:induction false} PlainArgumentsOverflow(node: Node, done: seq<Value>, pad: nat, w: World, answers: Answers)
    requires Plain(node) && WellFormed(node)
    ensures var o := EvalArguments(0, node, done, pad, w, answers);
            o.NoArguments? && o.why.Fails? ==> o.why.cause == IntegerOverflow
    decreases node, |node.children| - |done|
  {
    if !ArgumentsReady(node, done) && |done| < |node.children| {
      var child := node.children[|done|];
      PlainOverflows(child, pad, w, answers);
      match Eval(0, child, pad, w, answers)
      case Fails(_) =>
      case OutOfFuel =>
      case Evaluated(v, w1, _) => PlainArgumentsOverflow(node, done + [v], pad, w1, answers);
    }
  }

  /** A plain tree that fails halts the machine within one step per node. */
  lemma {:induction false} PlainHalts(node: Node, w: World, answers: Answers, step: Stepper, s: Site,
                                      r: OperationResult)
    returns (n: nat)
    requires Steps(step, answers) && Plain(node) && Eval(0, node, s.pad, w, answers).Fails?
    ensures n <= Size(node)
    ensures RunWith(step, Facing(s, r, w, Fresh(node, s.pad)), n) == Halted(Eval(0, node, s.pad, w, answers).cause)
    decreases node, |node.children| + 1
  {
    hide Step, Deliver, Prepare, Execute;
    match EvalArguments(0, node, [], s.pad, w, answers)
    case NoArguments(_) =>
      n := PlainArgumentsHalt(node, [], w, answers, step, s, r);
    case Arguments(args, w1, _) =>
      PlainArguments(node, [], s.pad, w, answers);
      var start := Facing(s, r, w, Fresh(node, s.pad));
      var m, r' := ArgumentsRun(0, node, [], w, answers, step, s, r);
      var ready := Frame(node, args, InitialContext(node.op), s.pad);
      StuckExecution(ready, w1.pads);
      StuckStep(step, s, r', w1, ready, Eval(0, node, s.pad, w, answers).cause, answers);
      RunAdd(step, start, m, 1);
      RunOne(step, Facing(s, r', w1, ready));
      n := m + 1;
  }

  lemma StuckExecution(top: Frame, pads: seq<Pad>)
    requires Immediate(top.node.op) && (Dynamic(top.node.op) || |top.accumulator| >= Arity(top.node.op))
    ensures var applied := Apply(top.node.op, top.accumulator, pads, top.pad);
            applied.Undefined? ==> Execute(top, pads) == Stuck(applied.cause)
  {}

  lemma {:induction false} PlainArgumentsHalt(node: Node, done: seq<Value>, w: World, answers: Answers, step: Stepper,
                                              s: Site, r: OperationResult) returns (n: nat)
    requires Steps(step, answers) && Plain(node)
    requires var o := EvalArguments(0, node, done, s.pad, w, answers); o.NoArguments? && o.why.Fails?
    ensures n <= 1 + SizeOfAll(node, |done|)
    ensures RunWith(step, Facing(s, r, w, Frame(node, done, InitialContext(node.op), s.pad)), n)
         == Halted(EvalArguments(0, node, done, s.pad, w, answers).why.cause)
    decreases node, |node.children| - |done|
  {
    hide Step, Deliver, Prepare, Execute;
    var top := Frame(node, done, InitialContext(node.op), s.pad);
    var start := Facing(s, r, w, top);
    DescendStep(step, s, r, w, top, answers);
    if |done| >= |node.children| {
      RunOne(step, start);
      return 1;
    }
    var child := node.children[|done|];
    var facing := Facing(Under(s, top), r, w, Fresh(child, s.pad));
    var o := Eval(0, child, s.pad, w, answers);
    if o.Fails? {
      n := PlainHalts(child, w, answers, step, Under(s, top), r);
      RunAlike(step, start, facing, n);
    } else {
      PlainTerminates(child, s.pad, w, answers);
      n := EvalRuns(0, child, w, answers, step, Under(s, top), r);
      RunAlike(step, start, facing, n);
      ChildDelivered(s, top, o.value, o.world);
      var k := PlainArgumentsHalt(node, done + [o.value], o.world, answers, step, s, Returned(o.value));
      RunAdd(step, start, n, k);
      n := n + k;
    }
  }

  /** The value of a child goes to the frame that waits for it. */
  lemma ChildDelivered(s: Site, top: Frame, v: Value, w: World)
    ensures Delivered(Under(s, top), v, w) == Facing(s, Returned(v), w, top.(accumulator := top.accumulator + [v]))
  {
    assert ButLast(s.frames + [top]) == s.frames;
  }

  /**
   A well-formed plain program exits with a value, or halts because an addition,
   subtraction or multiplication overflows, within as many steps as it has nodes.
   */
  lemma PlainProgramEnds(tree: Node, w: World, answers: Answers) returns (n: nat)
    requires Plain(tree) && WellFormed(tree)
    ensures n <= Size(tree)
    ensures var end := Run(Instance(tree, w), n, answers);
            end == Halted(IntegerOverflow) || exists v, w' :: Exited(end, v, w')
  {
    var start := Instance(tree, w);
    PlainTerminates(tree, 0, w, answers);
    PlainOverflows(tree, 0, w, answers);
    InstanceFaces(tree, w);
    match Eval(0, tree, 0, w, answers)
    case Evaluated(v, w', steps) =>
      n := EvalRuns(0, tree, w, answers, Stepping(answers), TopLevel, Returned(Bool(false)));
      RunIsRunWith(start, n, answers);
      assert Exited(Run(start, n, answers), v, w');
    case Fails(_) =>
      n := PlainHalts(tree, w, answers, Stepping(answers), TopLevel, Returned(Bool(false)));
      RunIsRunWith(start, n, answers);
  }
}
