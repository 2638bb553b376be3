/** What evaluation does to scopes, what well-formed trees never run into, and what the loop operators compute. */
module Scope {
  import opened Options
  import opened Octets
  import opened Values
  import opened Contexts
  import opened ReadOperations
  import opened StateMachine
  import opened Evaluator

  // ----- pads -----

  /** Every parent is older, and only the root pad has none. */
  ghost predicate Rooted(pads: seq<Pad>) {
    && |pads| > 0
    && (forall i :: 0 <= i < |pads| ==> (pads[i].parent.None? <==> i == 0))
    && (forall i :: 0 < i < |pads| ==> pads[i].parent.value < i)
  }

  lemma {:induction false} RootIsZero(pads: seq<Pad>, i: nat)
    requires Rooted(pads) && i < |pads|
    ensures Root(pads, i) == 0
    decreases i
  {
    if i > 0 { RootIsZero(pads, pads[i].parent.value); }
  }

  /** Pads only come, keep their parents, and no old pad but `pad` and the root binds other names than before. */
  ghost predicate Framed(before: seq<Pad>, after: seq<Pad>, pad: nat) {
    && |before| <= |after|
    && (forall i :: 0 <= i < |before| ==> after[i].parent == before[i].parent)
    && (forall i :: 0 <= i < |before| ==> before[i].names.Keys <= after[i].names.Keys)
    && (forall i :: 0 < i < |before| && i != pad ==> after[i].names.Keys == before[i].names.Keys)
  }

  lemma FramedChain(a: seq<Pad>, b: seq<Pad>, c: seq<Pad>, p: nat, q: nat)
    requires Framed(a, b, p) && Framed(b, c, q) && (q == p || q == 0 || q >= |a|)
    ensures Framed(a, c, p)
  {}

  lemma ApplyFrames(op: Operation, args: seq<Value>, pads: seq<Pad>, pad: nat)
    requires Immediate(op) && Rooted(pads) && pad < |pads|
    ensures var r := Apply(op, args, pads, pad);
            r.Result? ==> Rooted(r.pads) && Framed(pads, r.pads, pad)
  {
    RootIsZero(pads, pad);
  }

  /** Evaluation at a pad leaves every other old pad but the root with the names it had. */
  lemma {:induction false} EvalFrames(fuel: nat, node: Node, pad: nat, w: World, answers: Answers)
    requires Rooted(w.pads) && pad < |w.pads|
    ensures var o := Eval(fuel, node, pad, w, answers);
            o.Evaluated? ==> Rooted(o.world.pads) && Framed(w.pads, o.world.pads, pad)
    decreases fuel, 3, node, |node.children| + 1
  {
    ArgumentsFrame(fuel, node, [], pad, w, answers);
    match EvalArguments(fuel, node, [], pad, w, answers)
    case NoArguments(_) =>
    case Arguments(args, w1, _) =>
      FinishFrames(fuel, node.op, args, pad, w1, answers);
      var o := Finish(fuel, node.op, args, pad, w1, answers);
      if o.Evaluated? { FramedChain(w.pads, w1.pads, o.world.pads, pad, pad); }
  }

  lemma {:induction false} ArgumentsFrame(fuel: nat, node: Node, done: seq<Value>, pad: nat, w: World, answers: Answers)
    requires Rooted(w.pads) && pad < |w.pads|
    ensures var o := EvalArguments(fuel, node, done, pad, w, answers);
            o.Arguments? ==> Rooted(o.world.pads) && Framed(w.pads, o.world.pads, pad)
    decreases fuel, 3, node, |node.children| - |done|
  {
    if !ArgumentsReady(node, done) && |done| < |node.children| {
      EvalFrames(fuel, node.children[|done|], pad, w, answers);
      match Eval(fuel, node.children[|done|], pad, w, answers)
      case Fails(_) =>
      case OutOfFuel =>
      case Evaluated(v, w1, _) =>
        ArgumentsFrame(fuel, node, done + [v], pad, w1, answers);
        var o := EvalArguments(fuel, node, done + [v], pad, w1, answers);
        if o.Arguments? { FramedChain(w.pads, w1.pads, o.world.pads, pad, pad); }
    }
  }

  lemma {:induction false} FinishFrames(fuel: nat, op: Operation, args: seq<Value>, pad: nat, w: World,
                                        answers: Answers)
    requires Rooted(w.pads) && pad < |w.pads|
    ensures var o := Finish(fuel, op, args, pad, w, answers);
            o.Evaluated? ==> Rooted(o.world.pads) && Framed(w.pads, o.world.pads, pad)
    decreases fuel, 2
  {
    hide Apply, Select, Begin, Encode, EvalCall, FinishRead;
    if !Dynamic(op) && |args| < Arity(op) {
    } else if Immediate(op) {
      ApplyFrames(op, args, w.pads, pad);
    } else if op.StateMachineOperation? {
      match Begin(op.states, FreshControlFlow)
      case Return(_) =>
      case Invoke(ctx) => StatesFrame(fuel, op.states, ctx, pad, w, answers);
    } else if ControlFlow(op) {
      ControlFlowFrames(fuel, op, args, pad, w, answers);
    }
  }

  lemma {:induction false} ControlFlowFrames(fuel: nat, op: Operation, args: seq<Value>, pad: nat, w: World,
                                             answers: Answers)
    requires ControlFlow(op) && !op.StateMachineOperation? && |args| >= Arity(op)
    requires Rooted(w.pads) && pad < |w.pads|
    ensures var o := Finish(fuel, op, args, pad, w, answers);
            o.Evaluated? ==> Rooted(o.world.pads) && Framed(w.pads, o.world.pads, pad)
    decreases fuel, 2, 0
  {
    hide EvalCall;
    match Select(op, args)
    case Yields(_) =>
    case Never =>
    case Calls(c, list) =>
      if op.FunctionCallForEach? {
        ForEachFrames(fuel, op.elementIsSingleArgument, c, if list.Some? then list.value else [], [], pad, w, answers);
      } else if op.GenerateList? {
        GenerateFrames(fuel, c, [], pad, w, answers);
      } else {
        CallFrames(fuel, c, list, pad, w, answers);
      }
  }

  /** A whole call leaves every old pad but the root with the names it had. */
  lemma {:induction false} CallFrames(fuel: nat, c: Callable, args: Option<seq<Value>>, pad: nat, w: World,
                                      answers: Answers)
    requires Rooted(w.pads) && pad < |w.pads|
    ensures var o := EvalCall(fuel, c, args, pad, w, answers);
            o.Evaluated? ==> Rooted(o.world.pads) && Framed(w.pads, o.world.pads, 0)
    decreases fuel, 0
  {
    if fuel > 0 && (c.names == [] || args.Some?) {
      var pads := w.pads + [CallPad(c, args, pad)];
      assert Rooted(pads) && Framed(w.pads, pads, 0);
      EvalFrames(fuel - 1, c.tree, |w.pads|, w.(pads := pads), answers);
      var o := EvalCall(fuel, c, args, pad, w, answers);
      if o.Evaluated? { FramedChain(w.pads, pads, o.world.pads, 0, |w.pads|); }
    }
  }

  lemma {:induction false} ForEachFrames(fuel: nat, single: bool, c: Callable, items: seq<Value>, done: seq<Value>,
                                         pad: nat, w: World, answers: Answers)
    requires Rooted(w.pads) && pad < |w.pads|
    ensures var o := EvalForEach(fuel, single, c, items, done, pad, w, answers);
            o.Evaluated? ==> Rooted(o.world.pads) && Framed(w.pads, o.world.pads, 0)
    decreases fuel, 1, if |items| > |done| then |items| - |done| else 0
  {
    if |done| < |items| && ElementArguments(single, items, |done|).Some? {
      CallFrames(fuel, c, ElementArguments(single, items, |done|), pad, w, answers);
      match EvalCall(fuel, c, ElementArguments(single, items, |done|), pad, w, answers)
      case Fails(_) =>
      case OutOfFuel =>
      case Evaluated(v, w1, _) =>
        if |done| + 1 < |items| {
          ForEachFrames(fuel, single, c, items, done + [v], pad, w1, answers);
          var o := EvalForEach(fuel, single, c, items, done + [v], pad, w1, answers);
          if o.Evaluated? { FramedChain(w.pads, w1.pads, o.world.pads, 0, 0); }
        }
    }
  }

  lemma {:induction false} GenerateFrames(fuel: nat, c: Callable, done: seq<Value>, pad: nat, w: World,
                                          answers: Answers)
    requires Rooted(w.pads) && pad < |w.pads|
    ensures var o := EvalGenerate(fuel, c, done, pad, w, answers);
            o.Evaluated? ==> Rooted(o.world.pads) && Framed(w.pads, o.world.pads, 0)
    decreases fuel, 1, 0
  {
    CallFrames(fuel, c, None, pad, w, answers);
    match EvalCall(fuel, c, None, pad, w, answers)
    case Fails(_) =>
    case OutOfFuel =>
    case Evaluated(v, w1, _) =>
      if !v.InterruptGenerator? && !v.Error? {
        GenerateFrames(fuel - 1, c, done + [v], pad, w1, answers);
        var o := EvalGenerate(fuel - 1, c, done + [v], pad, w1, answers);
        if o.Evaluated? { FramedChain(w.pads, w1.pads, o.world.pads, 0, 0); }
      }
  }

  lemma {:induction false} StatesFrame(fuel: nat, states: StateMap, ctx: Context, pad: nat, w: World, answers: Answers)
    requires StateMachine.Calling(ctx) && Rooted(w.pads) && pad < |w.pads|
    ensures var o := EvalStates(fuel, states, ctx, pad, w, answers);
            o.Evaluated? ==> Rooted(o.world.pads) && Framed(w.pads, o.world.pads, 0)
    decreases fuel, 1, 0
  {
    hide Advance;
    CallFrames(fuel, ctx.callable.value, Some(ctx.accumulator), pad, w, answers);
    match EvalCall(fuel, ctx.callable.value, Some(ctx.accumulator), pad, w, answers)
    case Fails(_) =>
    case OutOfFuel =>
    case Evaluated(v, w1, _) =>
      var next := Advance(states, Answered(ctx, v), v);
      if next.Invoke? {
        StatesFrame(fuel - 1, states, next.context, pad, w1, answers);
        var o := EvalStates(fuel - 1, states, next.context, pad, w1, answers);
        if o.Evaluated? { FramedChain(w.pads, w1.pads, o.world.pads, 0, 0); }
      }
  }

  /** `set` acts on the nearest binding: `get` of that name sees it from every pad below, other names see nothing. */
  lemma {:induction false} SetThenGet(pads: seq<Pad>, i: nat, name: string, v: Value, j: nat, other: string)
    requires Binder(pads, i, name).Some?
    ensures var (pads', before) := PadSet(pads, i, name, v);
            && before == PadGet(pads, i, name)
            && Binder(pads', j, other) == Binder(pads, j, other)
            && PadGet(pads', j, other) ==
               if other == name && Binder(pads, j, other) == Binder(pads, i, name) then v else PadGet(pads, j, other)
    decreases j
  {
    var (pads', _) := PadSet(pads, i, name, v);
    if j < |pads| && other !in pads[j].names && pads[j].parent.Some? && pads[j].parent.value < j {
      SetThenGet(pads, i, name, v, pads[j].parent.value, other);
    }
  }

  /** `initialize` binds in its own pad, unless the name is bound there already, whatever the pads above say. */
  lemma InitializeThenGet(pads: seq<Pad>, i: nat, name: string, v: Value)
    requires i < |pads|
    ensures PadGet(PadInitialize(pads, i, name, v), i, name)
         == if name in pads[i].names then pads[i].names[name] else v
  {}

  /** `initialize_global` is seen from every pad that had no binding, and changes nothing for the others. */
  lemma {:induction false} InitializeGlobalThenGet(pads: seq<Pad>, i: nat, name: string, v: Value, j: nat,
                                                   other: string)
    requires Rooted(pads) && i < |pads| && j < |pads|
    ensures PadGet(PadInitializeGlobal(pads, i, name, v), j, other)
         == if other == name && Binder(pads, j, name).None? then v else PadGet(pads, j, other)
    decreases j
  {
    RootIsZero(pads, i);
    if other !in pads[j].names && j > 0 {
      InitializeGlobalThenGet(pads, i, name, v, pads[j].parent.value, other);
    }
  }

  // ----- well-formed trees -----

  /** Every node of fixed arity has its children, down into the static callables and the trees of state maps. */
  ghost predicate WellFormed(node: Node) {
    && (!Dynamic(node.op) ==> |node.children| >= Arity(node.op))
    && (node.op.StaticCallable? ==> WellFormed(node.op.callable.tree))
    && (node.op.StateMachineOperation? ==> forall s :: s in node.op.states ==> WellFormedState(node.op.states[s]))
    && (forall i :: 0 <= i < |node.children| ==> WellFormed(node.children[i]))
  }

  ghost predicate WellFormedState(info: StateInfo) {
    && WellFormed(info.tree)
    && forall m :: m in info.transitions ==> WellFormed(info.transitions[m].tree)
  }

  ghost predicate WellFormedValue(v: Value) {
    match v
    case Code(c) => WellFormed(c.tree)
    case Dictionary(m) => forall k :: k in m ==> WellFormedValue(m[k])
    case DynamicList(vs) => forall i :: 0 <= i < |vs| ==> WellFormedValue(vs[i])
    case _ => true
  }

  ghost predicate WellFormedValues(vs: seq<Value>) {
    forall i :: 0 <= i < |vs| ==> WellFormedValue(vs[i])
  }

  ghost predicate WellFormedPads(pads: seq<Pad>) {
    forall i, k :: 0 <= i < |pads| && k in pads[i].names ==> WellFormedValue(pads[i].names[k])
  }

  /** The causes that only a malformed tree or a broken stack could bring about. */
  predicate Structural(cause: Cause) {
    cause.MissingChild? || cause.MissingFrame? || cause.MissingArguments? || cause.NotCallable?
  }

  ghost predicate Sound(o: Outcome) {
    && (o.Evaluated? ==> WellFormedValue(o.value) && WellFormedPads(o.world.pads))
    && (o.Fails? ==> !Structural(o.cause))
  }

  lemma ApplySound(op: Operation, args: seq<Value>, pads: seq<Pad>, pad: nat)
    requires Immediate(op) && (!Dynamic(op) ==> |args| >= Arity(op))
    requires op.StaticCallable? ==> WellFormed(op.callable.tree)
    requires WellFormedValues(args) && WellFormedPads(pads)
    ensures match Apply(op, args, pads, pad)
            case Result(v, pads') => WellFormedValue(v) && WellFormedPads(pads')
            case Undefined(cause) => !Structural(cause)
  {
    if op.DictionaryGet? {
      var d := args[0];
      if d.Dictionary? && op.key in d.members { assert WellFormedValue(d.members[op.key]); }
    }
  }

  lemma {:induction false} BindSound(names: seq<string>, args: seq<Value>)
    requires WellFormedValues(args)
    ensures forall k :: k in Bind(names, args) ==> WellFormedValue(Bind(names, args)[k])
    decreases |names|
  {
    if names != [] { BindSound(names[..|names| - 1], args); }
  }

  /** A well-formed tree in a well-formed world never fails for a structural cause. */
  lemma {:induction false} EvalSound(fuel: nat, node: Node, pad: nat, w: World, answers: Answers)
    requires WellFormed(node) && WellFormedPads(w.pads) && (forall q :: WellFormedValue(answers(q)))
    ensures Sound(Eval(fuel, node, pad, w, answers))
    decreases fuel, 3, node, |node.children| + 1
  {
    ArgumentsSound(fuel, node, [], pad, w, answers);
    match EvalArguments(fuel, node, [], pad, w, answers)
    case NoArguments(_) =>
    case Arguments(args, w1, _) => FinishSound(fuel, node, args, pad, w1, answers);
  }

  lemma {:induction false} ArgumentsSound(fuel: nat, node: Node, done: seq<Value>, pad: nat, w: World, answers: Answers)
    requires WellFormed(node) && WellFormedPads(w.pads) && (forall q :: WellFormedValue(answers(q)))
    requires WellFormedValues(done)
    ensures match EvalArguments(fuel, node, done, pad, w, answers)
            case NoArguments(why) => Sound(why)
            case Arguments(args, w1, _) => WellFormedValues(args) && WellFormedPads(w1.pads)
    decreases fuel, 3, node, |node.children| - |done|
  {
    if !ArgumentsReady(node, done) && |done| < |node.children| {
      EvalSound(fuel, node.children[|done|], pad, w, answers);
      match Eval(fuel, node.children[|done|], pad, w, answers)
      case Fails(_) =>
      case OutOfFuel =>
      case Evaluated(v, w1, _) => ArgumentsSound(fuel, node, done + [v], pad, w1, answers);
    }
  }

  lemma {:induction false} FinishSound(fuel: nat, node: Node, args: seq<Value>, pad: nat, w: World, answers: Answers)
    requires WellFormed(node) && WellFormedPads(w.pads) && (forall q :: WellFormedValue(answers(q)))
    requires WellFormedValues(args) && ArgumentsReady(node, args)
    ensures Sound(Finish(fuel, node.op, args, pad, w, answers))
    decreases fuel, 2
  {
    hide Apply, Begin, EvalCall, FinishRead;
    var op := node.op;
    if Immediate(op) {
      ApplySound(op, args, w.pads, pad);
    } else if op.StateMachineOperation? {
      BeginSound(op.states);
      match Begin(op.states, FreshControlFlow)
      case Return(_) =>
      case Invoke(ctx) => StatesSound(fuel, op.states, ctx, pad, w, answers);
    } else if Reads(op) {
      ReadSound(op, w);
    } else if ControlFlow(op) {
      match Select(op, args)
      case Yields(_) =>
      case Never =>
      case Calls(c, list) =>
        assert WellFormed(c.tree) && (list.Some? ==> WellFormedValues(list.value));
        if op.FunctionCallForEach? {
          ForEachSound(fuel, op.elementIsSingleArgument, c, list.value, [], pad, w, answers);
        } else if op.GenerateList? {
          GenerateSound(fuel, c, [], pad, w, answers);
        } else {
          CallSound(fuel, c, list, pad, w, answers);
        }
    }
  }

  lemma ReadSound(op: Operation, w: World)
    requires Reads(op) && WellFormedPads(w.pads)
    ensures Sound(FinishRead(op, w))
  {
    hide Evaluate, HandleRead;
    if Evaluate(op, FreshInputOutput).Some? {
      ReadValueSound(op, FreshInputOutput);
    } else {
      ResumedSettles(op, w.input, w.eof);
      var read := HandleRead(op, FreshInputOutput, w.input, w.eof);
      if read.Resumed? { ReadValueSound(op, read.ctx); }
    }
  }

  lemma ReadValueSound(op: Operation, ctx: Context)
    requires Reads(op) && ctx.InputOutputContext? && Evaluate(op, ctx).Some?
    ensures WellFormedValue(Evaluate(op, ctx).value)
  {}

  // ----- the state machine operation -----

  /** The callback being called, its arguments, and the state and transition at hand are well-formed. */
  ghost predicate SoundContext(ctx: Context) {
    && StateMachine.Calling(ctx) && WellFormed(ctx.callable.value.tree) && WellFormedValues(ctx.accumulator)
    && WellFormedState(ctx.info.value.toState.1)
  }

  ghost predicate SoundChoice(c: Choice) {
    match c
    case Invoke(ctx) => SoundContext(ctx)
    case Return(v) => WellFormedValue(v)
    case Never => false
  }

  lemma BeginSound(states: StateMap)
    requires forall s :: s in states ==> WellFormedState(states[s])
    ensures SoundChoice(Begin(states, FreshControlFlow))
  {}

  lemma ArgumentsOf(names: seq<string>, members: map<string, Value>)
    requires forall k :: k in members ==> WellFormedValue(members[k])
    ensures WellFormedValues(ExtractArguments(names, members))
  {}

  lemma StateReturnedSound(states: StateMap, ctx: Context, info: ProcessingInfo, v: Value)
    requires (forall s :: s in states ==> WellFormedState(states[s])) && WellFormedState(info.toState.1)
    requires ctx.ControlFlowContext? && WellFormedValue(v)
    ensures SoundChoice(StateReturned(states, ctx, info, v))
  {
    if v.DynamicList? && |v.values| == 2 && v.values[0].Text? && v.values[1].Dictionary? {
      assert WellFormedValue(v.values[1]);
      var message := NameOf(v.values[0].data);
      if message in info.toState.1.transitions {
        ArgumentsOf(info.toState.1.transitions[message].argumentNames, v.values[1].members);
      }
    }
  }

  lemma AdvanceSound(states: StateMap, ctx: Context, v: Value)
    requires forall s :: s in states ==> WellFormedState(states[s])
    requires SoundContext(ctx) && WellFormedValue(v)
    ensures SoundChoice(Advance(states, Answered(ctx, v), v))
  {
    hide StateReturned;
    StateReturnedSound(states, Answered(ctx, v), ctx.info.value, v);
    if v.DynamicList? && |v.values| == 1 { assert WellFormedValue(v.values[0]); }
  }

  lemma {:induction false} CallSound(fuel: nat, c: Callable, args: Option<seq<Value>>, pad: nat, w: World,
                                     answers: Answers)
    requires WellFormed(c.tree) && WellFormedPads(w.pads) && (forall q :: WellFormedValue(answers(q)))
    requires args.Some? ==> WellFormedValues(args.value)
    ensures Sound(EvalCall(fuel, c, args, pad, w, answers))
    decreases fuel, 0
  {
    if fuel > 0 && (c.names == [] || args.Some?) {
      BindSound(c.names, if args.Some? then args.value else []);
      EvalSound(fuel - 1, c.tree, |w.pads|, w.(pads := w.pads + [CallPad(c, args, pad)]), answers);
    }
  }

  lemma {:induction false} ForEachSound(fuel: nat, single: bool, c: Callable, items: seq<Value>, done: seq<Value>,
                                        pad: nat, w: World, answers: Answers)
    requires WellFormed(c.tree) && WellFormedPads(w.pads) && (forall q :: WellFormedValue(answers(q)))
    requires WellFormedValues(items) && WellFormedValues(done)
    ensures Sound(EvalForEach(fuel, single, c, items, done, pad, w, answers))
    decreases fuel, 1, if |items| > |done| then |items| - |done| else 0
  {
    if |done| < |items| && ElementArguments(single, items, |done|).Some? {
      assert WellFormedValue(items[|done|]);
      CallSound(fuel, c, ElementArguments(single, items, |done|), pad, w, answers);
      match EvalCall(fuel, c, ElementArguments(single, items, |done|), pad, w, answers)
      case Fails(_) =>
      case OutOfFuel =>
      case Evaluated(v, w1, _) =>
        if |done| + 1 < |items| { ForEachSound(fuel, single, c, items, done + [v], pad, w1, answers); }
    }
  }

  lemma {:induction false} GenerateSound(fuel: nat, c: Callable, done: seq<Value>, pad: nat, w: World, answers: Answers)
    requires WellFormed(c.tree) && WellFormedPads(w.pads) && (forall q :: WellFormedValue(answers(q)))
    requires WellFormedValues(done)
    ensures Sound(EvalGenerate(fuel, c, done, pad, w, answers))
    decreases fuel, 1, 0
  {
    CallSound(fuel, c, None, pad, w, answers);
    match EvalCall(fuel, c, None, pad, w, answers)
    case Fails(_) =>
    case OutOfFuel =>
    case Evaluated(v, w1, _) =>
      if !v.InterruptGenerator? && !v.Error? { GenerateSound(fuel - 1, c, done + [v], pad, w1, answers); }
  }

  lemma {:induction false} StatesSound(fuel: nat, states: StateMap, ctx: Context, pad: nat, w: World, answers: Answers)
    requires (forall s :: s in states ==> WellFormedState(states[s])) && SoundContext(ctx)
    requires WellFormedPads(w.pads) && (forall q :: WellFormedValue(answers(q)))
    ensures Sound(EvalStates(fuel, states, ctx, pad, w, answers))
    decreases fuel, 1, 0
  {
    hide Advance;
    CallSound(fuel, ctx.callable.value, Some(ctx.accumulator), pad, w, answers);
    match EvalCall(fuel, ctx.callable.value, Some(ctx.accumulator), pad, w, answers)
    case Fails(_) =>
    case OutOfFuel =>
    case Evaluated(v, w1, _) =>
      AdvanceSound(states, ctx, v);
      var next := Advance(states, Answered(ctx, v), v);
      if next.Invoke? { StatesSound(fuel - 1, states, next.context, pad, w1, answers); }
  }

  // ----- loop operators -----

  /** A call made in world `w` gives `v` and leaves world `w'`. */
  ghost predicate Gives(fuel: nat, c: Callable, args: Option<seq<Value>>, pad: nat, answers: Answers, w: World,
                        v: Value, w': World) {
    var o := EvalCall(fuel, c, args, pad, w, answers);
    o.Evaluated? && o.value == v && o.world == w'
  }

  /** An element is the one argument of its call, or the list of them. */
  function Spread(single: bool, item: Value): seq<Value> {
    if single then [item] else if item.DynamicList? then item.values else []
  }

  /** Call `k` is made in world `ws[k]`, gives `vs[k]` and leaves world `ws[k + 1]`. */
  ghost predicate Chain(fuel: nat, single: bool, c: Callable, items: seq<Value>, pad: nat, answers: Answers,
                        vs: seq<Value>, ws: seq<World>)
  {
    && |vs| <= |items| && |ws| == |vs| + 1
    && forall k :: 0 <= k < |vs| ==>
         (single || items[k].DynamicList?)
         && Gives(fuel, c, Some(Spread(single, items[k])), pad, answers, ws[k], vs[k], ws[k + 1])
  }

  /**
   `FunctionCallForEach` evaluates exactly when the list is not empty and calling
   the callable once per element, in order, each call in the world the one before
   left, gives values; they are its list, and the last world is its world.
   */
  lemma ForEachIsMap(fuel: nat, single: bool, c: Callable, items: seq<Value>, pad: nat, w: World, answers: Answers,
                     v: Value, w': World)
    ensures (exists n :: EvalForEach(fuel, single, c, items, [], pad, w, answers) == Evaluated(v, w', n))
       <==> (exists vs, ws :: && Chain(fuel, single, c, items, pad, answers, vs, ws)
                              && |vs| == |items| > 0 && ws[0] == w && ws[|vs|] == w' && v == DynamicList(vs))
  {
    if n :| EvalForEach(fuel, single, c, items, [], pad, w, answers) == Evaluated(v, w', n) {
      var vs, ws := ForEachChain(fuel, single, c, items, [], [w], pad, answers);
    }
    if vs, ws :| && Chain(fuel, single, c, items, pad, answers, vs, ws)
                 && |vs| == |items| > 0 && ws[0] == w && ws[|vs|] == w' && v == DynamicList(vs) {
      ChainEvaluates(fuel, single, c, items, 0, pad, answers, vs, ws);
      assert vs[..0] == [];
      var o := EvalForEach(fuel, single, c, items, [], pad, w, answers);
      assert o == Evaluated(v, w', o.steps);
    }
  }

  lemma {:induction false} ForEachChain(fuel: nat, single: bool, c: Callable, items: seq<Value>, done: seq<Value>,
                                        before: seq<World>,
                                        pad: nat, answers: Answers) returns (vs: seq<Value>, ws: seq<World>)
    requires Chain(fuel, single, c, items, pad, answers, done, before)
    requires EvalForEach(fuel, single, c, items, done, pad, before[|done|], answers).Evaluated?
    ensures Chain(fuel, single, c, items, pad, answers, vs, ws) && |vs| == |items| > 0 && ws[0] == before[0]
    ensures var o := EvalForEach(fuel, single, c, items, done, pad, before[|done|], answers);
            o.value == DynamicList(vs) && o.world == ws[|vs|]
    decreases |items| - |done|
  {
    var o := EvalCall(fuel, c, ElementArguments(single, items, |done|), pad, before[|done|], answers);
    vs, ws := done + [o.value], before + [o.world];
    forall k | 0 <= k < |vs|
      ensures single || items[k].DynamicList?
      ensures Gives(fuel, c, Some(Spread(single, items[k])), pad, answers, ws[k], vs[k], ws[k + 1])
    {
      if k < |done| { assert done[k] == vs[k] && before[k] == ws[k] && before[k + 1] == ws[k + 1]; }
    }
    if |done| + 1 < |items| {
      vs, ws := ForEachChain(fuel, single, c, items, vs, ws, pad, answers);
    }
  }

  lemma {:induction false} ChainEvaluates(fuel: nat, single: bool, c: Callable, items: seq<Value>, k: nat,
                                          pad: nat, answers: Answers, vs: seq<Value>, ws: seq<World>)
    requires Chain(fuel, single, c, items, pad, answers, vs, ws) && k < |vs| == |items|
    ensures var o := EvalForEach(fuel, single, c, items, vs[..k], pad, ws[k], answers);
            o.Evaluated? && o.value == DynamicList(vs) && o.world == ws[|vs|]
    decreases |vs| - k
  {
    assert vs[..k] + [vs[k]] == vs[..k + 1];
    assert Gives(fuel, c, Some(Spread(single, items[k])), pad, answers, ws[k], vs[k], ws[k + 1]);
    if k + 1 < |vs| {
      ChainEvaluates(fuel, single, c, items, k + 1, pad, answers, vs, ws);
    } else {
      assert vs[..k + 1] == vs;
    }
  }

  /** Call `k` of the generator, the fuel left shrinking with it. */
  ghost predicate Generates(fuel: nat, c: Callable, pad: nat, answers: Answers, vs: seq<Value>, ws: seq<World>) {
    && |ws| == |vs| + 1 && |vs| <= fuel
    && forall k :: 0 <= k < |vs| ==> Gives(fuel - k, c, None, pad, answers, ws[k], vs[k], ws[k + 1])
  }

  /**
   `GenerateList` calls until the first interrupt or error. An interrupt makes the
   values before it the list; an error is the result itself.
   */
  lemma {:induction false} GenerateTakesUntil(fuel: nat, c: Callable, done: seq<Value>, pad: nat, w: World,
                                              answers: Answers)
    returns (vs: seq<Value>, ws: seq<World>)
    requires EvalGenerate(fuel, c, done, pad, w, answers).Evaluated?
    ensures Generates(fuel, c, pad, answers, vs, ws) && |vs| > 0 && ws[0] == w
    ensures forall k :: 0 <= k < |vs| - 1 ==> !Interrupts(vs[k])
    ensures var o := EvalGenerate(fuel, c, done, pad, w, answers);
            && o.world == ws[|vs|]
            && Interrupts(vs[|vs| - 1])
            && o.value == if vs[|vs| - 1].Error? then vs[|vs| - 1] else DynamicList(done + vs[..|vs| - 1])
    decreases fuel
  {
    var o := EvalCall(fuel, c, None, pad, w, answers);
    if Interrupts(o.value) {
      vs, ws := [o.value], [w, o.world];
      assert done + vs[..0] == done;
    } else {
      var vs', ws' := GenerateTakesUntil(fuel - 1, c, done + [o.value], pad, o.world, answers);
      vs, ws := [o.value] + vs', [w] + ws';
      assert done + [o.value] + vs'[..|vs'| - 1] == done + vs[..|vs| - 1];
      forall k | 0 <= k < |vs|
        ensures Gives(fuel - k, c, None, pad, answers, ws[k], vs[k], ws[k + 1])
      {
        if k > 0 {
          assert Gives(fuel - 1 - (k - 1), c, None, pad, answers, ws'[k - 1], vs'[k - 1], ws'[k]);
        }
      }
    }
  }

  /** Such a chain of calls makes the operation evaluate, to that value in that world. */
  lemma {:induction false} GeneratedEvaluates(fuel: nat, c: Callable, done: seq<Value>, pad: nat, answers: Answers,
                                              vs: seq<Value>, ws: seq<World>)
    requires Generates(fuel, c, pad, answers, vs, ws) && |vs| > 0 && Interrupts(vs[|vs| - 1])
    requires forall k :: 0 <= k < |vs| - 1 ==> !Interrupts(vs[k])
    ensures var o := EvalGenerate(fuel, c, done, pad, ws[0], answers);
            && o.Evaluated? && o.world == ws[|vs|]
            && o.value == if vs[|vs| - 1].Error? then vs[|vs| - 1] else DynamicList(done + vs[..|vs| - 1])
    decreases fuel
  {
    assert Gives(fuel - 0, c, None, pad, answers, ws[0], vs[0], ws[1]);
    if |vs| == 1 {
      assert done + vs[..0] == done;
    } else {
      forall k | 0 <= k < |vs| - 1
        ensures Gives(fuel - 1 - k, c, None, pad, answers, ws[1..][k], vs[1..][k], ws[1..][k + 1])
      {
        assert Gives(fuel - (k + 1), c, None, pad, answers, ws[k + 1], vs[k + 1], ws[k + 1 + 1]);
      }
      GeneratedEvaluates(fuel - 1, c, done + [vs[0]], pad, answers, vs[1..], ws[1..]);
      assert done + [vs[0]] + vs[1..][..|vs| - 2] == done + vs[..|vs| - 1];
    }
  }

  /**
   `GenerateList` evaluates exactly when calling the callable again and again, each
   call in the world the one before left, comes to an interrupt or an error: the
   values before an interrupt are its list, and an error is its value.
   */
  lemma GenerateIsUntil(fuel: nat, c: Callable, pad: nat, w: World, answers: Answers, v: Value, w': World)
    ensures (exists n :: EvalGenerate(fuel, c, [], pad, w, answers) == Evaluated(v, w', n))
       <==> (exists vs, ws :: Until(fuel, c, pad, answers, vs, ws, w, v, w'))
  {
    if n :| EvalGenerate(fuel, c, [], pad, w, answers) == Evaluated(v, w', n) {
      var vs, ws := GenerateTakesUntil(fuel, c, [], pad, w, answers);
      assert [] + vs[..|vs| - 1] == vs[..|vs| - 1];
      assert Until(fuel, c, pad, answers, vs, ws, w, v, w');
    }
    if vs, ws :| Until(fuel, c, pad, answers, vs, ws, w, v, w') {
      GeneratedEvaluates(fuel, c, [], pad, answers, vs, ws);
      assert [] + vs[..|vs| - 1] == vs[..|vs| - 1];
      var o := EvalGenerate(fuel, c, [], pad, w, answers);
      assert o == Evaluated(v, w', o.steps);
    }
  }

  /** Calls from `w` to `w'`, the last one the first to interrupt, with the value they come to. */
  ghost predicate Until(fuel: nat, c: Callable, pad: nat, answers: Answers, vs: seq<Value>, ws: seq<World>,
                        w: World, v: Value, w': World)
  {
    && Generates(fuel, c, pad, answers, vs, ws) && |vs| > 0 && ws[0] == w && ws[|vs|] == w'
    && (forall k :: 0 <= k < |vs| - 1 ==> !Interrupts(vs[k]))
    && Interrupts(vs[|vs| - 1])
    && v == if vs[|vs| - 1].Error? then vs[|vs| - 1] else DynamicList(vs[..|vs| - 1])
  }
}
