/** The interpreter as objects updated in place, each method against the machine's functions. */
module InterpreterObjects {
  import opened Options
  import opened Octets
  import opened Values
  import opened Contexts
  import opened ReadOperations
  import opened Machine
  import opened ControlFlowObjects

  /** All pads of one program, by index. */
  class LexicalPads {
    var pads: seq<Pad>

    constructor (pads: seq<Pad>)
      ensures this.pads == pads
    {
      this.pads := pads;
    }

    method Get(i: nat, name: string) returns (v: Value)
      ensures v == PadGet(pads, i, name)
      decreases i
    {
      if i < |pads| && name in pads[i].names {
        v := pads[i].names[name];
      } else if i < |pads| && pads[i].parent.Some? && pads[i].parent.value < i {
        v := Get(pads[i].parent.value, name);
      } else {
        v := Error(NameError);
      }
    }

    method Set(i: nat, name: string, v: Value) returns (before: Value)
      modifies this
      ensures (pads, before) == PadSet(old(pads), i, name, v)
      decreases i
    {
      if i < |pads| && name in pads[i].names {
        before := pads[i].names[name];
        pads := pads[i := pads[i].(names := pads[i].names[name := v])];
      } else if i < |pads| && pads[i].parent.Some? && pads[i].parent.value < i {
        before := Set(pads[i].parent.value, name, v);
      } else {
        before := Error(NameError);
      }
    }

    method Initialize(i: nat, name: string, v: Value)
      modifies this
      ensures pads == PadInitialize(old(pads), i, name, v)
    {
      if i < |pads| && name !in pads[i].names {
        pads := pads[i := pads[i].(names := pads[i].names[name := v])];
      } else if i < |pads| {
        assert pads == pads[i := pads[i]];
      }
    }

    method InitializeGlobal(i: nat, name: string, v: Value)
      modifies this
      ensures pads == PadInitializeGlobal(old(pads), i, name, v)
      decreases i
    {
      if i < |pads| && pads[i].parent.Some? && pads[i].parent.value < i {
        InitializeGlobal(pads[i].parent.value, name, v);
      } else {
        Initialize(i, name, v);
      }
    }

    /** A new pad under `parent` with the arguments bound to the names. */
    method Push(names: seq<string>, args: seq<Value>, parent: nat) returns (i: nat)
      modifies this
      ensures i == |old(pads)| && pads == old(pads) + [Pad(Bind(names, args), Some(parent))]
    {
      var bound: map<string, Value> := map[];
      var k := 0;
      while k < |names|
        invariant 0 <= k <= |names| && bound == Bind(names[..k], args)
      {
        if k >= |args| {
          BindStops(names, args, k);
          break;
        }
        assert names[..k + 1][..k] == names[..k];
        bound := Insert(bound, names[k], args[k]);
        k := k + 1;
      }
      assert k == |names| ==> names[..k] == names;
      i := |pads|;
      pads := pads + [Pad(bound, Some(parent))];
    }
  }

  /** Names past the arguments bind nothing. */
  lemma {:induction false} BindStops(names: seq<string>, args: seq<Value>, k: nat)
    requires |args| <= k <= |names|
    ensures Bind(names, args) == Bind(names[..k], args)
    decreases |names|
  {
    if k < |names| {
      var shorter := names[..|names| - 1];
      BindStops(shorter, args, k);
      assert shorter[..k] == names[..k];
    } else {
      assert names[..k] == names;
    }
  }

  datatype State = Ready | Waiting | Exited | Broken(cause: Cause)

  class ContinuationObject {
    var frames: seq<Frame>
    const pad: nat
    var result: OperationResult

    constructor (tree: Node, pad: nat)
      ensures frames == [Fresh(tree, pad)] && this.pad == pad && result == Returned(Bool(false))
    {
      frames := [Fresh(tree, pad)];
      this.pad := pad;
      result := Returned(Bool(false));
    }

    ghost function View(): Continuation
      reads this
    {
      Continuation(frames, pad, result)
    }

    /** Push the frames of the missing children; `false` where the assert fails. */
    method PrepareStack() returns (ok: bool)
      requires frames != []
      modifies this`frames
      ensures match Prepare(ButLast(old(frames)), Last(old(frames)))
              case None => !ok
              case Some(all) => ok && frames == all
    {
      ghost var prepared := Prepare(ButLast(frames), Last(frames));
      while !ArgumentsReady(Last(frames).node, Last(frames).accumulator)
        invariant frames != [] && Prepare(ButLast(frames), Last(frames)) == prepared
        decreases Last(frames).node
      {
        var top := Last(frames);
        if |top.accumulator| >= |top.node.children| {
          return false;
        }
        assert ButLast(frames) + [top] == frames;
        frames := frames + [Fresh(top.node.children[|top.accumulator|], top.pad)];
      }
      assert ButLast(frames) + [Last(frames)] == frames;
      ok := true;
    }

    method PushBack(v: Value)
      requires frames != []
      modifies this`frames
      ensures frames == ButLast(old(frames)) + [Last(old(frames)).(accumulator := Last(old(frames)).accumulator + [v])]
    {
      frames := frames[|frames| - 1 := Last(frames).(accumulator := Last(frames).accumulator + [v])];
    }

    method SetContext(context: Context)
      requires frames != []
      modifies this`frames
      ensures frames == ButLast(old(frames)) + [Last(old(frames)).(context := context)]
    {
      frames := frames[|frames| - 1 := Last(frames).(context := context)];
    }

    /** Execute the top frame once it has its arguments. */
    method Step(scopes: LexicalPads) returns (state: State)
      modifies this`frames, this`result, scopes
      ensures var r := StepContinuation(old(View()), old(scopes.pads));
              state == r.state && (!state.Broken? ==> View() == r.c && scopes.pads == r.pads)
    {
      hide Execute;
      if frames == [] {
        return Exited;
      }
      var ok := PrepareStack();
      if !ok {
        return Broken(MissingChild);
      }
      var execution := ExecuteTop(scopes.pads);
      match execution
      case Stuck(cause) =>
        state := Broken(cause);
      case Blocked(reason, context) =>
        SetContext(context);
        result := Suspended(reason);
        state := Waiting;
      case Done(v, pads) =>
        scopes.pads := pads;
        result := Returned(v);
        frames := frames[..|frames| - 1];
        if frames == [] {
          state := Exited;
        } else {
          PushBack(v);
          state := Ready;
        }
    }

    /** `ExecutionStackFrame::execute`: a control-flow operation works on its own context. */
    method ExecuteTop(pads: seq<Pad>) returns (e: Execution)
      requires frames != []
      ensures e == Execute(Last(frames), pads)
    {
      var top := Last(frames);
      var op := top.node.op;
      if !ControlFlow(op) || !top.context.ControlFlowContext? || |top.accumulator| < Arity(op) {
        return Execute(top, pads);
      }
      var operation := new ControlFlowOperation(op, top.context);
      var r := operation.Call(top.accumulator);
      PadsPassThrough(op, top.context, top.accumulator, pads);
      match r
      case None => e := Stuck(Endless);
      case Some(Returned(v)) => e := Done(v, pads);
      case Some(Suspended(reason)) => e := Blocked(reason, operation.View());
    }

    /** The callable has returned `v`. */
    method SetCallableReturn(v: Value) returns (state: State)
      modifies this`frames, this`result
      ensures match ReturnTo(old(View()), v)
              case Raise(cause) => state == Broken(cause)
              case Ok(c) => state == Ready && View() == c
    {
      if frames == [] {
        return Broken(MissingFrame);
      }
      result := Returned(v);
      var top := Last(frames);
      if top.context.ControlFlowContext? {
        var operation := new ControlFlowOperation(top.node.op, top.context);
        operation.SetCallableReturn(v);
        SetContext(operation.View());
        assert ButLast(frames) == ButLast(old(frames));
      }
      var ok := PrepareStack();
      state := if ok then Ready else Broken(MissingChild);
    }
  }

  /** Control flow looks at no pad. */
  lemma PadsPassThrough(op: Operation, context: Context, args: seq<Value>, pads: seq<Pad>)
    requires ControlFlow(op) && |args| >= Arity(op) && context.ControlFlowContext?
    ensures var e := ExecuteControlFlow(op, context, args, []);
            ExecuteControlFlow(op, context, args, pads) == if e.Done? then e.(pads := pads) else e
    ensures ExecuteControlFlow(op, context, args, pads).Stuck? ==>
              ExecuteControlFlow(op, context, args, pads) == Stuck(Endless)
  {}

  /** The frames below, the last one handed `v`. */
  function Handed(frames: seq<Frame>, v: Value): seq<Frame>
    requires frames != []
  {
    ButLast(frames) + [Last(frames).(accumulator := Last(frames).accumulator + [v])]
  }

  /** The machine after a continuation for `c` was put on top of `all`. */
  function StackedConfig(all: seq<Continuation>, c: Callable, args: Option<seq<Value>>, pad: nat, w: World): Config
    requires c.names == [] || args.Some?
  {
    match Prepare([], Fresh(c.tree, |w.pads|))
    case None => Halted(MissingChild)
    case Some(callee) =>
      Running(all + [Continuation(callee, |w.pads|, Returned(Bool(false)))],
              w.(pads := w.pads + [CallPad(c, args, pad)]))
  }

  lemma CallIsStacked(below: seq<Continuation>, frames: seq<Frame>, top: Frame, pad: nat, context: Context, w: World)
    requires context.ControlFlowContext? && context.callable.Some? && ControlFlow(top.node.op)
    requires ArgumentList(top.node.op, context).Ok?
    requires context.callable.value.names == [] || ArgumentList(top.node.op, context).value.Some?
    ensures Call(below, frames, top, pad, context, w)
            == StackedConfig(below + [Continuation(frames + [top.(context := context.(callableInvoked := true))], pad,
                                                   Suspended(WaitingForCallableInvocation))],
                             context.callable.value, ArgumentList(top.node.op, context).value, pad, w)
  {
    var caller := Continuation(frames + [top.(context := context.(callableInvoked := true))], pad,
                               Suspended(WaitingForCallableInvocation));
    forall x: Continuation ensures below + [caller] + [x] == below + [caller, x] {}
  }

  /** The calls that cannot be made. */
  lemma CallIsRefused(below: seq<Continuation>, frames: seq<Frame>, top: Frame, pad: nat, context: Context, w: World)
    ensures !context.ControlFlowContext? || context.callable.None? || !ControlFlow(top.node.op) ==>
              Call(below, frames, top, pad, context, w) == Halted(NotCallable)
    ensures context.ControlFlowContext? && context.callable.Some? && ControlFlow(top.node.op) ==>
              var list := ArgumentList(top.node.op, context);
              && (list.Raise? ==> Call(below, frames, top, pad, context, w) == Halted(list.cause))
              && (list.Ok? && context.callable.value.names != [] && list.value.None? ==>
                    Call(below, frames, top, pad, context, w) == Halted(NullArgumentList))
  {}

  /** What `Continuation::step` reports, and the continuation and the pads it leaves. */
  datatype Stepped = Stepped(state: State, c: Continuation, pads: seq<Pad>)

  function StepContinuation(c: Continuation, pads: seq<Pad>): (r: Stepped)
    ensures r.state.Waiting? ==> r.c.frames != [] && r.c.result.Suspended?
  {
    if c.frames == [] then Stepped(Exited, c, pads)
    else match Prepare(ButLast(c.frames), Last(c.frames))
      case None => Stepped(Broken(MissingChild), c, pads)
      case Some(all) => StepPrepared(c, ButLast(all), Last(all), pads)
  }

  /** The top frame has its arguments. */
  function StepPrepared(c: Continuation, frames: seq<Frame>, top: Frame, pads: seq<Pad>): (r: Stepped)
    ensures r.state.Waiting? ==> r.c.frames != [] && r.c.result.Suspended?
  {
    match Execute(top, pads)
    case Stuck(cause) => Stepped(Broken(cause), c, pads)
    case Blocked(reason, context) =>
      Stepped(Waiting, Continuation(frames + [top.(context := context)], c.pad, Suspended(reason)), pads)
    case Done(v, pads') =>
      if frames == [] then Stepped(Exited, Continuation([], c.pad, Returned(v)), pads')
      else Stepped(Ready, Continuation(Handed(frames, v), c.pad, Returned(v)), pads')
  }

  /** What the interpreter makes of that. */
  function Resolved(below: seq<Continuation>, r: Stepped, w: World, answers: Answers): Config
    requires r.state.Waiting? ==> r.c.frames != [] && r.c.result.Suspended?
  {
    match r.state
    case Broken(cause) => Halted(cause)
    case Ready => Running(below + [r.c], w)
    case Exited => if r.c.result.Returned? then Deliver(below, [], r.c.pad, r.c.result.value, w)
      else Halted(MissingFrame)
    case Waiting =>
      var frames, top := ButLast(r.c.frames), Last(r.c.frames);
      if r.c.result.reason.WaitingForCallableInvocation? then Call(below, frames, top, r.c.pad, top.context, w)
      else Serve(below, frames, top, r.c.pad, r.c.result.reason, top.context, w, answers)
  }

  /** A blocked frame is served by its own operation and arguments, whatever context it had before. */
  lemma ContextReplaced(below: seq<Continuation>, frames: seq<Frame>, top: Frame, context: Context, pad: nat,
                        reason: Reason, w: World, answers: Answers)
    ensures Call(below, frames, top.(context := context), pad, context, w) == Call(below, frames, top, pad, context, w)
    ensures Serve(below, frames, top.(context := context), pad, reason, context, w, answers)
            == Serve(below, frames, top, pad, reason, context, w, answers)
  {
    assert forall c: Context :: top.(context := context).(context := c) == top.(context := c);
  }

  lemma StepOfPrepared(below: seq<Continuation>, c: Continuation, frames: seq<Frame>, top: Frame, w: World,
                       answers: Answers)
    ensures var r := StepPrepared(c, frames, top, w.pads);
            StepTop(below, frames, top, c.pad, w, answers) == Resolved(below, r, w.(pads := r.pads), answers)
  {
    match Execute(top, w.pads)
    case Stuck(_) =>
    case Done(_, _) =>
    case Blocked(reason, context) =>
      var blocked := frames + [top.(context := context)];
      assert ButLast(blocked) == frames && Last(blocked) == top.(context := context);
      assert w.(pads := w.pads) == w;
      ContextReplaced(below, frames, top, context, c.pad, reason, w, answers);
  }

  /** One step of a running machine, from its top continuation. */
  lemma StepOfTop(below: seq<Continuation>, c: Continuation, w: World, answers: Answers)
    ensures var r := StepContinuation(c, w.pads);
            Machine.Step(Running(below + [c], w), answers) == Resolved(below, r, w.(pads := r.pads), answers)
  {
    var all := below + [c];
    assert ButLast(all) == below && Last(all) == c;
    assert w.(pads := w.pads) == w;
    if c.frames != [] {
      match Prepare(ButLast(c.frames), Last(c.frames))
      case None =>
      case Some(prepared) => StepOfPrepared(below, c, ButLast(prepared), Last(prepared), w, answers);
    }
  }

  ghost function Views(cs: seq<ContinuationObject>): (r: seq<Continuation>)
    reads cs
    ensures |r| == |cs|
  {
    if cs == [] then [] else Views(ButLast(cs)) + [Last(cs).View()]
  }

  /** The interpreter with the runner's queues beside it. */
  class Interpreter {
    var continuationStack: seq<ContinuationObject>
    const scopes: LexicalPads
    var requests: seq<Request>
    var output: Bytes
    var input: seq<Bytes>
    const eof: bool
    var stopped: Option<Cause>

    ghost predicate Valid()
      reads this
    {
      && continuationStack != []
      && forall i, j :: 0 <= i < j < |continuationStack| ==> continuationStack[i] != continuationStack[j]
    }

    ghost function View(): Config
      reads this, continuationStack, scopes
    {
      if stopped.Some? then Halted(stopped.value)
      else Running(Views(continuationStack), World(scopes.pads, requests, output, input, eof))
    }

    constructor (tree: Node, scopes: LexicalPads, input: seq<Bytes>, eof: bool)
      ensures Valid() && fresh(continuationStack) && this.scopes == scopes
      ensures View() == Instance(tree, World(scopes.pads, [], [], input, eof))
    {
      var c := new ContinuationObject(tree, 0);
      continuationStack := [c];
      this.scopes := scopes;
      requests, output, stopped := [], [], None;
      this.input, this.eof := input, eof;
      new;
      assert ButLast(continuationStack) == [];
    }

    ghost function TheWorld(): World
      reads this, scopes
    {
      World(scopes.pads, requests, output, input, eof)
    }

    /** `Interpreter::step`, and the runner's answer when the interpreter comes back blocked. */
    method Step(answers: Answers)
      requires Valid() && stopped.None?
      modifies this, continuationStack, scopes
      ensures Valid() && View() == Machine.Step(old(View()), answers)
      ensures fresh(set c | c in continuationStack && c !in old(continuationStack))
    {
      hide Machine.Step;
      ghost var below, before, w := Views(ButLast(continuationStack)), Last(continuationStack).View(), TheWorld();
      StepOfTop(below, before, w, answers);
      var state := Last(continuationStack).Step(scopes);
      assert Views(ButLast(continuationStack)) == below;
      Resolve(state, answers);
    }

    /** What the step of the top continuation leads to. */
    method Resolve(state: State, answers: Answers)
      requires Valid() && stopped.None?
      requires state.Waiting? ==> Last(continuationStack).frames != [] && Last(continuationStack).result.Suspended?
      requires state.Exited? ==> Last(continuationStack).frames == []
      modifies this`continuationStack, this`stopped, this`requests, this`output, this`input, continuationStack, scopes
      ensures Valid() && fresh(set c | c in continuationStack && c !in old(continuationStack))
      ensures View() == old(Resolved(Views(ButLast(continuationStack)),
                                     Stepped(state, Last(continuationStack).View(), scopes.pads), TheWorld(), answers))
    {
      var c := Last(continuationStack);
      match state
      case Broken(cause) =>
        stopped := Some(cause);
      case Ready =>
      case Exited =>
        if !c.result.Returned? {
          stopped := Some(MissingFrame);
        } else if |continuationStack| > 1 {
          Leave(c.result.value);
        }
      case Waiting =>
        if c.result.reason.WaitingForCallableInvocation? {
          Enter();
        } else {
          Answer(c.result.reason, answers);
        }
    }

    /** The top continuation has its value: drop it and hand the value to the one below. */
    method Leave(v: Value)
      requires Valid() && stopped.None? && |continuationStack| > 1
      modifies this`continuationStack, this`stopped, continuationStack
      ensures Valid() && continuationStack == ButLast(old(continuationStack))
      ensures View() == Deliver(old(Views(ButLast(continuationStack))), [], 0, v, old(TheWorld()))
    {
      hide Prepare;
      continuationStack := continuationStack[..|continuationStack| - 1];
      var c := Last(continuationStack);
      ghost var below := Views(ButLast(continuationStack));
      var state := c.SetCallableReturn(v);
      assert Views(ButLast(continuationStack)) == below;
      if state.Broken? {
        stopped := Some(state.cause);
      }
    }

    /** A blocked invocation: mark it invoked and stack a continuation for its callable, unless it cannot be made. */
    method Enter()
      requires Valid() && stopped.None? && Last(continuationStack).frames != []
      modifies this`continuationStack, this`stopped, Last(continuationStack), scopes
      ensures Valid() && fresh(set c | c in continuationStack && c !in old(continuationStack))
      ensures View() == old(var c := Last(continuationStack);
                            Call(Views(ButLast(continuationStack)), ButLast(c.frames), Last(c.frames), c.pad,
                                 Last(c.frames).context, TheWorld()))
    {
      hide Prepare, Call, StackedConfig, ArgumentList;
      var c := Last(continuationStack);
      ghost var below, frames, w := Views(ButLast(continuationStack)), c.frames, TheWorld();
      var top := Last(c.frames);
      CallIsRefused(below, ButLast(frames), top, c.pad, top.context, w);
      if !top.context.ControlFlowContext? || top.context.callable.None? || !ControlFlow(top.node.op) {
        stopped := Some(NotCallable);
        return;
      }
      var callable := top.context.callable.value;
      var operation := new ControlFlowOperation(top.node.op, top.context);
      var list := operation.GetArgumentList();
      if list.Raise? {
        stopped := Some(list.cause);
        return;
      }
      if callable.names != [] && list.value.None? {
        stopped := Some(NullArgumentList);
        return;
      }
      CallIsStacked(below, ButLast(frames), top, c.pad, top.context, w);
      operation.SetCallableInvoked();
      c.SetContext(operation.View());
      c.result := Suspended(WaitingForCallableInvocation);
      assert Views(ButLast(continuationStack)) == below;
      StackCallee(callable, list.value);
    }

    /** Bind the arguments in a new pad, and put a continuation for the callable on top. */
    method StackCallee(callable: Callable, args: Option<seq<Value>>)
      requires Valid() && stopped.None? && (callable.names == [] || args.Some?)
      modifies this`continuationStack, this`stopped, scopes
      ensures Valid() && fresh(set c | c in continuationStack && c !in old(continuationStack))
      ensures View() == old(StackedConfig(Views(continuationStack), callable, args, Last(continuationStack).pad,
                                          TheWorld()))
    {
      hide Prepare, Bind;
      ghost var stack, views := continuationStack, Views(continuationStack);
      var i := scopes.Push(callable.names, if args.Some? then args.value else [],
                           if callable.inherits then Last(continuationStack).pad else 0);
      var callee := new ContinuationObject(callable.tree, i);
      assert ButLast(callee.frames) == [];
      var ok := callee.PrepareStack();
      continuationStack := continuationStack + [callee];
      assert ButLast(continuationStack) == stack && Views(stack) == views;
      if !ok {
        stopped := Some(MissingChild);
      }
    }

    /** The runner's answer to the other reasons. */
    method Answer(reason: Reason, answers: Answers)
      requires Valid() && stopped.None? && Last(continuationStack).frames != []
      requires Last(continuationStack).result == Suspended(reason)
      modifies this`requests, this`output, this`input, this`stopped, Last(continuationStack)
      ensures Valid()
      ensures View() == old(var c := Last(continuationStack);
                            Serve(Views(ButLast(continuationStack)), ButLast(c.frames), Last(c.frames), c.pad, reason,
                                  Last(c.frames).context, TheWorld(), answers))
    {
      hide HandleRead;
      var c := Last(continuationStack);
      ghost var below := Views(ButLast(continuationStack));
      var top := Last(c.frames);
      var context := top.context;
      if reason.WaitingForCallback? && context.CallbackContext? && top.node.op.UnaryCallback? {
        requests := requests + [Request(top.node.op.callbackKey, top.accumulator)];
        c.SetContext(context.(callbackCalled := true));
      } else if reason.WaitingCallbackData? && context.CallbackContext? {
        c.SetContext(context.(answer := Some(answers(requests))));
      } else if reason.WaitingForWrite? && context.InputOutputContext? && context.cursor <= |context.buffer| {
        if eof {
          c.SetContext(context.(eof := true));
        } else {
          output := output + context.buffer[context.cursor..];
          c.SetContext(context.(cursor := |context.buffer|));
        }
      } else if reason.WaitingForRead? && context.InputOutputContext? && Reads(top.node.op) {
        var handled := ReadChunks(top.node.op, context);
        match handled {
          case Starving => stopped := Some(Starved);
          case Spinning => stopped := Some(Endless);
          case Resumed(next, _) => c.SetContext(next);
        }
      } else {
        assert ButLast(c.frames) + [top] == c.frames;
      }
      assert Views(ButLast(continuationStack)) == below;
    }

    /** `handle_read` on the chunks queued: the first one, joined with more until the operation takes some. */
    method ReadChunks(op: Operation, context: Context) returns (r: Handled)
      requires Reads(op) && context.InputOutputContext?
      modifies this`input
      ensures r == HandleRead(op, context, old(input), eof)
      ensures r.Resumed? ==> input == r.queue
    {
      if input == [] {
        return if eof then Resumed(context.(eof := true), []) else Starving;
      }
      var held, ctx := input[0], context;
      input := input[1..];
      var fed := Feed(op, ctx, held);
      while fed.Took? && fed.consumed == 0 && input != []
        invariant ctx.InputOutputContext? && fed == Feed(op, ctx, held)
        invariant JoinChunks(op, ctx, held, input) == HandleRead(op, context, old(input), eof)
        decreases |input|
      {
        ctx, held, input := fed.ctx, held + input[0], input[1..];
        fed := Feed(op, ctx, held);
      }
      if fed.NeverReturns? {
        return Spinning;
      }
      if fed.consumed > 0 {
        input := if fed.consumed < |held| then [held[fed.consumed..]] + input else input;
        return Resumed(fed.ctx, input);
      }
      if ReadyToEvaluate(op, fed.ctx) {
        input := [held];
        return Resumed(fed.ctx, input);
      }
      return Starving;
    }
  }
}
