/** The operation that walks a state map, calling back in every state and on every transition. */
module StateMachine {
  import opened Options
  import opened Octets
  import opened Values
  import opened Contexts

  /** `_extract_arguments`: a missing argument is `false`. */
  function ExtractArguments(names: seq<string>, members: map<string, Value>): (args: seq<Value>)
    ensures |args| == |names|
    ensures forall i :: 0 <= i < |names| ==> args[i] == if names[i] in members then members[names[i]] else Bool(false)
  {
    if names == [] then []
    else [if names[0] in members then members[names[0]] else Bool(false)] + ExtractArguments(names[1..], members)
  }

  /** `_start_state_callback` */
  function StartState(ctx: Context, info: ProcessingInfo): Choice
    requires ctx.ControlFlowContext?
  {
    Invoke(ctx.(callable := Some(Callable(info.toState.1.tree, ["dictionary"], true)), value := None,
                info := Some(info.(mode := InState))))
  }

  /** `_start_transition_callback` */
  function StartTransition(ctx: Context, info: ProcessingInfo, t: TransitionInfo): Choice
    requires ctx.ControlFlowContext?
  {
    Invoke(ctx.(callable := Some(Callable(t.tree, t.argumentNames, true)), value := None,
                info := Some(info.(mode := InTransition))))
  }

  /** A state's callback returned: a message and its data, or the session's result in Closed. */
  function StateReturned(states: StateMap, ctx: Context, info: ProcessingInfo, v: Value): Choice
    requires ctx.ControlFlowContext?
  {
    match v
    case Error(_) => Return(v)
    case DynamicList(values) =>
      if |values| != 2 || !values[0].Text? || !values[1].Dictionary? then Return(Error(TypeError))
      else if info.toState.0 == "Closed" then Return(values[1])
      else
        var message := NameOf(values[0].data);
        if message !in info.toState.1.transitions then Return(Error(NameError))
        else
          var t := info.toState.1.transitions[message];
          if t.target !in states then Return(Error(NameError))
          else
            StartTransition(ctx.(accumulator := ExtractArguments(t.argumentNames, values[1].members)),
                            info.(fromState := Some(info.toState.0), transition := Some((message, t)),
                                  toState := (t.target, states[t.target])), t)
    case _ => Return(Error(TypeError))
  }

  /** A transition's callback returned: the dictionary for the next state. */
  function TransitionReturned(ctx: Context, info: ProcessingInfo, v: Value): Choice
    requires ctx.ControlFlowContext?
  {
    match v
    case Error(_) => Return(v)
    case DynamicList(values) =>
      if |values| != 1 then Return(Error(TypeError))
      else if values[0].Dictionary? then StartState(ctx.(accumulator := [values[0]]), info)
      else if values[0].Error? then Return(values[0])
      else Return(Error(TypeError))
    case _ => Return(Error(TypeError))
  }

  /** The first execution. */
  function Begin(states: StateMap, ctx: Context): (r: Choice)
    requires ctx.ControlFlowContext?
    ensures r.Invoke? ==> Calling(r.context)
    ensures !r.Never?
  {
    if "Open" !in states then Return(Error(NameError))
    else
      StartState(ctx.(accumulator := [Dictionary(map[])]),
                 ProcessingInfo(InTransition, None, None, ("Open", states["Open"])))
  }

  /** A later execution, once the callback has returned `v`. */
  function Advance(states: StateMap, ctx: Context, v: Value): (r: Choice)
    requires ctx.ControlFlowContext? && ctx.info.Some?
    ensures r.Invoke? ==> Calling(r.context) && r.context.callableInvoked == ctx.callableInvoked
    ensures !r.Never?
  {
    if ctx.info.value.mode.InState? then StateReturned(states, ctx, ctx.info.value, v)
    else if ctx.info.value.transition.None? then Return(Error(NameError))
    else TransitionReturned(ctx, ctx.info.value, v)
  }

  /** A callback is set up. */
  predicate Calling(ctx: Context) {
    ctx.ControlFlowContext? && ctx.callable.Some? && ctx.info.Some? && ctx.value.None?
  }

  // ----- whole runs -----

  /** Between calls: a callback is being called, or the operation returned. */
  datatype Phase = Active(ctx: Context) | Finished(result: Value)

  function PhaseOf(r: Choice): Phase {
    match r
    case Invoke(ctx) => Active(ctx)
    case Return(v) => Finished(v)
    case Never => Finished(Error(TypeError))
  }

  /** The context when the callback has returned. */
  function Answered(ctx: Context, v: Value): (r: Context)
    requires ctx.ControlFlowContext?
    ensures r.ControlFlowContext? && r.info == ctx.info
  {
    ctx.(value := Some(v), callableInvoked := true)
  }

  /** The run in which the callbacks returned `answers`, one after the other. */
  function After(states: StateMap, answers: seq<Value>): (p: Phase)
    ensures p.Active? ==> Calling(p.ctx)
  {
    if answers == [] then PhaseOf(Begin(states, FreshControlFlow))
    else match After(states, answers[..|answers| - 1])
      case Finished(v) => Finished(v)
      case Active(ctx) =>
        var v := answers[|answers| - 1];
        PhaseOf(Advance(states, Answered(ctx, v), v))
  }

  /** The states whose callbacks have been called, in order. */
  function Visited(states: StateMap, answers: seq<Value>): seq<string> {
    var earlier := if answers == [] then [] else Visited(states, answers[..|answers| - 1]);
    match After(states, answers)
    case Finished(_) => earlier
    case Active(ctx) => if ctx.info.value.mode.InState? then earlier + [ctx.info.value.toState.0] else earlier
  }

  /** Consecutive states are joined by transitions, and only the last can be Closed. */
  ghost predicate Path(states: StateMap, path: seq<string>) {
    && (forall i :: 0 <= i < |path| ==> path[i] in states)
    && (forall i :: 0 <= i < |path| - 1 ==> path[i] != "Closed" && Joined(states, path[i], path[i + 1]))
  }

  ghost predicate Joined(states: StateMap, a: string, b: string)
    requires a in states
  {
    exists m :: m in states[a].transitions && states[a].transitions[m].target == b
  }

  /** The arguments are the dictionary's values for these names, and `false` for those it lacks. */
  ghost predicate ArgumentsFrom(args: seq<Value>, names: seq<string>, data: map<string, Value>) {
    && |args| == |names|
    && forall i :: 0 <= i < |names| ==> args[i] == if names[i] in data then data[names[i]] else Bool(false)
  }

  predicate OneValue(answer: Value) {
    answer.DynamicList? && |answer.values| == 1
  }

  /** The answer of a transition's callback hands one dictionary on. */
  predicate HandsOn(answer: Value) {
    OneValue(answer) && answer.values[0].Dictionary?
  }

  /**
   What holds while callback number `n` is being called, `path` visited so far and
   `answer` the last answer: a state's callback gets the dictionary that was handed
   on, the first one an empty one, and a transition's the data that came with its
   message.
   */
  ghost predicate Orderly(states: StateMap, ctx: Context, n: nat, path: seq<string>, answer: Option<Value>) {
    && Calling(ctx) && path != [] && path[0] == "Open" && Path(states, path)
    && var info := ctx.info.value;
    && info.toState.0 in states && states[info.toState.0] == info.toState.1
    && var last := path[|path| - 1];
    if info.mode.InState? then
      && n % 2 == 0 && last == info.toState.0
      && ctx.callable.value == Callable(states[last].tree, ["dictionary"], true)
      && (n == 0 <==> answer.None?) && (answer.Some? ==> HandsOn(answer.value))
      && ctx.accumulator == [if answer.None? then Dictionary(map[]) else answer.value.values[0]]
    else
      && n % 2 == 1 && info.transition.Some? && last != "Closed"
      && var (message, t) := info.transition.value;
      && message in states[last].transitions && states[last].transitions[message] == t && t.target == info.toState.0
      && ctx.callable.value == Callable(t.tree, t.argumentNames, true)
      && answer.Some? && Chooses(answer.value) && NameOf(answer.value.values[0].data) == message
      && ArgumentsFrom(ctx.accumulator, t.argumentNames, answer.value.values[1].members)
  }

  /** The answer to the callback of a state sends its message and data on to a transition. */
  predicate Chooses(answer: Value) {
    answer.DynamicList? && |answer.values| == 2 && answer.values[0].Text? && answer.values[1].Dictionary?
  }

  /** The path with the state now called, if it is one. */
  function Longer(path: seq<string>, next: Context): seq<string>
    requires Calling(next)
  {
    if next.info.value.mode.InState? then path + [next.info.value.toState.0] else path
  }

  /** One more answer. */
  lemma AnswerKeepsOrder(states: StateMap, ctx: Context, n: nat, path: seq<string>, before: Option<Value>,
                         answer: Value)
    requires Orderly(states, ctx, n, path, before)
    ensures match PhaseOf(Advance(states, Answered(ctx, answer), answer))
            case Active(next) => Calling(next) && Orderly(states, next, n + 1, Longer(path, next), Some(answer))
            case Finished(v) =>
              v.Dictionary? <==> ctx.info.value.mode.InState? && path[|path| - 1] == "Closed"
                                 && Chooses(answer) && answer.values[1] == v
  {
    match Advance(states, Answered(ctx, answer), answer)
    case Return(_) =>
    case Never =>
    case Invoke(next) =>
      if next.info.value.mode.InState? {
        var last, state := path[|path| - 1], next.info.value.toState.0;
        var longer := path + [state];
        assert Joined(states, last, state);
        forall i | 0 <= i < |longer| - 1 ensures longer[i] != "Closed" && Joined(states, longer[i], longer[i + 1]) {
          if i < |path| - 1 {
            assert Joined(states, path[i], path[i + 1]);
          }
        }
      }
  }

  /**
   How the callbacks' answers end a run: with an error they return, with a type error
   for anything that is not the expected list, and with a name error exactly for a
   message the state lacks or one that leads nowhere.
   */
  lemma AnswerEnds(states: StateMap, ctx: Context, n: nat, path: seq<string>, before: Option<Value>, answer: Value)
    requires Orderly(states, ctx, n, path, before)
    ensures var p, inState := PhaseOf(Advance(states, Answered(ctx, answer), answer)), ctx.info.value.mode.InState?;
            var here := ctx.info.value.toState;
            && (answer.Error? ==> p == Finished(answer))
            && (!answer.Error? && inState && !Chooses(answer) ==> p == Finished(Error(TypeError)))
            && (!answer.Error? && !inState && !OneValue(answer) ==> p == Finished(Error(TypeError)))
            && (inState && Chooses(answer) && here.0 != "Closed" ==>
                  var offered := NameOf(answer.values[0].data) in here.1.transitions
                                 && here.1.transitions[NameOf(answer.values[0].data)].target in states;
                  if offered then p.Active? else p == Finished(Error(NameError)))
            && (!inState && OneValue(answer) ==>
                  if answer.values[0].Dictionary? then p.Active?
                  else p == Finished(if answer.values[0].Error? then answer.values[0] else Error(TypeError)))
  {}

  /** Every earlier point of the run was orderly: callbacks of states and of transitions took turns. */
  ghost predicate OrderlySoFar(states: StateMap, answers: seq<Value>, calls: nat) {
    forall n :: 0 <= n < calls <= |answers| + 1 ==> OrderlyAt(states, answers, n)
  }

  ghost predicate OrderlyAt(states: StateMap, answers: seq<Value>, n: nat)
    requires n <= |answers|
  {
    var p := After(states, answers[..n]);
    p.Active? && Orderly(states, p.ctx, n, Visited(states, answers[..n]), LastOf(answers[..n]))
  }

  function LastOf(answers: seq<Value>): Option<Value> {
    if answers == [] then None else Some(answers[|answers| - 1])
  }

  lemma EarlierOrderly(states: StateMap, before: seq<Value>, answers: seq<Value>, calls: nat)
    requires answers != [] && before == answers[..|answers| - 1]
    requires calls <= |before| + 1 && OrderlySoFar(states, before, calls)
    ensures OrderlySoFar(states, answers, calls)
  {
    forall n | 0 <= n < calls ensures OrderlyAt(states, answers, n) {
      assert OrderlyAt(states, before, n);
      assert before[..n] == answers[..n];
    }
  }

  /** Before any answer: the state called Open is being called, or there is none. */
  lemma FirstCall(states: StateMap)
    ensures Path(states, Visited(states, []))
    ensures match After(states, [])
            case Active(ctx) => Orderly(states, ctx, 0, Visited(states, []), None) && "Open" in states
            case Finished(v) => "Open" !in states && !v.Dictionary?
  {}

  /** An orderly run has come along a path from Open, and leaves Closed only with its result. */
  lemma OrderlyPath(states: StateMap, ctx: Context, n: nat, path: seq<string>, answer: Option<Value>)
    requires Orderly(states, ctx, n, path, answer)
    ensures path != [] && path[0] == "Open" && Path(states, path)
    ensures path[|path| - 1] == "Closed" ==> ctx.info.value.mode.InState?
  {}

  /** The run goes on in order, or ends with this answer. */
  lemma OneMoreAnswer(states: StateMap, before: seq<Value>, answers: seq<Value>, ctx: Context)
    requires answers != [] && before == answers[..|answers| - 1]
    requires After(states, before) == Active(ctx)
    requires Orderly(states, ctx, |before|, Visited(states, before), LastOf(before))
    ensures match After(states, answers)
            case Active(next) => Orderly(states, next, |answers|, Visited(states, answers), LastOf(answers))
            case Finished(v) =>
              && Visited(states, answers) == Visited(states, before)
              && (v.Dictionary? <==>
                    && ctx.info.value.mode.InState?
                    && Visited(states, before)[|Visited(states, before)| - 1] == "Closed"
                    && Chooses(answers[|answers| - 1]) && answers[|answers| - 1].values[1] == v)
  {
    AnswerKeepsOrder(states, ctx, |before|, Visited(states, before), LastOf(before), answers[|answers| - 1]);
    hide Advance, Orderly, Chooses;
  }

  /**
   Whatever the callbacks return, there is a number of calls, all of them made if
   the run has not finished, such that state and transition callbacks took turns,
   the states visited form a path from Open in the state map, every transition
   call had one argument per declared name, and a dictionary is the result only
   when the last call was to Closed and returned it. Every state callback got the
   dictionary handed on to it, and every transition callback its message's data.
   */
  lemma {:induction false} RunIsOrderly(states: StateMap, answers: seq<Value>) returns (calls: nat)
    ensures calls <= |answers| + 1 && OrderlySoFar(states, answers, calls)
    ensures After(states, answers).Active? <==> calls == |answers| + 1
    ensures var path := Visited(states, answers);
            Path(states, path) && (calls > 0 ==> path != [] && path[0] == "Open")
    ensures calls == 0 <==> "Open" !in states
    ensures match After(states, answers)
            case Active(_) => true
            case Finished(v) =>
              v.Dictionary? <==>
                && 0 < calls <= |answers| && Visited(states, answers)[|Visited(states, answers)| - 1] == "Closed"
                && Chooses(answers[calls - 1]) && answers[calls - 1].values[1] == v
    decreases |answers|
  {
    FirstCall(states);
    hide Advance, Begin, Path, Orderly, Chooses, Answered;
    assert answers[..|answers|] == answers;
    if answers == [] {
      calls := if "Open" in states then 1 else 0;
    } else {
      var before := answers[..|answers| - 1];
      calls := RunIsOrderly(states, before);
      EarlierOrderly(states, before, answers, calls);
      match After(states, before)
      case Finished(_) =>
        assert calls <= |before|;
        assert calls > 0 ==> before[calls - 1] == answers[calls - 1];
      case Active(ctx) =>
        assert OrderlyAt(states, before, |before|);
        assert before[..|before|] == before;
        OrderlyPath(states, ctx, |before|, Visited(states, before), LastOf(before));
        OneMoreAnswer(states, before, answers, ctx);
        if After(states, answers).Active? {
          calls := calls + 1;
          assert OrderlyAt(states, answers, |answers|);
          OrderlyPath(states, After(states, answers).ctx, |answers|, Visited(states, answers), LastOf(answers));
        }
    }
  }
}
