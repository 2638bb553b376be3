/** What one turn of a protocol does to a generated party and to the wire. */
module Turns {
  import opened Options
  import opened Octets
  import opened DataTypes
  import T = Translate
  import opened Values
  import opened Contexts
  import opened ReadOperations
  import opened Reading
  import opened StateMachine
  import opened Evaluator
  import Lookahead
  import opened Generation
  import opened Analysis
  import opened StateMaps
  import opened Recognition
  import opened Deployment
  import opened Sending
  import opened Descriptions
  import opened Receiving
  import opened ReadTransitions

  // ----- arguments -----

  function ArgumentFor(name: string, data: map<string, Value>): Value {
    if name in data then data[name] else Bool(false)
  }

  /** What a transition's callback knows: the data's value for each name, and `false` for a missing one. */
  function ArgumentsFor(names: seq<string>, data: map<string, Value>): map<string, Value> {
    map name | name in names :: ArgumentFor(name, data)
  }

  /** The same in the order of the names. */
  function ArgumentValues(names: seq<string>, data: map<string, Value>): seq<Value> {
    seq(|names|, i requires 0 <= i < |names| => ArgumentFor(names[i], data))
  }

  lemma {:induction false} BindArguments(names: seq<string>, args: seq<Value>, data: map<string, Value>)
    requires |names| <= |args| && forall i :: 0 <= i < |names| ==> args[i] == ArgumentFor(names[i], data)
    ensures Bind(names, args) == ArgumentsFor(names, data)
    decreases |names|
  {
    if names != [] {
      var front, last := names[..|names| - 1], names[|names| - 1];
      BindArguments(front, args, data);
      assert forall name :: name in names <==> name in front || name == last;
    }
  }

  // ----- where a party is -----

  /** The callback of state `s` is about to be called with this dictionary. */
  ghost predicate AtState(ctx: Context, states: Values.StateMap, s: string, dict: map<string, Value>) {
    && Calling(ctx) && s in states && ctx.info.value.mode.InState? && ctx.info.value.toState == (s, states[s])
    && ctx.callable.value == Callable(states[s].tree, ["dictionary"], true) && ctx.accumulator == [Dictionary(dict)]
  }

  /** The callback of a transition is about to be called with the arguments of this data. */
  ghost predicate OnTheWay(ctx: Context, states: Values.StateMap, t: Values.TransitionInfo, data: map<string, Value>) {
    && Calling(ctx) && t.target in states && ctx.info.value.mode.InTransition? && ctx.info.value.transition.Some?
    && ctx.info.value.toState == (t.target, states[t.target])
    && ctx.callable.value == Callable(t.tree, t.argumentNames, true)
    && ctx.accumulator == ArgumentValues(t.argumentNames, data)
  }

  /** The answer that takes a message. */
  function Choosing(message: string, data: map<string, Value>): Value {
    DynamicList([Text(OctetsOf(message)), Dictionary(data)])
  }

  /** A state's callback chose a message on offer: its transition's callback is next, with the message's data. */
  lemma ChoiceStarts(states: Values.StateMap, ctx: Context, s: string, dict: map<string, Value>, m: string,
                     data: map<string, Value>)
    requires AtState(ctx, states, s, dict) && s != "Closed" && IsOctets(m)
    requires m in states[s].transitions && states[s].transitions[m].target in states
    ensures var v := Choosing(m, data);
            var next := Advance(states, Answered(ctx, v), v);
            next.Invoke? && OnTheWay(next.context, states, states[s].transitions[m], data)
  {
    hide NameOf, OctetsOf, ExtractArguments;
    NameRoundTrip(m);
    var names := states[s].transitions[m].argumentNames;
    assert ExtractArguments(names, data) == ArgumentValues(names, data);
  }

  /** A transition's callback handed a dictionary on: its state's callback is next. */
  lemma HandingOn(states: Values.StateMap, ctx: Context, t: Values.TransitionInfo, data: map<string, Value>,
                  dict: map<string, Value>)
    requires OnTheWay(ctx, states, t, data)
    ensures var v := DynamicList([Dictionary(dict)]);
            var next := Advance(states, Answered(ctx, v), v);
            next.Invoke? && AtState(next.context, states, t.target, dict)
  {}

  /** The party goes on from state `s` with this dictionary, in world `w1`. */
  ghost predicate GoesOn(o: Outcome, fuel: nat, states: Values.StateMap, s: string, dict: map<string, Value>,
                         pad: nat, w1: World, answers: Answers)
  {
    exists ctx: Context, n: nat :: AtState(ctx, states, s, dict)
      && o == Later(n, EvalStates(fuel, states, ctx, pad, w1, answers))
  }

  /** Two calls, of a state's callback and of a transition's. */
  lemma TwoCalls(fuel: nat, states: Values.StateMap, ctx: Context, s: string, dict: map<string, Value>, m: string,
                 data: map<string, Value>, next: map<string, Value>, w1: World, w2: World, pad: nat, w: World,
                 answers: Answers)
    requires fuel > 1 && AtState(ctx, states, s, dict) && s != "Closed" && IsOctets(m)
    requires m in states[s].transitions && states[s].transitions[m].target in states
    requires var o := EvalCall(fuel, ctx.callable.value, Some(ctx.accumulator), pad, w, answers);
             o.Evaluated? && o.value == Choosing(m, data) && o.world == w1
    requires var t := states[s].transitions[m];
             var o := EvalCall(fuel - 1, Callable(t.tree, t.argumentNames, true),
                               Some(ArgumentValues(t.argumentNames, data)), pad, w1, answers);
             o.Evaluated? && o.value == DynamicList([Dictionary(next)]) && o.world == w2
    ensures GoesOn(EvalStates(fuel, states, ctx, pad, w, answers), fuel - 2, states, states[s].transitions[m].target,
                   next, pad, w2, answers)
  {
    hide EvalCall, Advance, ArgumentValues, OctetsOf;
    ChoiceStarts(states, ctx, s, dict, m, data);
    var t, v := states[s].transitions[m], Choosing(m, data);
    var ctx1 := Advance(states, Answered(ctx, v), v).context;
    var first := EvalCall(fuel, ctx.callable.value, Some(ctx.accumulator), pad, w, answers);
    assert EvalStates(fuel, states, ctx, pad, w, answers)
        == Later(1 + first.steps, EvalStates(fuel - 1, states, ctx1, pad, w1, answers));
    var v2 := DynamicList([Dictionary(next)]);
    HandingOn(states, ctx1, t, data, next);
    var ctx2 := Advance(states, Answered(ctx1, v2), v2).context;
    var second := EvalCall(fuel - 1, ctx1.callable.value, Some(ctx1.accumulator), pad, w1, answers);
    assert EvalStates(fuel - 1, states, ctx1, pad, w1, answers)
        == Later(1 + second.steps, EvalStates(fuel - 2, states, ctx2, pad, w2, answers));
    LaterLater(1 + first.steps, 1 + second.steps, EvalStates(fuel - 2, states, ctx2, pad, w2, answers));
  }

  lemma LaterLater(a: nat, b: nat, o: Outcome)
    ensures Later(a, Later(b, o)) == Later(a + b, o)
  {}

  // ----- what was generated -----

  ghost function AutomatonOf(protocol: Protocol, agentName: string): Agent
    requires AllTranslate(protocol, agentName)
  {
    AgentOf(protocol, TransitionsOf(protocol, agentName))
  }

  /** One party of a protocol, generated. */
  ghost predicate Built(protocol: Protocol, agentName: string, states: Values.StateMap) {
    AllTranslate(protocol, agentName) && BuiltFrom(states, AutomatonOf(protocol, agentName))
  }

  /** A message of the protocol in its generated state: its own tree, names and target. */
  lemma MessageGenerated(protocol: Protocol, agentName: string, states: Values.StateMap, m: string)
    requires Built(protocol, agentName, states) && m in protocol
    ensures protocol[m].whenState in states && protocol[m].thenState in states
    ensures var msg := protocol[m];
            var reading := msg.agent != agentName;
            var actions := if reading then T.ReadActions(msg.parts) else T.WriteActions(msg.parts);
            && actions.Some? && TransitionTree(reading, actions.value, msg.data.types).Some?
            && m in states[msg.whenState].transitions
            && states[msg.whenState].transitions[m]
               == Values.TransitionInfo(TransitionTree(reading, actions.value, msg.data.types).value, msg.data.names,
                                        msg.thenState)
  {
    hide TransitionTree, Generated;
    var s, automaton := protocol[m].whenState, AutomatonOf(protocol, agentName);
    assert s in StateNames(protocol) && protocol[m].thenState in StateNames(protocol);
    assert automaton[s][m] == Edge(TransitionOf(protocol[m], agentName).value, protocol[m].thenState);
    GeneratedInfo(states[s], s, automaton[s], m);
  }

  lemma GeneratedInfo(info: Values.StateInfo, s: string, state: State, m: string)
    requires Generated(info, s, state) && m in state
    ensures TreeOf(state[m].transition).Some?
    ensures m in info.transitions && info.transitions[m] == InfoOf(state[m])
  {
    hide TreeOf;
  }

  /** A state with a message of the agent's own asks the application; one with another's looks at the octets ahead. */
  lemma CallbackGenerated(protocol: Protocol, agentName: string, states: Values.StateMap, m: string)
    returns (rules: seq<Lookahead.Rule>)
    requires Built(protocol, agentName, states) && m in protocol && protocol[m].whenState != "Closed"
    ensures protocol[m].whenState in states && protocol[m].whenState in AutomatonOf(protocol, agentName)
    ensures var s := protocol[m].whenState;
            var state := AutomatonOf(protocol, agentName)[s];
            && m in state && state[m].target == protocol[m].thenState
            && if protocol[m].agent == agentName then states[s].tree == AskTree(s)
               else RulesFor(rules, state, state.Keys) && states[s].tree == ReadAheadTree(rules)
  {
    hide TreeOf, RulesFor, ReadAheadTree, AskTree;
    var s, automaton := protocol[m].whenState, AutomatonOf(protocol, agentName);
    assert s in StateNames(protocol);
    EdgeOf(protocol, agentName, s, m);
    rules := [];
    if protocol[m].agent == agentName {
      assert Writing(automaton[s]);
    } else {
      assert !Writing(automaton[s]);
      rules :| RulesFor(rules, automaton[s], automaton[s].Keys) && states[s].tree == ReadAheadTree(rules);
    }
  }

  // ----- the callbacks -----

  /** The world a state's callback runs in. */
  function StateWorld(dict: map<string, Value>, pad: nat, w: World): World {
    w.(pads := w.pads + [Pad(map["dictionary" := Dictionary(dict)], Some(pad))])
  }

  lemma StateCalled(fuel: nat, tree: Node, dict: map<string, Value>, pad: nat, w: World, answers: Answers)
    requires fuel > 0
    ensures EvalCall(fuel, Callable(tree, ["dictionary"], true), Some([Dictionary(dict)]), pad, w, answers)
         == Eval(fuel - 1, tree, |w.pads|, StateWorld(dict, pad, w), answers)
  {
    hide Eval;
    var c := Callable(tree, ["dictionary"], true);
    assert ["dictionary"][..0] == [];
    assert Bind(["dictionary"], [Dictionary(dict)])
        == Insert(Bind([], [Dictionary(dict)]), "dictionary", Dictionary(dict));
    assert CallPad(c, Some([Dictionary(dict)]), pad) == Pad(map["dictionary" := Dictionary(dict)], Some(pad));
  }

  /** The world a transition's callback runs in. */
  function TransitionWorld(names: seq<string>, data: map<string, Value>, pad: nat, w: World): World {
    w.(pads := w.pads + [Pad(ArgumentsFor(names, data), Some(pad))])
  }

  lemma TransitionCalled(fuel: nat, tree: Node, names: seq<string>, data: map<string, Value>, pad: nat, w: World,
                         answers: Answers)
    requires fuel > 0
    ensures EvalCall(fuel, Callable(tree, names, true), Some(ArgumentValues(names, data)), pad, w, answers)
         == Eval(fuel - 1, tree, |w.pads|, TransitionWorld(names, data, pad, w), answers)
  {
    hide Eval, Bind;
    BindArguments(names, ArgumentValues(names, data), data);
  }

  /** What a party has asked its application when it is in state `s`. */
  function Asking(w: World, s: string, dict: map<string, Value>): seq<Request> {
    w.requests + [Request(s, [Dictionary(dict)])]
  }

  /** The callback that asks: the application hears the state's name and dictionary, and its answer is the value. */
  lemma AskEvaluates(fuel: nat, s: string, dict: map<string, Value>, pad: nat, w: World, answers: Answers)
    ensures var o := Eval(fuel, AskTree(s), |w.pads|, StateWorld(dict, pad, w), answers);
            && o.Evaluated? && o.value == answers(Asking(w, s, dict))
            && o.world == StateWorld(dict, pad, w).(requests := Asking(w, s, dict))
  {
    var w1 := StateWorld(dict, pad, w);
    assert PadGet(w1.pads, |w.pads|, "dictionary") == Dictionary(dict);
    VariablePure(fuel, "dictionary", |w.pads|, w1, answers);
    EvalUnary(fuel, UnaryCallback(s), Node(LexicalPadGet("dictionary"), []), |w.pads|, w1, answers);
  }

  /** The callback that looks ahead: the message chosen, and the dictionary as it is. */
  lemma ReadAheadEvaluates(fuel: nat, rules: seq<Lookahead.Rule>, m: string, dict: map<string, Value>, pad: nat,
                           w: World, w1: World, answers: Answers)
    requires var o := FinishRead(TransitionLookahead(rules), StateWorld(dict, pad, w));
             o.Evaluated? && o.value == Text(OctetsOf(m)) && o.world == w1
    ensures var o := Eval(fuel, ReadAheadTree(rules), |w.pads|, StateWorld(dict, pad, w), answers);
            o.Evaluated? && o.value == Choosing(m, dict) && o.world == w1
  {
    hide FinishRead, Finish, OctetsOf;
    var w0, op := StateWorld(dict, pad, w), TransitionLookahead(rules);
    ReadLeaf(fuel, op, |w.pads|, w0, answers);
    assert w1.pads == w0.pads;
    VariablePure(fuel, "dictionary", |w.pads|, w1, answers);
    assert PadGet(w1.pads, |w.pads|, "dictionary") == Dictionary(dict);
    MakePair(fuel, Node(op, []), Node(LexicalPadGet("dictionary"), []), Text(OctetsOf(m)), Dictionary(dict), |w.pads|,
             w0, w1, answers);
  }

  /** A list of two values. */
  lemma MakePair(fuel: nat, first: Node, second: Node, a: Value, b: Value, pad: nat, w: World, w1: World,
                 answers: Answers)
    requires !Interrupts(a) && !Interrupts(b)
    requires var o := Eval(fuel, first, pad, w, answers); o.Evaluated? && o.value == a && o.world == w1
    requires Pure(Eval(fuel, second, pad, w1, answers), b, w1)
    ensures var o := Eval(fuel, Node(MakeList, [first, second]), pad, w, answers);
            o.Evaluated? && o.value == DynamicList([a, b]) && o.world == w1
  {
    hide Finish;
    var node := Node(MakeList, [first, second]);
    FinishPure(fuel, MakeList, [a, b], DynamicList([a, b]), pad, w1, answers);
    assert [] + [a] == [a] && [a] + [b] == [a, b];
    assert node.children[0] == first && node.children[1] == second;
    assert !ArgumentsReady(node, []) && !ArgumentsReady(node, [a]) && ArgumentsReady(node, [a, b]);
    assert EvalArguments(fuel, node, [a, b], pad, w1, answers) == Arguments([a, b], w1, 0);
    var second_ := Eval(fuel, second, pad, w1, answers);
    assert EvalArguments(fuel, node, [a], pad, w1, answers) == Arguments([a, b], w1, second_.steps);
  }

  // ----- one turn -----

  /** What the message says for this data. */
  function Says(msg: Message, data: map<string, Value>): Option<Bytes> {
    Spoken(msg.parts, msg.data.types, ArgumentsFor(msg.data.names, data))
  }

  /** The world after a turn in which the party wrote. */
  ghost predicate WroteTurn(w1: World, w: World, wire: Bytes, asked: seq<Request>) {
    w.pads <= w1.pads && w1 == w.(pads := w1.pads, output := w.output + wire, requests := asked)
  }

  /** The call of a transition's callback. */
  function TransitionOutcome(fuel: nat, tree: Node, names: seq<string>, data: map<string, Value>, pad: nat, w: World,
                             answers: Answers): Outcome
  {
    EvalCall(fuel, Callable(tree, names, true), Some(ArgumentValues(names, data)), pad, w, answers)
  }

  /** The call of the state's callback. */
  function StateOutcome(fuel: nat, tree: Node, dict: map<string, Value>, pad: nat, w: World, answers: Answers)
    : Outcome
  {
    EvalCall(fuel, Callable(tree, ["dictionary"], true), Some([Dictionary(dict)]), pad, w, answers)
  }

  /** The writer's transition. */
  lemma WriterCalled(fuel: nat, msg: Message, data: map<string, Value>, pad: nat, w: World, answers: Answers)
    requires fuel > 0 && T.WriteActions(msg.parts).Some? && Says(msg, data).Some? && !w.eof
    requires DepthOf(T.WriteActions(msg.parts).value) < fuel
    ensures TransitionTree(false, T.WriteActions(msg.parts).value, msg.data.types).Some?
    ensures var tree := TransitionTree(false, T.WriteActions(msg.parts).value, msg.data.types).value;
            var o := TransitionOutcome(fuel, tree, msg.data.names, data, pad, w, answers);
            && o.Evaluated? && o.value == DynamicList([Dictionary(ArgumentsFor(msg.data.names, data))])
            && WroteTurn(o.world, w, Says(msg, data).value, w.requests)
  {
    hide Eval, EvalCall, TransitionTree, Spoken, DepthOf;
    var env, w1 := ArgumentsFor(msg.data.names, data), TransitionWorld(msg.data.names, data, pad, w);
    OwnNames(w1.pads, |w.pads|);
    TreeSaysDescription(fuel - 1, msg.parts, msg.data.types, env, |w.pads|, w1, answers);
    var tree := TransitionTree(false, T.WriteActions(msg.parts).value, msg.data.types).value;
    TransitionCalled(fuel, tree, msg.data.names, data, pad, w, answers);
  }

  /** A pad shows its own names. */
  lemma OwnNames(pads: seq<Pad>, pad: nat)
    requires pad < |pads|
    ensures Shows(pads, pad, pads[pad].names)
  {}

  /** The state's callback of a writer. */
  lemma WriterAsked(fuel: nat, s: string, dict: map<string, Value>, pad: nat, w: World, answers: Answers)
    requires fuel > 0
    ensures var o := StateOutcome(fuel, AskTree(s), dict, pad, w, answers);
            && o.Evaluated? && o.value == answers(Asking(w, s, dict)) && w.pads <= o.world.pads
            && o.world == w.(pads := o.world.pads, requests := Asking(w, s, dict))
  {
    hide Eval, EvalCall, AskTree;
    StateCalled(fuel, AskTree(s), dict, pad, w, answers);
    AskEvaluates(fuel - 1, s, dict, pad, w, answers);
  }

  /**
   A turn of the party that writes: its application, asked with the state's name and
   dictionary, chooses one of its messages and its data; the party sends exactly what
   the message says for them, and goes on in the message's target state with the
   message's arguments as the dictionary.
   */
  lemma WriteTurn(fuel: nat, protocol: Protocol, agentName: string, states: Values.StateMap, m: string, ctx: Context,
                  dict: map<string, Value>, data: map<string, Value>, pad: nat, w: World, answers: Answers)
    returns (w1: World)
    requires Built(protocol, agentName, states) && m in protocol && IsOctets(m)
    requires protocol[m].agent == agentName && protocol[m].whenState != "Closed"
    requires AtState(ctx, states, protocol[m].whenState, dict)
    requires answers(Asking(w, protocol[m].whenState, dict)) == Choosing(m, data)
    requires Says(protocol[m], data).Some? && !w.eof
    requires T.WriteActions(protocol[m].parts).Some? && DepthOf(T.WriteActions(protocol[m].parts).value) + 1 < fuel
    ensures GoesOn(EvalStates(fuel, states, ctx, pad, w, answers), fuel - 2, states, protocol[m].thenState,
                   ArgumentsFor(protocol[m].data.names, data), pad, w1, answers)
    ensures WroteTurn(w1, w, Says(protocol[m], data).value, Asking(w, protocol[m].whenState, dict))
  {
    hide EvalCall, Eval, TransitionTree, GoesOn, ArgumentValues, Says, DepthOf, Asking, AskTree, Built,
      EvalStates;
    var msg := protocol[m];
    MessageGenerated(protocol, agentName, states, m);
    var rules := CallbackGenerated(protocol, agentName, states, m);
    WriterAsked(fuel, msg.whenState, dict, pad, w, answers);
    var asked := StateOutcome(fuel, AskTree(msg.whenState), dict, pad, w, answers).world;
    WriterCalled(fuel - 1, msg, data, pad, asked, answers);
    var t := states[msg.whenState].transitions[m];
    w1 := TransitionOutcome(fuel - 1, t.tree, msg.data.names, data, pad, asked, answers).world;
    TwoCalls(fuel, states, ctx, msg.whenState, dict, m, data, ArgumentsFor(msg.data.names, data), asked, w1, pad, w,
             answers);
  }

  // ----- reading -----

  /** The world after a turn in which the party read. */
  ghost predicate ReadTurnEnds(w1: World, w: World, left: Bytes) {
    && w.pads <= w1.pads && w1 == w.(pads := w1.pads, input := w1.input) && Concat(w1.input) == left
    && (|w.input| <= 1 ==> |w1.input| <= 1)
  }

  /** The octets ahead show this message: it has begun, or it leads to Closed and the connection has ended. */
  ghost predicate Ahead(state: State, m: string, w: World)
    requires m in state
  {
    if state[m].target == "Closed" then w.input == [] && w.eof else Begins(state[m], Concat(w.input), false)
  }

  /** At the end of file the message into Closed is the one chosen. */
  lemma ChoosesClosed(rules: seq<Lookahead.Rule>, state: State, m: string)
    requires RulesFor(rules, state, state.Keys) && m in state && state[m].target == "Closed"
    requires forall a :: a in state && Begins(state[a], [], true) ==> a == m
    ensures Lookahead.Decision(rules, [], true) == Lookahead.Chosen(m)
    ensures Lookahead.Decision(rules, [], false) == Lookahead.WaitingForRead
  {
    hide Lookahead.Decision;
    assert Begins(state[m], [], true);
    GeneratedRecognises(rules, state, [], true);
    GeneratedRecognises(rules, state, [], false);
    assert Begins(state[m], [] + [], true);
    assert MayBegin(state[m], []);
  }

  /** The lookahead gives the message that is ahead, and takes nothing. */
  lemma LookaheadReads(rules: seq<Lookahead.Rule>, state: State, m: string, w: World)
    requires RulesFor(rules, state, state.Keys) && Unambiguous(state) && m in state && Ahead(state, m, w)
    requires state[m].target == "Closed" ==> forall a :: a in state && Begins(state[a], [], true) ==> a == m
    ensures var o := FinishRead(TransitionLookahead(rules), w);
            && o.Evaluated? && o.value == Text(OctetsOf(m)) && o.world == w.(input := o.world.input)
            && Concat(o.world.input) == Concat(w.input) && (|w.input| <= 1 ==> |o.world.input| <= 1)
  {
    hide FinishRead, Concat, OctetsOf, Begins, Lookahead.Decision;
    var op := TransitionLookahead(rules);
    UnambiguousExclusive(rules, state);
    ReadIsDecided(op, w);
    if state[m].target == "Closed" {
      NothingThere(w.input);
      ChoosesClosed(rules, state, m);
    } else {
      ChoosesWhatBegins(rules, state, m, Concat(w.input));
      assert Concat(w.input)[0..] == Concat(w.input);
    }
    if |w.input| <= 1 { StaysWhole(op, w); }
  }

  lemma NothingThere(input: seq<Bytes>)
    requires input == []
    ensures Concat(input) == []
  {}

  /** The message's texts, for this reader and with `rest` behind the message. */
  ghost predicate Readable(msg: Message, texts: Texts, dict: map<string, Value>, w: World, rest: Bytes)
    requires T.ReadActions(msg.parts).Some?
  {
    var actions, types := T.ReadActions(msg.parts).value, msg.data.types;
    && Textual(actions, types) && SafeTexts(actions, 0, types, texts, rest) && Arrived(actions, w)
    && Bound(actions, ArgumentsFor(msg.data.names, dict))
    && Concat(w.input) == WireFrom(actions, 0, types, texts) + rest
  }

  /** The dictionary with the message's texts filled in. */
  function FilledIn(msg: Message, texts: Texts, dict: map<string, Value>): map<string, Value>
    requires T.ReadActions(msg.parts).Some?
  {
    FilledFrom(ArgumentsFor(msg.data.names, dict), T.ReadActions(msg.parts).value, 0, texts)
  }

  /** The reader's transition. */
  lemma ReaderCalled(fuel: nat, msg: Message, texts: Texts, dict: map<string, Value>, rest: Bytes, pad: nat, w: World,
                     answers: Answers)
    requires fuel > 0 && T.ReadActions(msg.parts).Some? && Readable(msg, texts, dict, w, rest)
    ensures TransitionTree(true, T.ReadActions(msg.parts).value, msg.data.types).Some?
    ensures var tree := TransitionTree(true, T.ReadActions(msg.parts).value, msg.data.types).value;
            var o := TransitionOutcome(fuel, tree, msg.data.names, dict, pad, w, answers);
            && o.Evaluated? && o.value == DynamicList([Dictionary(FilledIn(msg, texts, dict))])
            && ReadTurnEnds(o.world, w, rest)
  {
    hide Eval, EvalCall, TransitionTree, SafeTexts, Bound, Textual, FilledFrom, Concat, WireFrom;
    var actions, w1 := T.ReadActions(msg.parts).value, TransitionWorld(msg.data.names, dict, pad, w);
    assert w1.pads[|w.pads|].names == ArgumentsFor(msg.data.names, dict);
    TransitionTreeReads(fuel - 1, actions, msg.data.types, texts, |w.pads|, w1, rest, answers);
    var tree := TransitionTree(true, actions, msg.data.types).value;
    TransitionCalled(fuel, tree, msg.data.names, dict, pad, w, answers);
  }

  /** The state's callback of a reader. */
  lemma ReaderLooks(fuel: nat, rules: seq<Lookahead.Rule>, state: State, m: string, dict: map<string, Value>,
                    pad: nat, w: World, answers: Answers)
    requires fuel > 0 && RulesFor(rules, state, state.Keys) && Unambiguous(state) && m in state && Ahead(state, m, w)
    requires state[m].target == "Closed" ==> forall a :: a in state && Begins(state[a], [], true) ==> a == m
    ensures var o := StateOutcome(fuel, ReadAheadTree(rules), dict, pad, w, answers);
            && o.Evaluated? && o.value == Choosing(m, dict) && ReadTurnEnds(o.world, w, Concat(w.input))
  {
    hide Eval, EvalCall, ReadAheadTree, FinishRead, Begins, Concat, Unambiguous, OctetsOf;
    var w0 := StateWorld(dict, pad, w);
    LookaheadReads(rules, state, m, w0);
    StateCalled(fuel, ReadAheadTree(rules), dict, pad, w, answers);
    ReadAheadEvaluates(fuel - 1, rules, m, dict, pad, w, FinishRead(TransitionLookahead(rules), w0).world, answers);
  }

  /** What a reading state asks of the octets, and of its messages, to take this one. */
  ghost predicate Recognised(protocol: Protocol, agentName: string, m: string, w: World)
    requires AllTranslate(protocol, agentName) && m in protocol
  {
    var s := protocol[m].whenState;
    && s in AutomatonOf(protocol, agentName) && m in AutomatonOf(protocol, agentName)[s]
    && var state := AutomatonOf(protocol, agentName)[s];
    && Unambiguous(state) && Ahead(state, m, w)
    && (state[m].target == "Closed" ==> forall a :: a in state && Begins(state[a], [], true) ==> a == m)
  }

  lemma ReadableAfter(msg: Message, texts: Texts, dict: map<string, Value>, w: World, w1: World, rest: Bytes)
    requires T.ReadActions(msg.parts).Some? && Readable(msg, texts, dict, w, rest)
    requires ReadTurnEnds(w1, w, Concat(w.input))
    ensures Readable(msg, texts, dict, w1, rest)
  {}

  lemma ReadTurnTwice(w2: World, w1: World, w: World, between: Bytes, left: Bytes)
    requires ReadTurnEnds(w1, w, between) && ReadTurnEnds(w2, w1, left)
    ensures ReadTurnEnds(w2, w, left)
  {}

  /**
   A turn of the party that reads: it recognises the message ahead, takes exactly its
   octets, and goes on in the message's target state with the message's texts filled
   in among its arguments, which it had from the dictionary.
   */
  lemma ReadTurn(fuel: nat, protocol: Protocol, agentName: string, states: Values.StateMap, m: string, ctx: Context,
                 dict: map<string, Value>, texts: Texts, rest: Bytes, pad: nat, w: World, answers: Answers)
    returns (w1: World)
    requires Built(protocol, agentName, states) && m in protocol && IsOctets(m) && fuel > 1
    requires protocol[m].agent != agentName && protocol[m].whenState != "Closed"
    requires AtState(ctx, states, protocol[m].whenState, dict)
    requires Recognised(protocol, agentName, m, w)
    requires T.ReadActions(protocol[m].parts).Some? && Readable(protocol[m], texts, dict, w, rest)
    ensures GoesOn(EvalStates(fuel, states, ctx, pad, w, answers), fuel - 2, states, protocol[m].thenState,
                   FilledIn(protocol[m], texts, dict), pad, w1, answers)
    ensures ReadTurnEnds(w1, w, rest)
  {
    hide EvalCall, Eval, TransitionTree, GoesOn, ArgumentValues, ReadAheadTree, BuiltFrom, EvalStates, RulesFor,
      Readable, FilledIn, ReadTurnEnds, Concat, Unambiguous, Begins, Ahead;
    var msg := protocol[m];
    MessageGenerated(protocol, agentName, states, m);
    var rules := CallbackGenerated(protocol, agentName, states, m);
    var state := AutomatonOf(protocol, agentName)[msg.whenState];
    ReaderLooks(fuel, rules, state, m, dict, pad, w, answers);
    var looked := StateOutcome(fuel, ReadAheadTree(rules), dict, pad, w, answers).world;
    ReadableAfter(msg, texts, dict, w, looked, rest);
    ReaderCalled(fuel - 1, msg, texts, dict, rest, pad, looked, answers);
    var t := states[msg.whenState].transitions[m];
    w1 := TransitionOutcome(fuel - 1, t.tree, msg.data.names, dict, pad, looked, answers).world;
    ReadTurnTwice(w1, looked, w, Concat(w.input), rest);
    TwoCalls(fuel, states, ctx, msg.whenState, dict, m, dict, FilledIn(msg, texts, dict), looked, w1, pad, w, answers);
  }
}
