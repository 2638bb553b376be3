/** Whole conversations of generated programs, from their first message to their exit. */
module Conversations {
  import opened Options
  import opened Octets
  import opened DataTypes
  import T = Translate
  import opened Values
  import opened Contexts
  import opened StateMachine
  import opened Evaluator
  import opened Machine
  import opened Adequacy
  import opened Generation
  import opened Analysis
  import opened Recognition
  import opened StateMaps
  import opened Deployment
  import opened Sending
  import opened Descriptions
  import opened ReadTransitions
  import opened Turns

  // ----- scripts -----

  /** One message of a conversation: the data its writer's application gives, and the texts in it. */
  datatype Turn = Turn(message: string, data: map<string, Value>, texts: Texts)

  /** Where a party is: its state and dictionary, what it has asked, and the octets it has still to read. */
  datatype Standing = Standing(state: string, dict: map<string, Value>, asked: seq<Request>, unread: Bytes)

  function Utterance(protocol: Protocol, turn: Turn): Bytes {
    if turn.message in protocol && Says(protocol[turn.message], turn.data).Some?
    then Says(protocol[turn.message], turn.data).value else []
  }

  predicate Own(protocol: Protocol, agentName: string, turn: Turn) {
    turn.message in protocol && protocol[turn.message].agent == agentName
  }

  /** Octets that hold the message's texts read back, with what is behind them. */
  ghost predicate Legible(msg: Message, turn: Turn, at: Standing, whole: bool, rest: Bytes)
    requires T.ReadActions(msg.parts).Some?
  {
    var actions, types := T.ReadActions(msg.parts).value, msg.data.types;
    && Textual(actions, types) && Holding(actions, types, ArgumentsFor(msg.data.names, turn.data), turn.texts)
    && SafeTexts(actions, 0, types, turn.texts, rest) && (Unescaped(actions) || whole)
    && Bound(actions, ArgumentsFor(msg.data.names, at.dict))
  }

  /** The party can take the turn: its application chooses the message, or its octets are the next to be read. */
  ghost predicate Takes(protocol: Protocol, agentName: string, turn: Turn, at: Standing, whole: bool,
                        answers: Answers)
    requires AllTranslate(protocol, agentName)
  {
    var m, wire := turn.message, Utterance(protocol, turn);
    && m in protocol && IsOctets(m) && protocol[m].whenState == at.state != "Closed"
    && Says(protocol[m], turn.data).Some? && T.WriteActions(protocol[m].parts).Some?
    && if Own(protocol, agentName, turn)
       then answers(at.asked + [Request(at.state, [Dictionary(at.dict)])]) == Choosing(m, turn.data)
       else
         && wire <= at.unread && T.ReadActions(protocol[m].parts).Some?
         && Legible(protocol[m], turn, at, whole, at.unread[|wire|..])
         && Heralded(protocol, agentName, m, at.unread)
  }

  /** The octets show the message, and no two messages of its state begin alike. */
  ghost predicate Heralded(protocol: Protocol, agentName: string, m: string, unread: Bytes)
    requires AllTranslate(protocol, agentName) && m in protocol
  {
    var s := protocol[m].whenState;
    && protocol[m].thenState != "Closed"
    && s in AutomatonOf(protocol, agentName) && m in AutomatonOf(protocol, agentName)[s]
    && Unambiguous(AutomatonOf(protocol, agentName)[s])
    && Begins(AutomatonOf(protocol, agentName)[s][m], unread, false)
  }

  /** Where the party is after a turn. */
  ghost function Next(protocol: Protocol, agentName: string, turn: Turn, at: Standing, whole: bool, answers: Answers)
    : Standing
    requires AllTranslate(protocol, agentName) && Takes(protocol, agentName, turn, at, whole, answers)
  {
    var msg := protocol[turn.message];
    if Own(protocol, agentName, turn)
    then Standing(msg.thenState, ArgumentsFor(msg.data.names, turn.data),
                  at.asked + [Request(at.state, [Dictionary(at.dict)])], at.unread)
    else Standing(msg.thenState, FilledIn(msg, turn.texts, at.dict), at.asked, at.unread[|Utterance(protocol, turn)|..])
  }

  /** The party can take all turns, one after the other. */
  ghost predicate Converses(protocol: Protocol, agentName: string, script: seq<Turn>, at: Standing, whole: bool,
                            answers: Answers)
    requires AllTranslate(protocol, agentName)
    decreases |script|
  {
    script != [] ==>
      && Takes(protocol, agentName, script[0], at, whole, answers)
      && Converses(protocol, agentName, script[1..], Next(protocol, agentName, script[0], at, whole, answers), whole,
                   answers)
  }

  ghost function Afterwards(protocol: Protocol, agentName: string, script: seq<Turn>, at: Standing, whole: bool,
                            answers: Answers): Standing
    requires AllTranslate(protocol, agentName) && Converses(protocol, agentName, script, at, whole, answers)
    decreases |script|
  {
    if script == [] then at
    else Afterwards(protocol, agentName, script[1..], Next(protocol, agentName, script[0], at, whole, answers), whole,
                    answers)
  }

  /** The octets of the agent's own messages, and of all others. */
  function Uttered(protocol: Protocol, agentName: string, script: seq<Turn>): Bytes {
    if script == [] then []
    else (if Own(protocol, agentName, script[0]) then Utterance(protocol, script[0]) else [])
         + Uttered(protocol, agentName, script[1..])
  }

  function Heard(protocol: Protocol, agentName: string, script: seq<Turn>): Bytes {
    if script == [] then []
    else (if Own(protocol, agentName, script[0]) then [] else Utterance(protocol, script[0]))
         + Heard(protocol, agentName, script[1..])
  }

  /** What a message says is what its reader's actions are waiting for. */
  lemma SaidIsWire(msg: Message, turn: Turn)
    requires T.ReadActions(msg.parts).Some? && T.WriteActions(msg.parts).Some?
    requires var actions := T.ReadActions(msg.parts).value;
             && Textual(actions, msg.data.types)
             && Holding(actions, msg.data.types, ArgumentsFor(msg.data.names, turn.data), turn.texts)
    ensures Says(msg, turn.data)
         == Some(WireFrom(T.ReadActions(msg.parts).value, 0, msg.data.types, turn.texts))
  {
    hide Spoken, SentAll, WireFrom, Textual, Holding;
    var actions, env := T.ReadActions(msg.parts).value, ArgumentsFor(msg.data.names, turn.data);
    T.ReadWriteDual(msg.parts);
    WriterSaysDescription(msg.parts, msg.data.types, env);
    assert actions[0..] == actions;
    WireIsSent(actions, 0, msg.data.types, env, turn.texts);
  }

  /** The world agrees with where the party is. */
  ghost predicate Agrees(w: World, at: Standing, whole: bool) {
    w.requests == at.asked && Concat(w.input) == at.unread && !w.eof && (whole ==> |w.input| <= 1)
  }

  /** What a turn, or several, left of the world. */
  ghost predicate Left(w1: World, w: World, at: Standing, whole: bool, wire: Bytes) {
    Agrees(w1, at, whole) && w.pads <= w1.pads && w1.output == w.output + wire
  }

  /** One turn, of either kind. */
  lemma TurnTaken(fuel: nat, protocol: Protocol, agentName: string, states: Values.StateMap, turn: Turn, ctx: Context,
                  at: Standing, whole: bool, pad: nat, w: World, answers: Answers) returns (w1: World)
    requires Built(protocol, agentName, states) && Takes(protocol, agentName, turn, at, whole, answers)
    requires AtState(ctx, states, at.state, at.dict) && Agrees(w, at, whole)
    requires fuel > 1
    requires Own(protocol, agentName, turn) ==>
               DepthOf(T.WriteActions(protocol[turn.message].parts).value) + 1 < fuel
    ensures var next := Next(protocol, agentName, turn, at, whole, answers);
            && GoesOn(EvalStates(fuel, states, ctx, pad, w, answers), fuel - 2, states, next.state, next.dict, pad, w1,
                      answers)
            && Left(w1, w, next, whole, if Own(protocol, agentName, turn) then Utterance(protocol, turn) else [])
  {
    hide EvalStates, GoesOn, BuiltFrom, AtState, Begins, Unambiguous, Concat, Says, DepthOf, SafeTexts, WireFrom,
      Textual, Holding, Bound, FilledIn;
    var m, msg := turn.message, protocol[turn.message];
    if Own(protocol, agentName, turn) {
      w1 := WriteTurn(fuel, protocol, agentName, states, m, ctx, at.dict, turn.data, pad, w, answers);
    } else {
      SaidIsWire(msg, turn);
      var rest := at.unread[|Utterance(protocol, turn)|..];
      assert at.unread == Utterance(protocol, turn) + rest;
      var rules := CallbackGenerated(protocol, agentName, states, m);
      w1 := ReadTurn(fuel, protocol, agentName, states, m, ctx, at.dict, turn.texts, rest, pad, w, answers);
      assert w.output + [] == w.output;
    }
  }

  lemma GoesOnTwice(o: Outcome, f: nat, g: nat, states: Values.StateMap, s: string, dict: map<string, Value>, pad: nat,
                    ctx: Context, n: nat, w1: World, t: string, next: map<string, Value>, w2: World, answers: Answers)
    requires AtState(ctx, states, s, dict) && o == Later(n, EvalStates(f, states, ctx, pad, w1, answers))
    requires GoesOn(EvalStates(f, states, ctx, pad, w1, answers), g, states, t, next, pad, w2, answers)
    ensures GoesOn(o, g, states, t, next, pad, w2, answers)
  {
    hide EvalStates;
    var ctx2: Context, k: nat :| AtState(ctx2, states, t, next)
      && EvalStates(f, states, ctx, pad, w1, answers) == Later(k, EvalStates(g, states, ctx2, pad, w2, answers));
    LaterLater(n, k, EvalStates(g, states, ctx2, pad, w2, answers));
    assert o == Later(n + k, EvalStates(g, states, ctx2, pad, w2, answers));
  }

  lemma LeftTwice(w2: World, w1: World, w: World, at: Standing, next: Standing, whole: bool, a: Bytes, b: Bytes)
    requires Left(w1, w, at, whole, a) && Left(w2, w1, next, whole, b)
    ensures Left(w2, w, next, whole, a + b)
  {}

  /** Loops of the agent's own messages are nested at most so deep. */
  ghost predicate Shallow(protocol: Protocol, agentName: string, depth: nat) {
    forall m :: m in protocol && protocol[m].agent == agentName && T.WriteActions(protocol[m].parts).Some? ==>
      DepthOf(T.WriteActions(protocol[m].parts).value) <= depth
  }

  /**
   A conversation, by one party: it takes all turns of the script, having sent just
   what its own messages say, in order, and read just what the others' say.
   */
  lemma {:induction false} PartyConverses(fuel: nat, depth: nat, protocol: Protocol, agentName: string,
                                          states: Values.StateMap, script: seq<Turn>, ctx: Context, at: Standing,
                                          whole: bool, pad: nat, w: World, answers: Answers) returns (w1: World)
    requires Built(protocol, agentName, states) && Converses(protocol, agentName, script, at, whole, answers)
    requires Shallow(protocol, agentName, depth) && fuel >= 2 * |script| + depth
    requires AtState(ctx, states, at.state, at.dict) && Agrees(w, at, whole)
    ensures var end := Afterwards(protocol, agentName, script, at, whole, answers);
            && GoesOn(EvalStates(fuel, states, ctx, pad, w, answers), fuel - 2 * |script|, states, end.state, end.dict,
                      pad, w1, answers)
            && Left(w1, w, end, whole, Uttered(protocol, agentName, script))
            && at.unread == Heard(protocol, agentName, script) + end.unread
    decreases |script|
  {
    hide EvalStates, BuiltFrom, Agrees, Left, Takes, Shallow, GoesOn, Next, Own, Utterance;
    if script == [] {
      w1 := w;
      Stays(fuel, states, ctx, at, whole, pad, w, answers);
      assert [] + at.unread == at.unread;
    } else {
      var turn := script[0];
      var next := Next(protocol, agentName, turn, at, whole, answers);
      var wire := if Own(protocol, agentName, turn) then Utterance(protocol, turn) else [];
      var first, ctx1, n := FirstTurn(fuel, depth, protocol, agentName, states, turn, ctx, at, whole, pad, w, answers);
      w1 := PartyConverses(fuel - 2, depth, protocol, agentName, states, script[1..], ctx1, next, whole, pad, first,
                           answers);
      var end := Afterwards(protocol, agentName, script, at, whole, answers);
      GoesOnTwice(EvalStates(fuel, states, ctx, pad, w, answers), fuel - 2, fuel - 2 * |script|, states, next.state,
                  next.dict, pad, ctx1, n, first, end.state, end.dict, w1, answers);
      LeftTwice(w1, first, w, next, end, whole, wire, Uttered(protocol, agentName, script[1..]));
      HeardOn(protocol, agentName, turn, at, whole, answers, Heard(protocol, agentName, script[1..]), end.unread);
    }
  }

  /** The first turn, with the fuel of a script. */
  lemma FirstTurn(fuel: nat, depth: nat, protocol: Protocol, agentName: string, states: Values.StateMap, turn: Turn,
                  ctx: Context, at: Standing, whole: bool, pad: nat, w: World, answers: Answers)
    returns (w1: World, ctx1: Context, n: nat)
    requires Built(protocol, agentName, states) && Takes(protocol, agentName, turn, at, whole, answers)
    requires Shallow(protocol, agentName, depth) && fuel >= 2 + depth
    requires AtState(ctx, states, at.state, at.dict) && Agrees(w, at, whole)
    ensures var next := Next(protocol, agentName, turn, at, whole, answers);
            && AtState(ctx1, states, next.state, next.dict) && Agrees(w1, next, whole)
            && EvalStates(fuel, states, ctx, pad, w, answers)
               == Later(n, EvalStates(fuel - 2, states, ctx1, pad, w1, answers))
            && Left(w1, w, next, whole, if Own(protocol, agentName, turn) then Utterance(protocol, turn) else [])
  {
    hide EvalStates, BuiltFrom, Left, Legible, Heralded, Says, DepthOf, GoesOn;
    var next := Next(protocol, agentName, turn, at, whole, answers);
    w1 := TurnTaken(fuel, protocol, agentName, states, turn, ctx, at, whole, pad, w, answers);
    ctx1, n := GoingOn(EvalStates(fuel, states, ctx, pad, w, answers), fuel - 2, states, next.state, next.dict, pad,
                       w1, answers);
    LeftAgrees(w1, w, next, whole, if Own(protocol, agentName, turn) then Utterance(protocol, turn) else []);
  }

  lemma Stays(fuel: nat, states: Values.StateMap, ctx: Context, at: Standing, whole: bool, pad: nat, w: World,
              answers: Answers)
    requires AtState(ctx, states, at.state, at.dict) && Agrees(w, at, whole)
    ensures GoesOn(EvalStates(fuel, states, ctx, pad, w, answers), fuel, states, at.state, at.dict, pad, w, answers)
    ensures Left(w, w, at, whole, [])
  {
    hide EvalStates;
    var o := EvalStates(fuel, states, ctx, pad, w, answers);
    assert o == Later(0, o);
    assert w.output + [] == w.output;
  }

  lemma GoingOn(o: Outcome, fuel: nat, states: Values.StateMap, s: string, dict: map<string, Value>, pad: nat,
                w1: World, answers: Answers) returns (ctx: Context, n: nat)
    requires GoesOn(o, fuel, states, s, dict, pad, w1, answers)
    ensures AtState(ctx, states, s, dict) && o == Later(n, EvalStates(fuel, states, ctx, pad, w1, answers))
  {
    hide EvalStates;
    ctx, n :| AtState(ctx, states, s, dict) && o == Later(n, EvalStates(fuel, states, ctx, pad, w1, answers));
  }

  lemma LeftAgrees(w1: World, w: World, at: Standing, whole: bool, wire: Bytes)
    requires Left(w1, w, at, whole, wire)
    ensures Agrees(w1, at, whole)
  {}

  /** What was ahead before a turn is what the turn takes and what is ahead after it. */
  lemma HeardOn(protocol: Protocol, agentName: string, turn: Turn, at: Standing, whole: bool, answers: Answers,
                more: Bytes, rest: Bytes)
    requires AllTranslate(protocol, agentName) && Takes(protocol, agentName, turn, at, whole, answers)
    requires Next(protocol, agentName, turn, at, whole, answers).unread == more + rest
    ensures at.unread == (if Own(protocol, agentName, turn) then [] else Utterance(protocol, turn)) + more + rest
  {
    hide Legible, Heralded, Utterance, FilledIn, ArgumentsFor;
    if !Own(protocol, agentName, turn) {
      var wire := Utterance(protocol, turn);
      assert at.unread == wire + at.unread[|wire|..];
      assert wire + (more + rest) == wire + more + rest;
    } else {
      assert [] + more + rest == more + rest;
    }
  }

  // ----- whole programs -----

  const Beginning: Standing := Standing("Open", map[], [], [])

  /** A program starts by calling the callback of the state named Open, with an empty dictionary. */
  lemma ProgramStarts(fuel: nat, states: Values.StateMap, pad: nat, w: World, answers: Answers)
    requires "Open" in states
    ensures GoesOn(Eval(fuel, Program(states), pad, w, answers), fuel, states, "Open", map[], pad, w, answers)
  {
    hide EvalStates;
    EvalLeaf(fuel, StateMachineOperation(states), pad, w, answers);
    var ctx := Begin(states, FreshControlFlow).context;
    assert AtState(ctx, states, "Open", map[]);
    var o := EvalStates(fuel, states, ctx, pad, w, answers);
    assert Eval(fuel, Program(states), pad, w, answers) == Later(0, o);
  }

  /** In Closed the application's answer is the result. */
  lemma ClosedReturns(fuel: nat, states: Values.StateMap, ctx: Context, dict: map<string, Value>, text: Bytes,
                      result: map<string, Value>, pad: nat, w: World, answers: Answers)
    requires fuel > 0 && AtState(ctx, states, "Closed", dict) && states["Closed"].tree == AskTree("Closed")
    requires answers(Asking(w, "Closed", dict)) == DynamicList([Text(text), Dictionary(result)])
    ensures var o := EvalStates(fuel, states, ctx, pad, w, answers);
            && o.Evaluated? && o.value == Dictionary(result) && w.pads <= o.world.pads
            && o.world == w.(pads := o.world.pads, requests := Asking(w, "Closed", dict))
  {
    hide EvalCall, AskTree, Asking;
    WriterAsked(fuel, "Closed", dict, pad, w, answers);
  }

  lemma ClosedAsks(protocol: Protocol, agentName: string, states: Values.StateMap)
    requires Built(protocol, agentName, states) && "Closed" in states
    ensures states["Closed"].tree == AskTree("Closed")
  {
    hide TreeOf, AskTree;
  }

  /** The machine exits with the result, having sent these octets, with those left to read. */
  ghost predicate ExitsHaving(states: Values.StateMap, w: World, answers: Answers, result: Value, sent: Bytes,
                              unread: Bytes)
  {
    exists k, w1 :: Exited(Run(Instance(Program(states), w), k, answers), result, w1)
                    && w1.output == w.output + sent && Concat(w1.input) == unread
  }

  /**
   A generated program, run by the stack machine from its start: if its party can take
   all turns of a script that ends in Closed, and its application answers there with a
   result, the machine exits with that result, having sent what the party's own
   messages say and read what the others' say, and nothing else.
   */
  lemma ProgramConverses(protocol: Protocol, agentName: string, states: Values.StateMap, script: seq<Turn>,
                         depth: nat, whole: bool, text: Bytes, result: map<string, Value>, w: World, answers: Answers)
    requires Built(protocol, agentName, states) && "Open" in states && Shallow(protocol, agentName, depth)
    requires w.requests == [] && !w.eof && (whole ==> |w.input| <= 1)
    requires Converses(protocol, agentName, script, Beginning.(unread := Concat(w.input)), whole, answers)
    requires var end := Afterwards(protocol, agentName, script, Beginning.(unread := Concat(w.input)), whole, answers);
             && end.state == "Closed"
             && answers(end.asked + [Request("Closed", [Dictionary(end.dict)])])
                == DynamicList([Text(text), Dictionary(result)])
    ensures var end := Afterwards(protocol, agentName, script, Beginning.(unread := Concat(w.input)), whole, answers);
            && ExitsHaving(states, w, answers, Dictionary(result), Uttered(protocol, agentName, script), end.unread)
            && Concat(w.input) == Heard(protocol, agentName, script) + end.unread
  {
    hide EvalStates, Eval, BuiltFrom, Converses, Concat, Uttered, Heard, Program, Run, Exited, Afterwards;
    var fuel, at := 2 * |script| + depth + 1, Beginning.(unread := Concat(w.input));
    var end := Afterwards(protocol, agentName, script, at, whole, answers);
    ProgramStarts(fuel, states, 0, w, answers);
    var o := Eval(fuel, Program(states), 0, w, answers);
    var ctx, n := GoingOn(o, fuel, states, "Open", map[], 0, w, answers);
    var w1 := PartyConverses(fuel, depth, protocol, agentName, states, script, ctx, at, whole, 0, w, answers);
    var g := fuel - 2 * |script|;
    var ctx1, k := GoingOn(EvalStates(fuel, states, ctx, 0, w, answers), g, states, "Closed", end.dict, 0, w1, answers);
    ClosedAsks(protocol, agentName, states);
    ClosedReturns(g, states, ctx1, end.dict, text, result, 0, w1, answers);
    var last := EvalStates(g, states, ctx1, 0, w1, answers);
    assert o == Evaluated(Dictionary(result), last.world, o.steps);
    ExitsIffEvaluates(Program(states), w, answers, Dictionary(result), last.world);
  }

  // ----- both parties -----

  /** Every message of the script is one party's own. */
  predicate OfTheParties(protocol: Protocol, script: seq<Turn>) {
    forall i :: 0 <= i < |script| ==> Own(protocol, "Client", script[i]) || Own(protocol, "Server", script[i])
  }

  lemma {:induction false} UtteredIsHeard(protocol: Protocol, script: seq<Turn>)
    requires OfTheParties(protocol, script)
    ensures Uttered(protocol, "Client", script) == Heard(protocol, "Server", script)
    ensures Uttered(protocol, "Server", script) == Heard(protocol, "Client", script)
    decreases |script|
  {
    hide Utterance;
    if script != [] {
      assert "Client"[0] != "Server"[0];
      assert forall i :: 0 <= i < |script| - 1 ==> script[1..][i] == script[i + 1];
      UtteredIsHeard(protocol, script[1..]);
    }
  }

  /** Where the script leads. */
  function Target(protocol: Protocol, script: seq<Turn>): string {
    if script == [] || script[|script| - 1].message !in protocol then "Open"
    else protocol[script[|script| - 1].message].thenState
  }

  lemma {:induction false} EndsAtTarget(protocol: Protocol, agentName: string, script: seq<Turn>, at: Standing,
                                        whole: bool, answers: Answers)
    requires AllTranslate(protocol, agentName) && Converses(protocol, agentName, script, at, whole, answers)
    ensures Afterwards(protocol, agentName, script, at, whole, answers).state
         == if script == [] then at.state else Target(protocol, script)
    decreases |script|
  {
    hide Legible, Heralded, Says, FilledIn;
    if script != [] {
      EndsAtTarget(protocol, agentName, script[1..], Next(protocol, agentName, script[0], at, whole, answers), whole,
                   answers);
    }
  }

  /** One party of a conversation, from the start of its program. */
  lemma PartyFromStart(fuel: nat, depth: nat, protocol: Protocol, agentName: string, states: Values.StateMap,
                       script: seq<Turn>, whole: bool, w: World, rest: Bytes, answers: Answers)
    returns (w1: World, dict: map<string, Value>)
    requires Built(protocol, agentName, states) && "Open" in states && Shallow(protocol, agentName, depth)
    requires w.requests == [] && !w.eof && (whole ==> |w.input| <= 1) && fuel >= 2 * |script| + depth
    requires Converses(protocol, agentName, script, Beginning.(unread := Concat(w.input)), whole, answers)
    requires Concat(w.input) == Heard(protocol, agentName, script) + rest
    ensures GoesOn(Eval(fuel, Program(states), 0, w, answers), fuel - 2 * |script|, states, Target(protocol, script),
                   dict,
                   0, w1, answers)
    ensures w1.output == w.output + Uttered(protocol, agentName, script) && Concat(w1.input) == rest
    ensures dict == Afterwards(protocol, agentName, script, Beginning.(unread := Concat(w.input)), whole, answers).dict
  {
    hide EvalStates, Eval, BuiltFrom, Converses, Concat, Uttered, Heard, Program, Afterwards;
    var at := Beginning.(unread := Concat(w.input));
    ProgramStarts(fuel, states, 0, w, answers);
    var o := Eval(fuel, Program(states), 0, w, answers);
    var ctx, n := GoingOn(o, fuel, states, "Open", map[], 0, w, answers);
    w1 := PartyConverses(fuel, depth, protocol, agentName, states, script, ctx, at, whole, 0, w, answers);
    var end := Afterwards(protocol, agentName, script, at, whole, answers);
    dict := end.dict;
    EndsAtTarget(protocol, agentName, script, at, whole, answers);
    GoesOnTwice(o, fuel, fuel - 2 * |script|, states, "Open", map[], 0, ctx, n, w, end.state, dict, w1, answers);
    SameRest(Heard(protocol, agentName, script), rest, end.unread);
  }

  lemma SameRest(a: Bytes, b: Bytes, c: Bytes)
    requires a + b == a + c
    ensures b == c
  {
    assert (a + b)[|a|..] == b && (a + c)[|a|..] == c;
  }

  /**
   The two programs of a deployed protocol in conversation: when each is delivered
   what the other's messages of the script say, each sends exactly what the other is
   delivered, and both come to the same state with nothing of it left to read.
   */
  lemma ProgramsConverse(fuel: nat, depth: nat, protocol: Protocol, client: Values.StateMap, server: Values.StateMap,
                         script: seq<Turn>, whole: bool, w: World, v: World, fromServer: Bytes, fromClient: Bytes,
                         answers: Answers, others: Answers)
    returns (w1: World, v1: World, dict: map<string, Value>, other: map<string, Value>)
    requires Deployed(protocol, client, server) && "Open" in client && "Open" in server
    requires Shallow(protocol, "Client", depth) && Shallow(protocol, "Server", depth) && fuel >= 2 * |script| + depth
    requires OfTheParties(protocol, script)
    requires w.requests == [] && !w.eof && (whole ==> |w.input| <= 1)
    requires v.requests == [] && !v.eof && (whole ==> |v.input| <= 1)
    requires Concat(w.input) == Uttered(protocol, "Server", script) + fromServer
    requires Concat(v.input) == Uttered(protocol, "Client", script) + fromClient
    requires Converses(protocol, "Client", script, Beginning.(unread := Concat(w.input)), whole, answers)
    requires Converses(protocol, "Server", script, Beginning.(unread := Concat(v.input)), whole, others)
    ensures GoesOn(Eval(fuel, Program(client), 0, w, answers), fuel - 2 * |script|, client, Target(protocol, script),
                   dict, 0, w1, answers)
    ensures GoesOn(Eval(fuel, Program(server), 0, v, others), fuel - 2 * |script|, server, Target(protocol, script),
                   other, 0, v1, others)
    ensures w1.output == w.output + Uttered(protocol, "Client", script) && Concat(w1.input) == fromServer
    ensures v1.output == v.output + Uttered(protocol, "Server", script) && Concat(v1.input) == fromClient
    ensures dict == Afterwards(protocol, "Client", script, Beginning.(unread := Concat(w.input)), whole, answers).dict
    ensures other == Afterwards(protocol, "Server", script, Beginning.(unread := Concat(v.input)), whole, others).dict
  {
    hide EvalStates, Eval, BuiltFrom, Converses, Concat, Uttered, Heard, Program, GoesOn, Target, Shallow;
    UtteredIsHeard(protocol, script);
    w1, dict := PartyFromStart(fuel, depth, protocol, "Client", client, script, whole, w, fromServer, answers);
    v1, other := PartyFromStart(fuel, depth, protocol, "Server", server, script, whole, v, fromClient, others);
  }
}
