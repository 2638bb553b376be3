/** The programs the generators return, run by the interpreter. */
module Programs {
  import opened Options
  import opened DataTypes
  import T = Translate
  import opened Values
  import opened Machine
  import opened Evaluator
  import opened Scope
  import opened Shape
  import opened Generation
  import opened GenerationShape
  import opened Analysis
  import opened StateMaps
  import opened Deployment
  import opened Sending
  import SM = StateMachine

  // ----- shape -----

  lemma GeneratedWellFormed(info: StateInfo, name: string, state: State)
    requires Generated(info, name, state)
    ensures WellFormedState(info)
  {
    hide TransitionTree, AskTree, ReadAheadTree;
    if name != "Closed" && !Writing(state) {
      var rules :| RulesFor(rules, state, state.Keys) && info.tree == ReadAheadTree(rules);
      CallbackWellFormed(name, rules);
    } else {
      CallbackWellFormed(name, []);
    }
    forall m | m in info.transitions ensures WellFormed(info.transitions[m].tree) {
      var t := state[m].transition;
      assert info.transitions[m] == InfoOf(state[m]);
      TransitionTreeWellFormed(t.ReadTransition?, t.actions, t.data.types);
    }
  }

  /** The root of a generated program, with the trees of all its states and transitions. */
  lemma ProgramWellFormed(states: StateMap, agent: Agent)
    requires BuiltFrom(states, agent)
    ensures WellFormed(Program(states))
  {
    hide WellFormedState;
    forall s | s in states ensures WellFormedState(states[s]) {
      GeneratedWellFormed(states[s], s, agent[s]);
    }
  }

  /** After `n` steps the stacks are shaped, and no assert of the interpreter has failed. */
  ghost predicate Holding(program: Node, w: World, answers: Answers, n: nat) {
    var cfg := Run(Instance(program, w), n, answers);
    Shaped(cfg) && (cfg.Halted? ==> !Structural(cfg.cause))
  }

  lemma GeneratedHolds(states: StateMap, agent: Agent, w: World, answers: Answers, n: nat)
    requires BuiltFrom(states, agent)
    requires Rooted(w.pads) && WellFormedPads(w.pads) && (forall q :: WellFormedValue(answers(q)))
    ensures Holding(Program(states), w, answers, n)
  {
    ProgramWellFormed(states, agent);
    ProgramKeepsShape(Program(states), w, answers, n);
  }

  /**
   Both programs of a deployed protocol, in any world and whatever their callbacks
   answer, reach shaped states only, and no assert of the interpreter fails.
   */
  lemma DeployedKeepsShape(protocol: Protocol, client: StateMap, server: StateMap, w: World, answers: Answers, n: nat)
    requires Deployed(protocol, client, server)
    requires Rooted(w.pads) && WellFormedPads(w.pads) && (forall q :: WellFormedValue(answers(q)))
    ensures Holding(Program(client), w, answers, n) && Holding(Program(server), w, answers, n)
  {
    hide Holding;
    GeneratedHolds(client, AgentOf(protocol, TransitionsOf(protocol, "Client")), w, answers, n);
    GeneratedHolds(server, AgentOf(protocol, TransitionsOf(protocol, "Server")), w, answers, n);
  }

  // ----- the write loop on a collection that is missing or empty -----

  /** Whatever the fuel, evaluation fails for this cause. */
  ghost predicate FailsAlways(node: Node, cause: Cause, pad: nat, w: World, answers: Answers) {
    forall fuel :: Eval(fuel, node, pad, w, answers) == Fails(cause)
  }

  /**
   The loop of a generated writer never comes back exactly when its collection is
   not a list, and fails on the list's first element exactly when the list is
   empty, whatever its body and its fuel.
   */
  lemma WriteLoopFate(variable: string, collection: string, body: seq<Node>, pad: nat, w: World, answers: Answers)
    ensures var v := PadGet(w.pads, pad, collection);
            && (FailsAlways(WriteElements(variable, collection, body), Endless, pad, w, answers) <==> !v.DynamicList?)
            && (FailsAlways(WriteElements(variable, collection, body), ElementOutOfRange, pad, w, answers)
                <==> v == DynamicList([]))
  {
    var v := PadGet(w.pads, pad, collection);
    var node := WriteElements(variable, collection, body);
    forall fuel: nat
      ensures !v.DynamicList? ==> Eval(fuel, node, pad, w, answers) == Fails(Endless)
      ensures v == DynamicList([]) ==> Eval(fuel, node, pad, w, answers) == Fails(ElementOutOfRange)
    {
      WriteLoopOutcome(fuel, variable, collection, body, pad, w, answers);
    }
    WriteLoopOutcome(0, variable, collection, body, pad, w, answers);
    hide Eval, WriteElements, PadGet;
    assert Eval(0, node, pad, w, answers) ==
           if !v.DynamicList? then Fails(Endless) else if v.values == [] then Fails(ElementOutOfRange) else OutOfFuel;
  }

  lemma WriteLoopOutcome(fuel: nat, variable: string, collection: string, body: seq<Node>, pad: nat, w: World,
                         answers: Answers)
    ensures var v := PadGet(w.pads, pad, collection);
            var o := Eval(fuel, WriteElements(variable, collection, body), pad, w, answers);
            && (!v.DynamicList? ==> o == Fails(Endless))
            && (v == DynamicList([]) ==> o == Fails(ElementOutOfRange))
            && (v.DynamicList? && v.values != [] && fuel == 0 ==> o == OutOfFuel)
  {
    hide PadGet;
    var callable := Callable(Node(OpSequence, body), [variable], true);
    LoopArguments(fuel, callable, collection, pad, w, answers);
    var v := PadGet(w.pads, pad, collection);
    if v.DynamicList? {
      LoopCalls(fuel, callable, collection, v.values, pad, w, answers);
    }
  }

  /** A sequence whose first child fails. */
  lemma FirstFails(fuel: nat, op: Operation, children: seq<Node>, cause: Cause, pad: nat, w: World, answers: Answers)
    requires Dynamic(op) && children != [] && Eval(fuel, children[0], pad, w, answers) == Fails(cause)
    ensures Eval(fuel, Node(op, children), pad, w, answers) == Fails(cause)
  {
    var node := Node(op, children);
    assert !ArgumentsReady(node, []) && node.children[0] == children[0];
    assert EvalArguments(fuel, node, [], pad, w, answers) == NoArguments(Fails(cause));
  }

  /**
   A list the application leaves out: `false` takes its place among the arguments
   of the transition's callback, and a message that begins with a loop over it
   never gets to the wire, in any world.
   */
  lemma LeftOutListNeverReturns(fuel: nat, actions: seq<T.Action>, data: MessageData, members: map<string, Value>,
                                pad: nat, w: World, answers: Answers)
    requires actions != [] && actions[0].Loop? && TransitionTree(false, actions, data.types).Some?
    requires actions[0].collection.name in data.names && actions[0].collection.name !in members
    requires forall i, j :: 0 <= i < j < |data.names| ==> data.names[i] != data.names[j]
    requires fuel > 0
    ensures var c := Callable(TransitionTree(false, actions, data.types).value, data.names, true);
            EvalCall(fuel, c, Some(SM.ExtractArguments(data.names, members)), pad, w, answers) == Fails(Endless)
  {
    hide Eval, TransitionTree, WriteElements;
    var loop, collection := actions[0], actions[0].collection.name;
    var args := SM.ExtractArguments(data.names, members);
    var tree := TransitionTree(false, actions, data.types).value;
    var c := Callable(tree, data.names, true);
    var w1 := w.(pads := w.pads + [CallPad(c, Some(args), pad)]);
    BindDistinct(data.names, args, collection);
    assert PadGet(w1.pads, |w.pads|, collection) == Bool(false);
    var body := LoopFirst(actions, data.types);
    WriteLoopOutcome(fuel - 1, loop.variable.name, collection, body, |w.pads|, w1, answers);
    var ops := tree.children[0].children;
    FirstFails(fuel - 1, OpSequence, ops[0].children, Endless, |w.pads|, w1, answers);
    FirstFails(fuel - 1, OpSequence, ops, Endless, |w.pads|, w1, answers);
    FirstFails(fuel - 1, OpSequence, tree.children, Endless, |w.pads|, w1, answers);
  }

  /** The tree of a message that begins with a loop begins with that loop. */
  lemma LoopFirst(actions: seq<T.Action>, types: Types) returns (body: seq<Node>)
    requires actions != [] && actions[0].Loop? && TransitionTree(false, actions, types).Some?
    ensures var tree := TransitionTree(false, actions, types).value;
            && tree == Node(OpSequence, tree.children) && tree.children != []
            && var ops := tree.children[0].children;
               tree.children[0] == Node(OpSequence, ops) && ops != []
               && ops[0] == Node(OpSequence, [WriteElements(actions[0].variable.name, actions[0].collection.name, body),
                                              Node(WriteStaticOctets(actions[0].terminator), [])])
  {
    body := WriteNodes(actions[0].actions,
                       LoopTypes(types, actions[0].variable.name, actions[0].collection.name).value).value;
  }

  /** Distinct names are bound to their own arguments. */
  lemma {:induction false} BindDistinct(names: seq<string>, args: seq<Value>, name: string)
    requires |args| == |names| && name in names
    requires forall i, j :: 0 <= i < j < |names| ==> names[i] != names[j]
    ensures name in Bind(names, args)
    ensures forall i :: 0 <= i < |names| && names[i] == name ==> Bind(names, args)[name] == args[i]
    decreases |names|
  {
    var last := |names| - 1;
    BindOnly(names[..last], args);
    BindShorter(names[..last], args[..last], args);
    if names[last] != name {
      assert name in names[..last];
      BindDistinct(names[..last], args[..last], name);
    }
  }

  lemma {:induction false} BindOnly(names: seq<string>, args: seq<Value>)
    ensures forall k :: k in Bind(names, args) ==> k in names
    decreases |names|
  {
    if names != [] { BindOnly(names[..|names| - 1], args); }
  }

  lemma {:induction false} BindShorter(names: seq<string>, some: seq<Value>, more: seq<Value>)
    requires |names| <= |some| && some <= more
    ensures Bind(names, some) == Bind(names, more)
    decreases |names|
  {
    if names != [] { BindShorter(names[..|names| - 1], some, more); }
  }
}
