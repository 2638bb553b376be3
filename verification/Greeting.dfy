/** A protocol of two messages, followed through every stage down to the octets. */
module Greeting {
  import opened Options
  import opened Octets
  import opened Escape
  import opened DataTypes
  import opened Translate
  import Values
  import opened Evaluator
  import Lookahead
  import opened Reading
  import opened Generation
  import opened Analysis
  import opened StateMaps
  import opened Recognition
  import opened Deployment
  import opened Sending
  import opened Descriptions
  import opened ReadTransitions
  import opened Turns
  import opened Conversations

  // ----- the protocol -----

  const Hello: Bytes := [72, 73, 32]  // HI and a space
  const Bye: Bytes := [66, 89, 69]    // BYE
  const CrLf: Bytes := [13, 10]

  /** A line feed in a name is folded: CR LF and a space on the wire. */
  const Fold: EscapeInfo := EscapeInfo([10], [13, 10, 32])

  const Name: Identifier := Identifier("name", None)

  const HelloMessage: Message :=
    Message("Client", "Open", "Greeted", MessageData(["name"], map["name" := StrType]),
            [TokenSequence([StringLiteral(Hello), IdentifierReference(Name)], Some(CrLf), Some(Fold))])

  const ByeMessage: Message :=
    Message("Client", "Greeted", "Closed", MessageData([], map[]), [TokenSequence([StringLiteral(Bye)], None, None)])

  const Greetings: Protocol := map["hello" := HelloMessage, "bye" := ByeMessage]

  // ----- its actions and trees -----

  const HelloRead: seq<Action> :=
    [Action.ReadStaticOctets(Hello), Action.ReadOctetsUntilTerminator(CrLf, Name, Some(Fold))]

  const HelloWrite: seq<Action> :=
    [Action.WriteStaticOctets(Hello), WriteFromIdentifier(Name, Some(Fold)), Action.WriteStaticOctets(CrLf)]

  lemma HelloActions()
    ensures ReadActions(HelloMessage.parts) == Some(HelloRead) && WriteActions(HelloMessage.parts) == Some(HelloWrite)
  {
    var tokens := [StringLiteral(Hello), IdentifierReference(Name)];
    var terminated := tokens + [StringLiteral(CrLf)];
    assert HelloMessage.parts[1..] == [] && terminated[1..] == [IdentifierReference(Name), StringLiteral(CrLf)];
    assert terminated[1..][1..] == [StringLiteral(CrLf)] && terminated[1..][2..] == [] && terminated[2..][1..] == [];
    var field := [Action.ReadOctetsUntilTerminator(CrLf, Name, None)];
    assert ReadTokens(terminated[1..]) == Chained(Some(field), ReadTokens([]));
    assert field + [] == field;
    var read := [Action.ReadStaticOctets(Hello)] + field;
    assert ReadTokens(terminated) == Some(read);
    assert WithEscape(read, Some(Fold)) == HelloRead && HelloRead + [] == HelloRead;
    assert WriteTokens(terminated[1..][1..]) == [Action.WriteStaticOctets(CrLf)];
    var write := [Action.WriteStaticOctets(Hello), WriteFromIdentifier(Name, None), Action.WriteStaticOctets(CrLf)];
    assert WriteTokens(terminated[1..]) == write[1..];
    assert WriteTokens(terminated) == write;
    assert WithEscape(write, Some(Fold)) == HelloWrite && HelloWrite + [] == HelloWrite;
  }

  const NameTypes: Types := map["name" := StrType]

  lemma HelloTrees()
    ensures TransitionTree(true, HelloRead, NameTypes).Some? && TransitionTree(false, HelloWrite, NameTypes).Some?
  {
    hide ReadNode, WriteNode;
    NodesExist(HelloRead[0], HelloRead[1..], NameTypes);
    NodesExist(HelloRead[1], [], NameTypes);
    NodesExist(HelloWrite[0], HelloWrite[1..], NameTypes);
    NodesExist(HelloWrite[1], HelloWrite[2..], NameTypes);
    NodesExist(HelloWrite[2], [], NameTypes);
    FieldNodes();
    assert HelloRead == [HelloRead[0]] + HelloRead[1..] && HelloRead[1..] == [HelloRead[1]] + [];
    assert HelloWrite == [HelloWrite[0]] + HelloWrite[1..] && HelloWrite[1..] == [HelloWrite[1]] + HelloWrite[2..];
    assert HelloWrite[2..] == [HelloWrite[2]] + [];
  }

  lemma FieldNodes()
    ensures ReadNode(HelloRead[0], NameTypes).Some? && ReadNode(HelloRead[1], NameTypes).Some?
    ensures WriteNode(HelloWrite[0], NameTypes).Some? && WriteNode(HelloWrite[1], NameTypes).Some?
    ensures WriteNode(HelloWrite[2], NameTypes).Some?
  {}

  lemma NodesExist(a: Action, more: seq<Action>, types: Types)
    ensures ReadNode(a, types).Some? && ReadNodes(more, types).Some? ==> ReadNodes([a] + more, types).Some?
    ensures WriteNode(a, types).Some? && WriteNodes(more, types).Some? ==> WriteNodes([a] + more, types).Some?
    ensures ReadNodes([], types).Some? && WriteNodes([], types).Some?
  {
    hide ReadNode, WriteNode;
    assert ([a] + more)[1..] == more;
  }

  lemma GreetingsRegular(agentName: string)
    ensures AllTranslate(Greetings, agentName) && Regular(Greetings, agentName)
  {
    HelloActions();
    FarewellActions(Bye);
    HelloTrees();
    FarewellTrees(Bye, map[]);
    hide TransitionTree, ReadActions, WriteActions, HelloWrite, Bye, Hello;
    assert "hello" in Greetings && "bye" in Greetings && "hello" != "bye";
    assert "Greeted"[0] != "Closed"[0] && "Open"[0] != "Closed"[0];
    forall m | m in Greetings ensures m == "hello" || m == "bye" {}
  }

  lemma GreetingsDeploy()
    ensures Deployable(Greetings)
  {
    hide Greetings, Regular, AllTranslate, Generates;
    GreetingsRegular("Client");
    GreetingsRegular("Server");
    RegularGenerates(Greetings, "Client");
    RegularGenerates(Greetings, "Server");
  }

  // ----- on the wire -----

  function Folded(name: Bytes): Bytes {
    Escaped(name, [10], [13, 10, 32])
  }

  function Named(name: Bytes): map<string, Values.Value> {
    map["name" := Values.Text(name)]
  }

  lemma HelloSays(name: Bytes)
    ensures Says(HelloMessage, Named(name)) == Some(Hello + Folded(name) + CrLf)
  {
    var tokens, env := HelloMessage.parts[0].tokens, ArgumentsFor(["name"], Named(name));
    assert env == Named(name);
    assert FieldOctets(Name, NameTypes, env) == Some(name);
    assert HelloMessage.parts[1..] == [] && tokens[1..] == [IdentifierReference(Name)] && tokens[1..][1..] == [];
    assert SpokenTokens(tokens[1..], Some(Fold), NameTypes, env) == Some(Folded(name) + []);
    assert SpokenTokens(tokens, Some(Fold), NameTypes, env) == Some(Hello + (Folded(name) + []));
    assert Hello + (Folded(name) + []) == Hello + Folded(name);
    assert Spoken(HelloMessage.parts[1..], NameTypes, env) == Some([]);
    assert Spoken(HelloMessage.parts, NameTypes, env) == Some(Hello + Folded(name) + CrLf + []);
    assert Hello + Folded(name) + CrLf + [] == Hello + Folded(name) + CrLf;
  }

  lemma ByeSays()
    ensures Says(ByeMessage, map[]) == Some(Bye)
  {
    var tokens, env := ByeMessage.parts[0].tokens, ArgumentsFor([], map[]);
    assert ByeMessage.parts[1..] == [] && tokens[1..] == [];
    assert SpokenTokens(tokens, None, map[], env) == Some(Bye + []);
    assert Spoken(ByeMessage.parts[1..], map[], env) == Some([]);
    assert Spoken(ByeMessage.parts, map[], env) == Some(Bye + [] + [] + []);
    assert Bye + [] + [] + [] == Bye;
  }

  // ----- the client -----

  function Script(name: Bytes): seq<Turn> {
    [Turn("hello", Named(name), map[Name := name]), Turn("bye", map[], map[])]
  }

  /** What the client is asked, in turn. */
  function Asked(name: Bytes): seq<Values.Request> {
    [Values.Request("Open", [Values.Dictionary(map[])]), Values.Request("Greeted", [Values.Dictionary(Named(name))]),
     Values.Request("Closed", [Values.Dictionary(map[])])]
  }

  /** An application that greets with this name, says good-bye, and has a result. */
  ghost predicate Greets(answers: Values.Answers, name: Bytes, text: Bytes, result: map<string, Values.Value>) {
    && answers(Asked(name)[..1]) == Choosing("hello", Named(name))
    && answers(Asked(name)[..2]) == Choosing("bye", map[])
    && answers(Asked(name)) == Values.DynamicList([Values.Text(text), Values.Dictionary(result)])
  }

  lemma ClientTakesHello(name: Bytes, at: Standing, answers: Values.Answers)
    requires AllTranslate(Greetings, "Client") && at.state == "Open" && at.dict == map[] && at.asked == []
    requires answers(Asked(name)[..1]) == Choosing("hello", Named(name))
    ensures Takes(Greetings, "Client", Script(name)[0], at, false, answers)
    ensures Next(Greetings, "Client", Script(name)[0], at, false, answers)
         == Standing("Greeted", Named(name), Asked(name)[..1], at.unread)
    ensures Utterance(Greetings, Script(name)[0]) == Hello + Folded(name) + CrLf
  {
    HelloSays(name);
    HelloActions();
    hide Says, WriteActions, Choosing;
    assert Greetings["hello"] == HelloMessage && IsOctets("hello");
    assert "Open"[0] != "Closed"[0];
    assert [] + [Values.Request("Open", [Values.Dictionary(map[])])] == Asked(name)[..1];
    assert ArgumentsFor(["name"], Named(name)) == Named(name);
  }

  lemma ClientTakesBye(name: Bytes, at: Standing, answers: Values.Answers)
    requires AllTranslate(Greetings, "Client") && at.state == "Greeted" && at.dict == Named(name)
    requires at.asked == Asked(name)[..1] && answers(Asked(name)[..2]) == Choosing("bye", map[])
    ensures Takes(Greetings, "Client", Script(name)[1], at, false, answers)
    ensures Next(Greetings, "Client", Script(name)[1], at, false, answers)
         == Standing("Closed", map[], Asked(name)[..2], at.unread)
    ensures Utterance(Greetings, Script(name)[1]) == Bye
  {
    ByeSays();
    FarewellActions(Bye);
    hide Says, WriteActions, Choosing;
    assert Greetings["bye"] == ByeMessage && IsOctets("bye");
    assert "Greeted"[0] != "Closed"[0];
    assert Asked(name)[..1] + [Values.Request("Greeted", [Values.Dictionary(Named(name))])] == Asked(name)[..2];
    assert ArgumentsFor([], map[]) == map[];
  }

  /** The client can take the whole script. */
  lemma ClientConverses(name: Bytes, at: Standing, answers: Values.Answers)
    requires AllTranslate(Greetings, "Client") && at.state == "Open" && at.dict == map[] && at.asked == []
    requires answers(Asked(name)[..1]) == Choosing("hello", Named(name))
    requires answers(Asked(name)[..2]) == Choosing("bye", map[])
    ensures Converses(Greetings, "Client", Script(name), at, false, answers)
    ensures Afterwards(Greetings, "Client", Script(name), at, false, answers)
         == Standing("Closed", map[], Asked(name)[..2], at.unread)
    ensures Uttered(Greetings, "Client", Script(name)) == Hello + Folded(name) + CrLf + Bye
  {
    hide Takes, Next, Utterance, Choosing;
    ClientTakesHello(name, at, answers);
    var next := Next(Greetings, "Client", Script(name)[0], at, false, answers);
    ClientTakesBye(name, next, answers);
    assert Script(name)[1..] == [Script(name)[1]] && Script(name)[1..][1..] == [];
    assert Own(Greetings, "Client", Script(name)[0]) && Own(Greetings, "Client", Script(name)[1]);
    assert Uttered(Greetings, "Client", Script(name)[1..][1..]) == [];
    assert Uttered(Greetings, "Client", Script(name)[1..]) == Bye + [];
    assert Bye + [] == Bye;
    assert Converses(Greetings, "Client", Script(name)[1..], next, false, answers);
    var last := Next(Greetings, "Client", Script(name)[1], next, false, answers);
    assert Afterwards(Greetings, "Client", Script(name)[1..][1..], last, false, answers) == last;
    assert Afterwards(Greetings, "Client", Script(name)[1..], next, false, answers) == last;
  }

  /**
   The generated client, on the stack machine, for any name: it exits with its
   application's result, having sent the greeting with the name folded, and BYE.
   */
  lemma ClientExits(states: Values.StateMap, name: Bytes, text: Bytes, result: map<string, Values.Value>,
                    w: Values.World, answers: Values.Answers)
    requires Built(Greetings, "Client", states) && Greets(answers, name, text, result)
    requires w.requests == [] && !w.eof
    ensures ExitsHaving(states, w, answers, Values.Dictionary(result), Hello + Folded(name) + CrLf + Bye,
                        Concat(w.input))
  {
    hide BuiltFrom, Converses, Afterwards, Uttered, Heard, ExitsHaving, Choosing, Folded;
    var at := Beginning.(unread := Concat(w.input));
    ClientConverses(name, at, answers);
    StatesPresent(states, "Client");
    GreetingsShallow("Client");
    var end := Afterwards(Greetings, "Client", Script(name), at, false, answers);
    assert end.asked + [Values.Request("Closed", [Values.Dictionary(end.dict)])] == Asked(name);
    ProgramConverses(Greetings, "Client", states, Script(name), 0, false, text, result, w, answers);
  }

  lemma StatesPresent(states: Values.StateMap, agentName: string)
    requires Built(Greetings, agentName, states)
    ensures "Open" in states
  {
    BuiltOwns(Greetings, states, agentName);
    assert Greetings["hello"].whenState == "Open";
  }

  lemma GreetingsShallow(agentName: string)
    ensures Shallow(Greetings, agentName, 0)
  {
    hide WriteActions, DepthOf;
    HelloActions();
    FarewellActions(Bye);
    FlatActions(HelloWrite[0], HelloWrite[1..]);
    FlatActions(HelloWrite[1], HelloWrite[2..]);
    FlatActions(HelloWrite[2], []);
    FlatActions(Action.WriteStaticOctets(Bye), []);
    assert HelloWrite == [HelloWrite[0]] + HelloWrite[1..] && HelloWrite[1..] == [HelloWrite[1]] + HelloWrite[2..];
    assert HelloWrite[2..] == [HelloWrite[2]] + []
        && [Action.WriteStaticOctets(Bye)] + [] == [Action.WriteStaticOctets(Bye)];
    assert Greetings["hello"] == HelloMessage && Greetings["bye"] == ByeMessage;
    forall m | m in Greetings ensures m == "hello" || m == "bye" {}
  }

  lemma FlatActions(a: Action, more: seq<Action>)
    requires !a.Loop?
    ensures DepthOf([a] + more) == DepthOf(more) && DepthOf([]) == 0
  {
    assert ([a] + more)[1..] == more;
  }

  // ----- the server -----

  /** The greeting in one chunk, with no space behind it: a space would continue the fold. */
  ghost predicate GreetingArrived(name: Bytes, rest: Bytes, v: Values.World) {
    && v.requests == [] && !v.eof && |v.input| <= 1
    && Concat(v.input) == Hello + Folded(name) + CrLf + rest && (rest != [] ==> rest[0] != 32)
  }

  lemma HelloTextual()
    ensures Textual(HelloRead, NameTypes)
  {
    assert Fold.sequence[..2] == CrLf;
    assert Folding(CrLf, Fold, 1);
    assert TextualAction(HelloRead[0], NameTypes) && TextualAction(HelloRead[1], NameTypes);
  }

  lemma HelloSafe(name: Bytes, rest: Bytes)
    requires Textual(HelloRead, NameTypes) && (rest != [] ==> rest[0] != 32)
    ensures SafeTexts(HelloRead, 0, NameTypes, map[Name := name], rest)
  {
    var texts := map[Name := name];
    assert WireFrom(HelloRead, 2, NameTypes, texts) == [];
    if rest != [] { assert (CrLf + rest)[2] == rest[0]; }
    assert !At(CrLf + rest, Fold.sequence, 0);
    assert [] + rest == rest;
    assert SafeText(HelloRead[1], texts, [] + rest) && SafeTexts(HelloRead, 2, NameTypes, texts, rest);
    assert SafeTexts(HelloRead, 1, NameTypes, texts, rest);
  }

  lemma HelloHolds(name: Bytes)
    ensures Holding(HelloRead, NameTypes, ArgumentsFor(["name"], Named(name)), map[Name := name])
    ensures Bound(HelloRead, ArgumentsFor(["name"], map[]))
  {
    assert FieldOctets(Name, NameTypes, ArgumentsFor(["name"], Named(name))) == Some(name);
  }

  /** The server's only message in Open. */
  lemma OpenHasHello(m: string)
    requires AllTranslate(Greetings, "Server")
    ensures var automaton := AutomatonOf(Greetings, "Server");
            && "Open" in automaton && (m in automaton["Open"] <==> m == "hello")
            && automaton["Open"]["hello"] == Edge(ReadTransition(HelloMessage.data, HelloRead), "Greeted")
  {
    hide ReadActions, WriteActions;
    HelloActions();
    assert Greetings["hello"] == HelloMessage && Greetings["bye"].whenState == "Greeted";
    assert "Open"[0] != "Greeted"[0] && "Client"[0] != "Server"[0];
    EdgeOf(Greetings, "Server", "Open", "hello");
    EdgeOf(Greetings, "Server", "Open", m);
  }

  /** It begins with its literal. */
  lemma HelloHeralded(name: Bytes, rest: Bytes)
    requires AllTranslate(Greetings, "Server")
    ensures Heralded(Greetings, "Server", "hello", Hello + Folded(name) + CrLf + rest)
  {
    hide Folded, AgentOf, TransitionsOf;
    var stream := Hello + Folded(name) + CrLf + rest;
    var automaton := AutomatonOf(Greetings, "Server");
    OpenHasHello("hello");
    forall m | m in automaton["Open"] ensures m == "hello" {
      OpenHasHello(m);
    }
    assert Greetings["hello"] == HelloMessage;
    assert "Greeted"[0] != "Closed"[0];
    assert stream[..3] == Hello;
    assert Begins(automaton["Open"]["hello"], stream, false);
  }

  lemma ServerTakesHello(name: Bytes, rest: Bytes, at: Standing, answers: Values.Answers)
    requires AllTranslate(Greetings, "Server") && at == Beginning.(unread := Hello + Folded(name) + CrLf + rest)
    requires rest != [] ==> rest[0] != 32
    ensures Takes(Greetings, "Server", Script(name)[0], at, true, answers)
    ensures var next := Next(Greetings, "Server", Script(name)[0], at, true, answers);
            next.state == "Greeted" && next.dict == Named(name) && next.unread == rest
    ensures Utterance(Greetings, Script(name)[0]) == Hello + Folded(name) + CrLf
  {
    hide Says, WriteActions, ReadActions, Textual, SafeTexts, Holding, Bound, Heralded, FilledFrom, Folded,
      ArgumentsFor;
    HelloSays(name);
    HelloActions();
    HelloTextual();
    HelloSafe(name, rest);
    HelloHolds(name);
    HelloHeralded(name, rest);
    HelloFills(name);
    assert Greetings["hello"] == HelloMessage && IsOctets("hello");
    assert "Open"[0] != "Closed"[0] && "Client"[0] != "Server"[0];
    var wire := Hello + Folded(name) + CrLf;
    assert at.unread[|wire|..] == rest;
  }

  lemma HelloFills(name: Bytes)
    ensures FilledFrom(ArgumentsFor(["name"], map[]), HelloRead, 0, map[Name := name]) == Named(name)
  {
    var names := ArgumentsFor(["name"], map[]);
    var texts := map[Name := name];
    assert AfterAction(names, HelloRead[0], texts) == names;
    assert AfterAction(names, HelloRead[1], texts) == Named(name);
    assert FilledFrom(Named(name), HelloRead, 2, texts) == Named(name);
    assert FilledFrom(names, HelloRead, 1, texts) == Named(name);
  }

  /**
   The generated server, on those octets: it comes to Greeted with the name as it was
   before it was folded, and with just what followed the greeting left to read.
   */
  lemma ServerGreeted(fuel: nat, states: Values.StateMap, name: Bytes, rest: Bytes, v: Values.World,
                      answers: Values.Answers) returns (v1: Values.World)
    requires Built(Greetings, "Server", states) && GreetingArrived(name, rest, v) && fuel >= 2
    ensures GoesOn(Eval(fuel, Program(states), 0, v, answers), fuel - 2, states, "Greeted", Named(name), 0, v1, answers)
    ensures v1.output == v.output && Concat(v1.input) == rest
  {
    hide BuiltFrom, Takes, Next, Eval, Program, GoesOn, Utterance, Folded, Shallow;
    var script, at := Script(name)[..1], Beginning.(unread := Concat(v.input));
    ServerTakesHello(name, rest, at, answers);
    StatesPresent(states, "Server");
    GreetingsShallow("Server");
    assert script[0] == Script(name)[0] && script[1..] == [];
    assert "Client"[0] != "Server"[0];
    var next := Next(Greetings, "Server", script[0], at, true, answers);
    assert Converses(Greetings, "Server", [], next, true, answers);
    assert Afterwards(Greetings, "Server", [], next, true, answers) == next;
    var wire := Hello + Folded(name) + CrLf;
    assert Heard(Greetings, "Server", script[1..]) == [] && Uttered(Greetings, "Server", script[1..]) == [];
    assert Heard(Greetings, "Server", script) == wire + [] == wire;
    assert Uttered(Greetings, "Server", script) == [] + [];
    var dict;
    v1, dict := PartyFromStart(fuel, 0, Greetings, "Server", states, script, true, v, rest, answers);
    assert v.output + [] == v.output;
  }
}
