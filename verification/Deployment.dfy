/** What the two analyses and the two generators guarantee together. */
module Deployment {
  import opened Options
  import opened Octets
  import opened DataTypes
  import opened Translate
  import opened Analysis
  import opened Generation
  import opened StateMaps
  import Values

  ghost predicate BuiltFrom(m: StateMap, agent: Agent) {
    && m.Keys == agent.Keys
    && forall s :: s in agent ==> Acceptable(s, agent[s]) && Generated(m[s], s, agent[s])
  }

  /** Both analyses and both generators accept, and these are their results. */
  ghost predicate Deployed(protocol: Protocol, client: StateMap, server: StateMap) {
    && AllTranslate(protocol, "Client") && AllTranslate(protocol, "Server")
    && BuiltFrom(client, AgentOf(protocol, TransitionsOf(protocol, "Client")))
    && BuiltFrom(server, AgentOf(protocol, TransitionsOf(protocol, "Server")))
  }

  /** Outside Closed the parties have the same, nonempty choice of messages, one of them writes and the other reads. */
  ghost predicate Dual(a: StateMap, b: StateMap) {
    && a.Keys == b.Keys
    && forall s :: s in a && s != "Closed" ==> DualState(a, b, s)
  }

  ghost predicate DualState(a: StateMap, b: StateMap, s: string)
    requires s in a && s in b
  {
    && a[s].transitions.Keys == b[s].transitions.Keys != {}
    && (Asks(a[s]) || ReadsAhead(a[s])) && (Asks(a[s]) <==> ReadsAhead(b[s])) && (ReadsAhead(a[s]) <==> Asks(b[s]))
    && forall m :: m in a[s].transitions ==>
         a[s].transitions[m].target == b[s].transitions[m].target && a[s].transitions[m].target in a
  }

  lemma DualSymmetric(a: StateMap, b: StateMap)
    requires Dual(a, b)
    ensures Dual(b, a)
  {
    forall s | s in b && s != "Closed" ensures DualState(b, a, s) {
      assert DualState(a, b, s);
    }
  }

  /** The state holds exactly the protocol's messages from `s`, written when they are the agent's own. */
  ghost predicate Describes(protocol: Protocol, agentName: string, s: string, state: State) {
    && (forall name :: name in state <==> name in protocol && protocol[name].whenState == s)
    && (forall name :: name in state ==>
          && state[name].target == protocol[name].thenState
          && (state[name].transition.WriteTransition? <==> protocol[name].agent == agentName))
  }

  /**
   The same of what was generated for it, which asks the application exactly when
   the messages are the agent's own.
   */
  ghost predicate Owns(protocol: Protocol, agentName: string, s: string, info: StateInfo) {
    && info.transitions.Keys != {}
    && (forall name :: name in info.transitions <==> name in protocol && protocol[name].whenState == s)
    && (forall name :: name in info.transitions ==>
          && info.transitions[name].target == protocol[name].thenState
          && (Asks(info) <==> protocol[name].agent == agentName))
    && (ReadsAhead(info) <==> !Asks(info))
  }

  lemma GeneratedOwns(protocol: Protocol, agentName: string, s: string, state: State, info: StateInfo)
    requires Describes(protocol, agentName, s, state) && s != "Closed"
    requires Acceptable(s, state) && Generated(info, s, state)
    ensures Owns(protocol, agentName, s, info)
  {
    hide TreeOf;
    assert info.transitions.Keys == state.Keys;
    if Writing(state) {
      var name :| name in state && state[name].transition.WriteTransition?;
      assert Asks(info);
    } else {
      assert state != map[];
      var name :| name in state;
    }
  }

  lemma AgentDescribes(protocol: Protocol, agentName: string, s: string)
    requires AllTranslate(protocol, agentName)
    requires s in AgentOf(protocol, TransitionsOf(protocol, agentName))
    ensures Describes(protocol, agentName, s, AgentOf(protocol, TransitionsOf(protocol, agentName))[s])
  {
    forall name {
      EdgeOf(protocol, agentName, s, name);
    }
  }

  lemma BuiltOwns(protocol: Protocol, m: StateMap, agentName: string)
    requires AllTranslate(protocol, agentName)
    requires BuiltFrom(m, AgentOf(protocol, TransitionsOf(protocol, agentName)))
    ensures m.Keys == StateNames(protocol)
    ensures forall s :: s in m && s != "Closed" ==> Owns(protocol, agentName, s, m[s])
  {
    var agent := AgentOf(protocol, TransitionsOf(protocol, agentName));
    forall s | s in m && s != "Closed" ensures Owns(protocol, agentName, s, m[s]) {
      AgentDescribes(protocol, agentName, s);
      GeneratedOwns(protocol, agentName, s, agent[s], m[s]);
    }
  }

  /** What deployment comes to. */
  ghost predicate BothOwn(protocol: Protocol, client: StateMap, server: StateMap) {
    && client.Keys == server.Keys == StateNames(protocol)
    && forall s :: s in client && s != "Closed" ==>
         Owns(protocol, "Client", s, client[s]) && Owns(protocol, "Server", s, server[s])
  }

  lemma DeployedOwns(protocol: Protocol, client: StateMap, server: StateMap)
    requires Deployed(protocol, client, server)
    ensures BothOwn(protocol, client, server)
  {
    BuiltOwns(protocol, client, "Client");
    BuiltOwns(protocol, server, "Server");
  }

  /** Every message that a state other than Closed sends belongs to the client or to the server. */
  ghost predicate TwoParty(protocol: Protocol) {
    forall m :: m in protocol && protocol[m].whenState != "Closed" ==> protocol[m].agent in {"Client", "Server"}
  }

  lemma OwnedIsDual(protocol: Protocol, client: StateMap, server: StateMap)
    requires BothOwn(protocol, client, server) && TwoParty(protocol)
    ensures Dual(client, server)
  {
    assert "Client"[0] != "Server"[0];
    forall s | s in client && s != "Closed" ensures DualState(client, server, s) {
      assert Owns(protocol, "Client", s, client[s]) && Owns(protocol, "Server", s, server[s]);
      assert client[s].transitions.Keys == server[s].transitions.Keys;
      var m :| m in client[s].transitions;
      forall m | m in client[s].transitions ensures client[s].transitions[m].target in client {
        assert protocol[m].thenState in StateNames(protocol);
      }
    }
  }

  lemma DualIsOwned(protocol: Protocol, client: StateMap, server: StateMap)
    requires BothOwn(protocol, client, server) && Dual(client, server)
    ensures TwoParty(protocol)
  {
    forall m | m in protocol && protocol[m].whenState != "Closed" ensures protocol[m].agent in {"Client", "Server"} {
      var s := protocol[m].whenState;
      assert s in StateNames(protocol);
      assert DualState(client, server, s);
      assert Owns(protocol, "Client", s, client[s]) && Owns(protocol, "Server", s, server[s]);
    }
  }

  /**
   The two generated machines are dual exactly when every message leaving another
   state than Closed is one party's own.
   */
  lemma DeployedIsDual(protocol: Protocol, client: StateMap, server: StateMap)
    requires Deployed(protocol, client, server)
    ensures Dual(client, server) <==> TwoParty(protocol)
  {
    DeployedOwns(protocol, client, server);
    if TwoParty(protocol) {
      OwnedIsDual(protocol, client, server);
    }
    if Dual(client, server) {
      DualIsOwned(protocol, client, server);
    }
  }

  /** What the generator asks of an automaton. */
  ghost predicate Generates(agent: Agent) {
    agent != map[] && forall s :: s in agent ==> Acceptable(s, agent[s])
  }

  /** Some state info for an acceptable state. */
  ghost function GeneratedFor(name: string, state: State): (info: StateInfo)
    requires Acceptable(name, state)
    ensures Generated(info, name, state)
  {
    if name != "Closed" && !Writing(state) then
      RulesExist(state);
      var rules :| RulesFor(rules, state, state.Keys);
      Values.StateInfo(ReadAheadTree(rules), InfosOf(state))
    else Values.StateInfo(AskTree(name), InfosOf(state))
  }

  /** `client` and `server`: the program that runs on the state map. */
  method Generate(agent: Agent) returns (r: Option<Values.Node>)
    ensures r.Some? <==> Generates(agent)
    ensures r.Some? ==> exists states :: r.value == Program(states) && BuiltFrom(states, agent)
  {
    var states := ConstructStateMap(agent);
    if states.None? {
      return None;
    }
    assert BuiltFrom(states.value, agent);
    return Some(Program(states.value));
  }

  /** Both analyses, then both generators: there is a pair of programs exactly when all four accept. */
  method Deploy(protocol: Protocol) returns (r: Option<(Values.Node, Values.Node)>)
    ensures r.Some? <==> Deployable(protocol)
    ensures r.Some? ==> exists client, server ::
                          Deployed(protocol, client, server) && r.value == (Program(client), Program(server))
  {
    var agents := Analyze(protocol);
    if agents.None? {
      return None;
    }
    var client := Generate(agents.value.0);
    var server := Generate(agents.value.1);
    if client.None? || server.None? {
      return None;
    }
    ghost var a :| client.value == Program(a) && BuiltFrom(a, agents.value.0);
    ghost var b :| server.value == Program(b) && BuiltFrom(b, agents.value.1);
    assert Deployed(protocol, a, b);
    return Some((client.value, server.value));
  }

  ghost predicate Deployable(protocol: Protocol) {
    && AllTranslate(protocol, "Client") && AllTranslate(protocol, "Server")
    && Generates(AgentOf(protocol, TransitionsOf(protocol, "Client")))
    && Generates(AgentOf(protocol, TransitionsOf(protocol, "Server")))
  }

  /** A protocol in which `agent` says one word and closes. */
  function Farewell(agent: string, word: Bytes): Protocol {
    map["quit" := Message(agent, "Open", "Closed", MessageData([], map[]),
                          [TokenSequence([StringLiteral(word)], None, None)])]
  }

  lemma FarewellActions(word: Bytes)
    ensures ReadActions([TokenSequence([StringLiteral(word)], None, None)]) == Some([ReadStaticOctets(word)])
    ensures WriteActions([TokenSequence([StringLiteral(word)], None, None)]) == Some([WriteStaticOctets(word)])
  {
    var tokens, parts := [StringLiteral(word)], [TokenSequence([StringLiteral(word)], None, None)];
    assert tokens[1..] == [] && parts[1..] == [];
    assert ReadTokens(tokens) == Chained(Some([ReadStaticOctets(word)]), ReadTokens([]));
    assert [ReadStaticOctets(word)] + [] == [ReadStaticOctets(word)];
    assert [WriteStaticOctets(word)] + [] == [WriteStaticOctets(word)];
  }

  lemma FarewellTrees(word: Bytes, types: Types)
    ensures TransitionTree(true, [ReadStaticOctets(word)], types).Some?
    ensures TransitionTree(false, [WriteStaticOctets(word)], types).Some?
  {
    OneNode(ReadStaticOctets(word), types);
    OneNode(WriteStaticOctets(word), types);
  }

  /** A single action compiles when it does on its own. */
  lemma OneNode(a: Action, types: Types)
    ensures ReadNode(a, types).Some? ==> ReadNodes([a], types).Some?
    ensures WriteNode(a, types).Some? ==> WriteNodes([a], types).Some?
  {
    hide ReadNode, WriteNode;
    var one := [a];
    var none := one[1..];
    assert none == [] && one[0] == a;
    assert ReadNodes(none, types) == Some([]) && WriteNodes(none, types) == Some([]);
  }

  /** What is needed of a protocol for the generator to accept an agent's automaton. */
  ghost predicate Regular(protocol: Protocol, agentName: string)
    requires AllTranslate(protocol, agentName)
  {
    && protocol != map[]
    && (forall m :: m in protocol ==> TreeOf(TransitionOf(protocol[m], agentName).value).Some?)
    && (forall a, b :: a in protocol && b in protocol && protocol[a].whenState == protocol[b].whenState ==>
          (protocol[a].agent == agentName <==> protocol[b].agent == agentName))
    && (forall m :: m in protocol && protocol[m].agent != agentName ==>
          ConditionOf(Edge(TransitionOf(protocol[m], agentName).value, protocol[m].thenState)).Some?)
    && (forall m :: m in protocol && protocol[m].thenState != "Closed" ==>
          exists n :: n in protocol && protocol[n].whenState == protocol[m].thenState)
  }

  lemma RegularGenerates(protocol: Protocol, agentName: string)
    requires AllTranslate(protocol, agentName) && Regular(protocol, agentName)
    ensures Generates(AgentOf(protocol, TransitionsOf(protocol, agentName)))
  {
    hide TreeOf, ConditionOf, TransitionOf;
    var automaton := AgentOf(protocol, TransitionsOf(protocol, agentName));
    var m :| m in protocol;
    assert protocol[m].whenState in automaton;
    forall s | s in automaton ensures Acceptable(s, automaton[s]) {
      RegularAccepts(protocol, agentName, s);
    }
  }

  lemma RegularAccepts(protocol: Protocol, agentName: string, s: string)
    requires AllTranslate(protocol, agentName) && Regular(protocol, agentName)
    requires s in AgentOf(protocol, TransitionsOf(protocol, agentName))
    ensures Acceptable(s, AgentOf(protocol, TransitionsOf(protocol, agentName))[s])
  {
    hide TreeOf, ConditionOf;
    var state := AgentOf(protocol, TransitionsOf(protocol, agentName))[s];
    AgentDescribes(protocol, agentName, s);
    forall m | m in state
      ensures state[m] == Edge(TransitionOf(protocol[m], agentName).value, protocol[m].thenState)
      ensures state[m].transition.WriteTransition? <==> protocol[m].agent == agentName
    {}
    var n :| n in protocol && (protocol[n].whenState == s || protocol[n].thenState == s);
    if s != "Closed" {
      var k :| k in protocol && protocol[k].whenState == s;
      assert k in state;
      if protocol[k].agent == agentName { assert Writing(state); }
    }
  }

  lemma FarewellRegular(agent: string, word: Bytes, agentName: string)
    ensures AllTranslate(Farewell(agent, word), agentName) && Regular(Farewell(agent, word), agentName)
  {
    FarewellActions(word);
    FarewellTrees(word, map[]);
    hide TransitionTree, ReadActions, WriteActions;
    var protocol := Farewell(agent, word);
    forall m | m in protocol ensures m == "quit" {}
    assert "quit" in protocol;
  }

  /** The analyses and the generators do accept something: this protocol, for every agent and every word. */
  lemma FarewellDeploys(agent: string, word: Bytes)
    ensures Deployable(Farewell(agent, word))
  {
    hide Farewell, Regular, AllTranslate, Generates;
    FarewellRegular(agent, word, "Client");
    FarewellRegular(agent, word, "Server");
    RegularGenerates(Farewell(agent, word), "Client");
    RegularGenerates(Farewell(agent, word), "Server");
  }
}
