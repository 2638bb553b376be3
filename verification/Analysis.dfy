/** From the messages of a protocol to the automaton of each agent. */
module Analysis {
  import opened Options
  import opened DataTypes
  import opened Translate

  datatype Message = Message(agent: string, whenState: string, thenState: string, data: MessageData,
                             parts: seq<MessagePart>)

  type Protocol = map<string, Message>

  datatype Transition =
    | ReadTransition(data: MessageData, actions: seq<Action>)
    | WriteTransition(data: MessageData, actions: seq<Action>)

  /** A transition and the state it leads to. */
  datatype Edge = Edge(transition: Transition, target: string)

  type State = map<string, Edge>

  type Agent = map<string, State>

  function TransitionOf(m: Message, agentName: string): Option<Transition> {
    if m.agent == agentName then
      match WriteActions(m.parts)
      case None => None
      case Some(actions) => Some(WriteTransition(m.data, actions))
    else
      match ReadActions(m.parts)
      case None => None
      case Some(actions) => Some(ReadTransition(m.data, actions))
  }

  ghost predicate AllTranslate(protocol: Protocol, agentName: string) {
    forall name :: name in protocol ==> TransitionOf(protocol[name], agentName).Some?
  }

  ghost function TransitionsOf(protocol: Protocol, agentName: string): map<string, Transition>
    requires AllTranslate(protocol, agentName)
  {
    map name | name in protocol :: TransitionOf(protocol[name], agentName).value
  }

  method AnalyzeTransitions(protocol: Protocol, agentName: string) returns (r: Option<map<string, Transition>>)
    ensures r.Some? <==> AllTranslate(protocol, agentName)
    ensures r.Some? ==> r.value == TransitionsOf(protocol, agentName)
  {
    var transitions: map<string, Transition> := map[];
    var left := protocol.Keys;
    while left != {}
      invariant left <= protocol.Keys && transitions.Keys == protocol.Keys - left
      invariant forall name :: name in transitions ==>
                TransitionOf(protocol[name], agentName) == Some(transitions[name])
      decreases |left|
    {
      var name :| name in left;
      var transition := TransitionOf(protocol[name], agentName);
      if transition.None? {
        return None;
      }
      transitions := transitions[name := transition.value];
      left := left - {name};
    }
    return Some(transitions);
  }

  /** The messages that can be sent or received in a state. */
  function EdgesFrom(protocol: Protocol, transitions: map<string, Transition>, state: string): State
    requires protocol.Keys <= transitions.Keys
  {
    map name | name in protocol && protocol[name].whenState == state ::
      Edge(transitions[name], protocol[name].thenState)
  }

  function StateNames(protocol: Protocol): set<string> {
    (set name | name in protocol :: protocol[name].whenState)
    + (set name | name in protocol :: protocol[name].thenState)
  }

  function AgentOf(protocol: Protocol, transitions: map<string, Transition>): Agent
    requires protocol.Keys <= transitions.Keys
  {
    map state | state in StateNames(protocol) :: EdgesFrom(protocol, transitions, state)
  }

  /** The part of the protocol already looked at. */
  function Done(protocol: Protocol, left: set<string>): Protocol {
    map name | name in protocol && name !in left :: protocol[name]
  }

  function WithState(states: Agent, state: string): Agent {
    if state in states then states else states[state := map[]]
  }

  function WithMessage(states: Agent, name: string, m: Message, t: Transition): Agent {
    var created := WithState(WithState(states, m.whenState), m.thenState);
    created[m.whenState := created[m.whenState][name := Edge(t, m.thenState)]]
  }

  /** The automaton of the messages already looked at. */
  ghost predicate Assembled(states: Agent, protocol: Protocol, transitions: map<string, Transition>,
                            left: set<string>) {
    protocol.Keys <= transitions.Keys && states == AgentOf(Done(protocol, left), transitions)
  }

  /** A message adds its two states and one edge, and changes nothing else. */
  ghost predicate Extends(more: Agent, states: Agent, name: string, m: Message, t: Transition) {
    && more.Keys == states.Keys + {m.whenState, m.thenState}
    && more[m.whenState]
       == (if m.whenState in states then states[m.whenState] else map[])[name := Edge(t, m.thenState)]
    && (forall s :: s in more && s != m.whenState ==> more[s] == if s in states then states[s] else map[])
  }

  lemma ExtendsOnce(a: Agent, b: Agent, states: Agent, name: string, m: Message, t: Transition)
    requires Extends(a, states, name, m, t) && Extends(b, states, name, m, t)
    ensures a == b
  {
    forall s | s in a ensures a[s] == b[s] {}
  }

  lemma WithMessageExtends(states: Agent, name: string, m: Message, t: Transition)
    ensures Extends(WithMessage(states, name, m, t), states, name, m, t)
  {}

  lemma AddStates(before: Protocol, name: string, m: Message)
    requires name !in before
    ensures StateNames(before[name := m]) == StateNames(before) + {m.whenState, m.thenState}
  {
    var after := before[name := m];
    assert name in after;
    forall s | s in StateNames(before) ensures s in StateNames(after) {
      var n :| n in before && (before[n].whenState == s || before[n].thenState == s);
      assert n in after && after[n] == before[n];
    }
    forall s | s in StateNames(after) ensures s in StateNames(before) + {m.whenState, m.thenState} {
      var n :| n in after && (after[n].whenState == s || after[n].thenState == s);
      assert n != name ==> n in before && before[n] == after[n];
    }
  }

  lemma AddEdge(before: Protocol, transitions: map<string, Transition>, name: string, m: Message, s: string)
    requires before.Keys <= transitions.Keys && name in transitions && name !in before
    ensures EdgesFrom(before[name := m], transitions, s)
            == if s == m.whenState then EdgesFrom(before, transitions, s)[name := Edge(transitions[name], m.thenState)]
               else EdgesFrom(before, transitions, s)
    ensures s !in StateNames(before) ==> EdgesFrom(before, transitions, s) == map[]
  {
    if s !in StateNames(before) {
      assert forall n :: n in before ==> before[n].whenState != s;
    }
  }

  /** One more message adds its two states and one edge. */
  lemma AddMessage(protocol: Protocol, transitions: map<string, Transition>, left: set<string>, name: string)
    requires protocol.Keys <= transitions.Keys && name in left && name in protocol
    ensures Extends(AgentOf(Done(protocol, left - {name}), transitions), AgentOf(Done(protocol, left), transitions),
                    name, protocol[name], transitions[name])
  {
    var m := protocol[name];
    var before := Done(protocol, left);
    assert Done(protocol, left - {name}) == before[name := m];
    AddStates(before, name, m);
    forall s {
      AddEdge(before, transitions, name, m, s);
    }
  }

  lemma AssembleMessage(states: Agent, protocol: Protocol, transitions: map<string, Transition>, left: set<string>,
                        name: string)
    requires Assembled(states, protocol, transitions, left) && name in left && name in protocol
    ensures Assembled(WithMessage(states, name, protocol[name], transitions[name]), protocol, transitions,
                      left - {name})
  {
    AddMessage(protocol, transitions, left, name);
    WithMessageExtends(states, name, protocol[name], transitions[name]);
    ExtendsOnce(AgentOf(Done(protocol, left - {name}), transitions),
                WithMessage(states, name, protocol[name], transitions[name]),
                states, name, protocol[name], transitions[name]);
  }

  lemma AssembleNone(protocol: Protocol, transitions: map<string, Transition>)
    requires protocol.Keys <= transitions.Keys
    ensures Assembled(map[], protocol, transitions, protocol.Keys)
  {
    assert Done(protocol, protocol.Keys) == map[];
  }

  lemma AssembleAll(states: Agent, protocol: Protocol, transitions: map<string, Transition>)
    requires Assembled(states, protocol, transitions, {})
    ensures states == AgentOf(protocol, transitions)
  {
    assert Done(protocol, {}) == protocol;
  }

  method AnalyzeAgent(protocol: Protocol, agentName: string) returns (r: Option<Agent>)
    ensures r.Some? <==> AllTranslate(protocol, agentName)
    ensures r.Some? ==> r.value == AgentOf(protocol, TransitionsOf(protocol, agentName))
  {
    var maybeTransitions := AnalyzeTransitions(protocol, agentName);
    if maybeTransitions.None? {
      return None;
    }
    var transitions := maybeTransitions.value;
    var states: Agent := map[];
    var left := protocol.Keys;
    AssembleNone(protocol, transitions);
    while left != {}
      invariant left <= protocol.Keys
      invariant Assembled(states, protocol, transitions, left)
      decreases |left|
    {
      var name :| name in left;
      var m := protocol[name];
      AssembleMessage(states, protocol, transitions, left, name);
      states := WithState(states, m.whenState);
      states := WithState(states, m.thenState);
      states := states[m.whenState := states[m.whenState][name := Edge(transitions[name], m.thenState)]];
      left := left - {name};
    }
    AssembleAll(states, protocol, transitions);
    return Some(states);
  }

  /** Both automata, or neither. */
  method Analyze(protocol: Protocol) returns (r: Option<(Agent, Agent)>)
    ensures r.Some? <==> AllTranslate(protocol, "Client") && AllTranslate(protocol, "Server")
    ensures r.Some? ==> r.value.0 == AgentOf(protocol, TransitionsOf(protocol, "Client"))
                        && r.value.1 == AgentOf(protocol, TransitionsOf(protocol, "Server"))
  {
    var client := AnalyzeAgent(protocol, "Client");
    var server := AnalyzeAgent(protocol, "Server");
    if client.Some? && server.Some? {
      return Some((client.value, server.value));
    }
    return None;
  }

  /** What the automaton of one agent says about a state and a message. */
  lemma EdgeOf(protocol: Protocol, agentName: string, state: string, name: string)
    requires AllTranslate(protocol, agentName)
    ensures var agent := AgentOf(protocol, TransitionsOf(protocol, agentName));
            && (state in agent <==> state in StateNames(protocol))
            && (state in agent ==>
                  && (name in agent[state] <==> name in protocol && protocol[name].whenState == state)
                  && (name in agent[state] ==>
                        && agent[state][name].target == protocol[name].thenState
                        && agent[state][name].target in agent
                        && (agent[state][name].transition.WriteTransition? <==> protocol[name].agent == agentName)))
  {
    if name in protocol {
      assert protocol[name].thenState in StateNames(protocol);
    }
  }

  /**
   The two automata have the same states and edges; an edge is written by at most
   one side, and by exactly one when its agent is the client or the server.
   */
  lemma MirroredAutomata(protocol: Protocol, state: string, name: string)
    requires AllTranslate(protocol, "Client") && AllTranslate(protocol, "Server")
    ensures var client := AgentOf(protocol, TransitionsOf(protocol, "Client"));
            var server := AgentOf(protocol, TransitionsOf(protocol, "Server"));
            && (state in client <==> state in server)
            && (state in client ==>
                  && (name in client[state] <==> name in server[state])
                  && (name in client[state] ==>
                        && client[state][name].target == server[state][name].target
                        && !(client[state][name].transition.WriteTransition?
                             && server[state][name].transition.WriteTransition?)
                        && (protocol[name].agent in {"Client", "Server"} <==>
                              client[state][name].transition.WriteTransition?
                                || server[state][name].transition.WriteTransition?)))
  {
    EdgeOf(protocol, "Client", state, name);
    EdgeOf(protocol, "Server", state, name);
    assert "Client" != "Server" by {
      assert "Client"[0] != "Server"[0];
    }
  }
}
