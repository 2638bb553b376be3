/** The client and the server of one protocol, joined by two queues of messages. */
module Session {
  import opened Options
  import opened Analysis
  import opened StateMaps
  import opened Deployment
  import opened Octets
  import Values
  import StateMachine

  // ----- runs -----

  /** One party: the state it is in and the messages it has sent or received, in order. */
  datatype Party = Party(state: string, log: seq<string>)

  /** The queues hold the messages sent and not yet received. */
  datatype System = System(client: Party, server: Party, toServer: seq<string>, toClient: seq<string>)

  function Swap(a: System): System {
    System(a.server, a.client, a.toClient, a.toServer)
  }

  predicate Offers(m: StateMap, state: string, name: string) {
    state in m && state != "Closed" && name in m[state].transitions
  }

  function Moved(m: StateMap, p: Party, name: string): Party
    requires Offers(m, p.state, name)
  {
    Party(m[p.state].transitions[name].target, p.log + [name])
  }

  /** The client sends a message its application chose. */
  ghost predicate ClientSends(client: StateMap, a: System, b: System, name: string) {
    && Offers(client, a.client.state, name) && Asks(client[a.client.state])
    && b == a.(client := Moved(client, a.client, name), toServer := a.toServer + [name])
  }

  /** The client takes the first message sent to it. */
  ghost predicate ClientReceives(client: StateMap, a: System, b: System) {
    && a.toClient != [] && Offers(client, a.client.state, a.toClient[0]) && ReadsAhead(client[a.client.state])
    && b == a.(client := Moved(client, a.client, a.toClient[0]), toClient := a.toClient[1..])
  }

  ghost predicate ClientSteps(client: StateMap, a: System, b: System) {
    ClientReceives(client, a, b) || exists name :: ClientSends(client, a, b, name)
  }

  ghost predicate Next(client: StateMap, server: StateMap, a: System, b: System) {
    ClientSteps(client, a, b) || ClientSteps(server, Swap(a), Swap(b))
  }

  ghost predicate Run(client: StateMap, server: StateMap, run: seq<System>) {
    && run != [] && run[0] == System(Party("Open", []), Party("Open", []), [], [])
    && forall i :: 0 <= i < |run| - 1 ==> Next(client, server, run[i], run[i + 1])
  }

  // ----- the invariant -----

  /** Where the messages still under way lead a party that has yet to receive them from a sender with map `m`. */
  function Replay(m: StateMap, state: string, names: seq<string>): Option<string>
    decreases |names|
  {
    if names == [] then Some(state)
    else if Offers(m, state, names[0]) && Asks(m[state])
    then Replay(m, m[state].transitions[names[0]].target, names[1..])
    else None
  }

  lemma {:induction false} ReplayAppend(m: StateMap, state: string, names: seq<string>, name: string)
    requires Replay(m, state, names).Some?
    ensures var reached := Replay(m, state, names).value;
            Offers(m, reached, name) && Asks(m[reached]) ==>
              Replay(m, state, names + [name]) == Some(m[reached].transitions[name].target)
    decreases |names|
  {
    if names == [] {
      assert ([] + [name])[1..] == [];
    } else {
      assert (names + [name])[1..] == names[1..] + [name];
      ReplayAppend(m, m[state].transitions[names[0]].target, names[1..], name);
    }
  }

  /** The client is as far as the server or ahead of it, by exactly the messages on their way to the server. */
  ghost predicate ClientAhead(client: StateMap, a: System) {
    && a.toClient == []
    && Replay(client, a.server.state, a.toServer) == Some(a.client.state)
    && a.client.log == a.server.log + a.toServer
  }

  ghost predicate Invariant(client: StateMap, server: StateMap, a: System) {
    && a.client.state in client && a.server.state in client
    && (ClientAhead(client, a) || ClientAhead(server, Swap(a)))
  }

  /** Level parties are each as far as the other. */
  lemma Level(client: StateMap, server: StateMap, a: System)
    requires a.toServer == [] && a.toClient == []
    ensures ClientAhead(client, a) <==> ClientAhead(server, Swap(a))
  {
    assert a.server.log + [] == a.server.log && a.client.log + [] == a.client.log;
  }

  /** A party that has messages to receive is about to read, and knows the first of them. */
  lemma BehindReads(client: StateMap, server: StateMap, a: System)
    requires Dual(client, server) && ClientAhead(client, a) && a.toServer != [] && a.server.state in client
    ensures Offers(server, a.server.state, a.toServer[0]) && ReadsAhead(server[a.server.state])
  {
    assert DualState(client, server, a.server.state);
  }

  lemma SendKeeps(client: StateMap, server: StateMap, a: System, b: System, name: string)
    requires Dual(client, server) && Invariant(client, server, a) && ClientSends(client, a, b, name)
    ensures Invariant(client, server, b) && ClientAhead(client, b)
  {
    assert DualState(client, server, a.client.state);
    if a.toClient != [] {
      BehindReads(server, client, Swap(a));
      assert false;
    } else if a.toServer == [] {
      Level(client, server, a);
    }
    ReplayAppend(client, a.server.state, a.toServer, name);
    assert a.server.log + a.toServer + [name] == a.server.log + (a.toServer + [name]);
  }

  lemma ReceiveKeeps(client: StateMap, server: StateMap, a: System, b: System)
    requires Dual(client, server) && Invariant(client, server, a) && ClientReceives(client, a, b)
    ensures Invariant(client, server, b) && ClientAhead(server, Swap(b))
  {
    assert DualState(client, server, a.client.state);
    assert a.toClient == [a.toClient[0]] + a.toClient[1..];
    assert a.client.log + a.toClient == a.client.log + [a.toClient[0]] + a.toClient[1..];
  }

  lemma ClientStepKeeps(client: StateMap, server: StateMap, a: System, b: System)
    requires Dual(client, server) && Invariant(client, server, a) && ClientSteps(client, a, b)
    ensures Invariant(client, server, b)
  {
    if ClientReceives(client, a, b) {
      ReceiveKeeps(client, server, a, b);
    } else {
      var name :| ClientSends(client, a, b, name);
      SendKeeps(client, server, a, b, name);
    }
  }

  lemma {:induction false} RunKeeps(client: StateMap, server: StateMap, run: seq<System>)
    requires Dual(client, server) && "Open" in client && Run(client, server, run)
    ensures Invariant(client, server, run[|run| - 1])
    decreases |run|
  {
    if |run| == 1 {
      assert ClientAhead(client, run[0]);
    } else {
      var before := run[..|run| - 1];
      RunKeeps(client, server, before);
      var a, b := before[|before| - 1], run[|run| - 1];
      assert Next(client, server, run[|run| - 2], run[|run| - 2 + 1]);
      if ClientSteps(client, a, b) {
        ClientStepKeeps(client, server, a, b);
      } else {
        DualSymmetric(client, server);
        ClientStepKeeps(server, client, Swap(a), Swap(b));
      }
    }
  }

  // ----- the theorems -----

  ghost predicate Safe(client: StateMap, server: StateMap, a: System) {
    && (a.toServer == [] || a.toClient == [])
    && (a.toClient == [] ==> ClientAhead(client, a))
    && (a.toServer == [] ==> ClientAhead(server, Swap(a)))
    && (a.toServer != [] ==> Offers(server, a.server.state, a.toServer[0]) && ReadsAhead(server[a.server.state]))
    && (a.toClient != [] ==> Offers(client, a.client.state, a.toClient[0]) && ReadsAhead(client[a.client.state]))
  }

  lemma InvariantIsSafe(client: StateMap, server: StateMap, a: System)
    requires Dual(client, server) && Dual(server, client) && Invariant(client, server, a)
    ensures Safe(client, server, a)
  {
    if a.toServer == [] && a.toClient == [] {
      Level(client, server, a);
    } else if a.toServer != [] {
      BehindReads(client, server, a);
    } else {
      BehindReads(server, client, Swap(a));
    }
  }

  /**
   Session safety: in every run at most one queue holds messages, the party
   behind reaches the other's state and log by receiving them, and what it
   finds first is a message its state reads.
   */
  lemma SessionSafety(protocol: Protocol, client: StateMap, server: StateMap, run: seq<System>)
    requires Deployed(protocol, client, server) && "Open" in client
    requires TwoParty(protocol)
    requires Run(client, server, run)
    ensures Safe(client, server, run[|run| - 1])
  {
    DeployedIsDual(protocol, client, server);
    SafeRun(client, server, run);
  }

  lemma SafeRun(client: StateMap, server: StateMap, run: seq<System>)
    requires Dual(client, server) && "Open" in client && Run(client, server, run)
    ensures Safe(client, server, run[|run| - 1])
  {
    DualSymmetric(client, server);
    RunKeeps(client, server, run);
    InvariantIsSafe(client, server, run[|run| - 1]);
  }

  ghost predicate Finished(a: System) {
    a.client.state == "Closed" && a.server.state == "Closed" && a.toServer == [] && a.toClient == []
  }

  /** A party that has something to receive can receive it. */
  lemma ServerCanReceive(client: StateMap, server: StateMap, a: System)
    requires Dual(client, server) && ClientAhead(client, a) && a.toServer != [] && a.server.state in client
    ensures exists b :: Next(client, server, a, b)
  {
    BehindReads(client, server, a);
    var b := a.(server := Moved(server, a.server, a.toServer[0]), toServer := a.toServer[1..]);
    assert ClientReceives(server, Swap(a), Swap(b));
    assert Next(client, server, a, b);
  }

  lemma ClientCanSend(client: StateMap, server: StateMap, a: System)
    requires a.client.state in client && a.client.state != "Closed"
    requires Asks(client[a.client.state]) && client[a.client.state].transitions != map[]
    ensures exists b :: Next(client, server, a, b)
  {
    var name :| name in client[a.client.state].transitions;
    var b := a.(client := Moved(client, a.client, name), toServer := a.toServer + [name]);
    assert ClientSends(client, a, b, name);
    assert Next(client, server, a, b);
  }

  lemma NextSwaps(client: StateMap, server: StateMap, a: System)
    requires exists b :: Next(server, client, Swap(a), b)
    ensures exists b :: Next(client, server, a, b)
  {
    var b :| Next(server, client, Swap(a), b);
    assert Swap(Swap(a)) == a && Swap(Swap(b)) == b;
    assert Next(client, server, a, Swap(b));
  }

  ghost predicate CanStep(client: StateMap, server: StateMap, a: System) {
    exists b :: Next(client, server, a, b)
  }

  lemma InvariantProgresses(client: StateMap, server: StateMap, a: System)
    requires Dual(client, server) && Dual(server, client) && Invariant(client, server, a)
    ensures CanStep(client, server, a) <==> !Finished(a)
  {
    if a.toServer != [] {
      ServerCanReceive(client, server, a);
    } else if a.toClient != [] {
      ServerCanReceive(server, client, Swap(a));
      NextSwaps(client, server, a);
    } else {
      Level(client, server, a);
      var s := a.client.state;
      assert a.server.state == s;
      if s != "Closed" {
        assert DualState(client, server, s);
        if Asks(client[s]) {
          ClientCanSend(client, server, a);
        } else {
          ClientCanSend(server, client, Swap(a));
          NextSwaps(client, server, a);
        }
      }
    }
  }

  /** Progress: some party can step exactly when the session has not finished. */
  lemma SessionProgress(protocol: Protocol, client: StateMap, server: StateMap, run: seq<System>)
    requires Deployed(protocol, client, server) && "Open" in client
    requires TwoParty(protocol)
    requires Run(client, server, run)
    ensures CanStep(client, server, run[|run| - 1]) <==> !Finished(run[|run| - 1])
  {
    DeployedIsDual(protocol, client, server);
    ProgressOfRun(client, server, run);
  }

  lemma ProgressOfRun(client: StateMap, server: StateMap, run: seq<System>)
    requires Dual(client, server) && "Open" in client && Run(client, server, run)
    ensures CanStep(client, server, run[|run| - 1]) <==> !Finished(run[|run| - 1])
  {
    DualSymmetric(client, server);
    RunKeeps(client, server, run);
    InvariantProgresses(client, server, run[|run| - 1]);
  }

  /** A state whose messages belong to neither party is a deadlock. */
  lemma StrangersBlock(protocol: Protocol, client: StateMap, server: StateMap, a: System)
    requires BothOwn(protocol, client, server)
    requires a.toServer == [] && a.toClient == [] && a.client.state == a.server.state != "Closed"
    requires a.client.state in client
    requires forall m :: m in protocol && protocol[m].whenState == a.client.state ==>
             protocol[m].agent !in {"Client", "Server"}
    ensures !CanStep(client, server, a)
  {
    var s := a.client.state;
    assert Owns(protocol, "Client", s, client[s]) && Owns(protocol, "Server", s, server[s]);
    var x :| x in client[s].transitions;
    var y :| y in server[s].transitions;
  }

  const Start := System(Party("Open", []), Party("Open", []), [], [])

  /**
   Such protocols are deployed: one message of a third agent, and both parties wait
   for it from the start.
   */
  lemma StrangersAreDeployed(agent: string, word: Bytes) returns (client: StateMap, server: StateMap)
    requires agent !in {"Client", "Server"}
    ensures Deployed(Farewell(agent, word), client, server) && !TwoParty(Farewell(agent, word))
    ensures Run(client, server, [Start]) && !CanStep(client, server, Start) && !Finished(Start)
  {
    var protocol := Farewell(agent, word);
    FarewellDeploys(agent, word);
    client := BuiltMap(AgentOf(protocol, TransitionsOf(protocol, "Client")));
    server := BuiltMap(AgentOf(protocol, TransitionsOf(protocol, "Server")));
    assert Deployed(protocol, client, server);
    assert protocol["quit"].agent == agent && protocol["quit"].whenState == "Open";
    assert "Open" in StateNames(protocol);
    DeployedOwns(protocol, client, server);
    StrangersBlock(protocol, client, server, Start);
    assert "Open"[0] != "Closed"[0];
  }

  /** An automaton the generator accepts has a state map. */
  lemma BuiltMap(agent: Agent) returns (states: StateMap)
    requires Generates(agent)
    ensures BuiltFrom(states, agent)
  {
    states := map s | s in agent :: GeneratedFor(s, agent[s]);
  }

  // ----- the state machines behind the parties -----

  /** The state a party is in after a log, if every message of it was on offer. */
  function Reached(m: StateMap, log: seq<string>): Option<string> {
    if log == [] then Some("Open")
    else
      var before := Reached(m, log[..|log| - 1]);
      var name := log[|log| - 1];
      if before.Some? && Offers(m, before.value, name) then Some(m[before.value].transitions[name].target) else None
  }

  /** The states it went through. */
  function StatesOf(m: StateMap, log: seq<string>): seq<string>
    requires Reached(m, log).Some?
  {
    (if log == [] then [] else StatesOf(m, log[..|log| - 1])) + [Reached(m, log).value]
  }

  lemma MovedReaches(m: StateMap, p: Party, name: string)
    requires Reached(m, p.log) == Some(p.state) && Offers(m, p.state, name)
    ensures Reached(m, Moved(m, p, name).log) == Some(Moved(m, p, name).state)
  {
    assert (p.log + [name])[..|p.log|] == p.log;
  }

  lemma StepReaches(client: StateMap, a: System, b: System)
    requires ClientSteps(client, a, b) && Reached(client, a.client.log) == Some(a.client.state)
    ensures Reached(client, b.client.log) == Some(b.client.state) && b.server == a.server
  {
    if ClientReceives(client, a, b) {
      MovedReaches(client, a.client, a.toClient[0]);
    } else {
      var name :| ClientSends(client, a, b, name);
      MovedReaches(client, a.client, name);
    }
  }

  lemma {:induction false} PartiesReach(client: StateMap, server: StateMap, run: seq<System>)
    requires Run(client, server, run)
    ensures var end := run[|run| - 1];
            && Reached(client, end.client.log) == Some(end.client.state)
            && Reached(server, end.server.log) == Some(end.server.state)
    decreases |run|
  {
    if |run| > 1 {
      var before := run[..|run| - 1];
      PartiesReach(client, server, before);
      var a, b := before[|before| - 1], run[|run| - 1];
      assert Next(client, server, run[|run| - 2], run[|run| - 2 + 1]);
      hide Reached;
      if ClientSteps(client, a, b) {
        StepReaches(client, a, b);
      } else {
        StepReaches(server, Swap(a), Swap(b));
      }
    }
  }

  /** What the callbacks of a state and of a transition answer when a message is taken. */
  function Taking(name: string): seq<Values.Value> {
    [Values.DynamicList([Values.Text(OctetsOf(name)), Values.Dictionary(map[])]),
     Values.DynamicList([Values.Dictionary(map[])])]
  }

  function AnswersFor(log: seq<string>): seq<Values.Value> {
    if log == [] then [] else AnswersFor(log[..|log| - 1]) + Taking(log[|log| - 1])
  }

  ghost predicate Targeted(m: StateMap) {
    forall s, name :: s in m && s != "Closed" && name in m[s].transitions ==> m[s].transitions[name].target in m
  }

  /** The machine is calling the callback of `state`. */
  ghost predicate CallsState(m: StateMap, p: StateMachine.Phase, state: string) {
    && p.Active? && StateMachine.Calling(p.ctx) && state in m
    && p.ctx.info.value.mode.InState? && p.ctx.info.value.toState == (state, m[state])
  }

  /** The machine is calling the callback of a transition into `state`. */
  ghost predicate CallsTransition(m: StateMap, p: StateMachine.Phase, state: string) {
    && p.Active? && StateMachine.Calling(p.ctx) && state in m
    && p.ctx.info.value.mode.InTransition? && p.ctx.info.value.transition.Some?
    && p.ctx.info.value.toState == (state, m[state])
  }

  /** The state's callback chooses a message. */
  lemma ChoiceRuns(m: StateMap, answers: seq<Values.Value>, next: seq<Values.Value>, state: string, name: string)
    requires Targeted(m) && Offers(m, state, name) && CallsState(m, StateMachine.After(m, answers), state)
    requires next != [] && next[..|next| - 1] == answers
    requires var v := next[|next| - 1];
             StateMachine.Chooses(v) && NameOf(v.values[0].data) == name
    ensures CallsTransition(m, StateMachine.After(m, next), m[state].transitions[name].target)
    ensures StateMachine.Visited(m, next) == StateMachine.Visited(m, answers)
  {
    assert m[state].transitions[name].target in m;
    hide NameOf, StateMachine.ExtractArguments, Targeted;
  }

  /** The transition's callback hands a dictionary on. */
  lemma HandOnRuns(m: StateMap, answers: seq<Values.Value>, next: seq<Values.Value>, state: string)
    requires CallsTransition(m, StateMachine.After(m, answers), state)
    requires next != [] && next[..|next| - 1] == answers
    requires next[|next| - 1] == Values.DynamicList([Values.Dictionary(map[])])
    ensures CallsState(m, StateMachine.After(m, next), state)
    ensures StateMachine.Visited(m, next) == StateMachine.Visited(m, answers) + [state]
  {}

  /** Taking one message. */
  lemma MessageRuns(m: StateMap, answers: seq<Values.Value>, state: string, name: string)
    requires Targeted(m) && Offers(m, state, name) && IsOctets(name)
    requires CallsState(m, StateMachine.After(m, answers), state)
    ensures var target := m[state].transitions[name].target;
            && CallsState(m, StateMachine.After(m, answers + Taking(name)), target)
            && StateMachine.Visited(m, answers + Taking(name)) == StateMachine.Visited(m, answers) + [target]
  {
    NameRoundTrip(name);
    hide NameOf, OctetsOf, StateMachine.After, StateMachine.Visited, Targeted, IsOctets;
    var first, second := answers + [Taking(name)[0]], answers + Taking(name);
    assert first[..|first| - 1] == answers && second[..|second| - 1] == first;
    ChoiceRuns(m, answers, first, state, name);
    HandOnRuns(m, first, second, m[state].transitions[name].target);
  }

  lemma {:induction false} LogRuns(m: StateMap, log: seq<string>)
    requires Targeted(m) && "Open" in m && Reached(m, log).Some?
    requires forall i :: 0 <= i < |log| ==> IsOctets(log[i])
    ensures CallsState(m, StateMachine.After(m, AnswersFor(log)), Reached(m, log).value)
    ensures StateMachine.Visited(m, AnswersFor(log)) == StatesOf(m, log)
    decreases |log|
  {
    if log != [] {
      var before := log[..|log| - 1];
      LogRuns(m, before);
      MessageRuns(m, AnswersFor(before), Reached(m, before).value, log[|log| - 1]);
    }
  }

  /**
   The parties are the two state machine operations: in every run the states each
   went through are those whose callbacks its operation calls, for some answers, and
   it is now calling the callback of the state the party is in.
   */
  lemma PartiesAreStateMachines(client: StateMap, server: StateMap, run: seq<System>)
    returns (clientAnswers: seq<Values.Value>, serverAnswers: seq<Values.Value>)
    requires Dual(client, server) && "Open" in client && Run(client, server, run)
    requires var end := run[|run| - 1];
             forall name :: name in end.client.log + end.server.log ==> IsOctets(name)
    ensures var end := run[|run| - 1];
            && Reached(client, end.client.log).Some? && Reached(server, end.server.log).Some?
            && CallsState(client, StateMachine.After(client, clientAnswers), end.client.state)
            && StateMachine.Visited(client, clientAnswers) == StatesOf(client, end.client.log)
            && CallsState(server, StateMachine.After(server, serverAnswers), end.server.state)
            && StateMachine.Visited(server, serverAnswers) == StatesOf(server, end.server.log)
  {
    var end := run[|run| - 1];
    PartiesReach(client, server, run);
    forall s | s in client && s != "Closed" ensures DualState(client, server, s) {}
    DualSymmetric(client, server);
    forall s | s in server && s != "Closed" ensures DualState(server, client, s) {}
    LogRuns(client, end.client.log);
    LogRuns(server, end.server.log);
    clientAnswers, serverAnswers := AnswersFor(end.client.log), AnswersFor(end.server.log);
  }
}
