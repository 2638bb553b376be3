/** From an agent's automaton to the state map its state machine runs on. */
module StateMaps {
  import opened Options
  import opened DataTypes
  import opened Translate
  import opened Analysis
  import opened Lookahead
  import opened Generation
  import Values

  type StateMap = Values.StateMap
  type StateInfo = Values.StateInfo
  type TransitionInfo = Values.TransitionInfo

  function ActionCondition(a: Action): Option<Condition> {
    match a
    case ReadOctetsUntilTerminator(terminator, _, _) => Some(UntilTerminator(terminator))
    case ReadStaticOctets(octets) => Some(StaticString(octets))
    case Loop(_, _, _, actions) => if actions != [] then ActionCondition(actions[0]) else None
    case _ => None
  }

  function ConditionOf(e: Edge): Option<Condition> {
    if e.target == "Closed" then Some(EndOfFile)
    else if e.transition.ReadTransition? && e.transition.actions != [] then ActionCondition(e.transition.actions[0])
    else None
  }

  function MessagesOf(rules: seq<Rule>): set<string> {
    set rule | rule in rules :: rule.message
  }

  predicate RuleFits(rule: Rule, state: State) {
    rule.message in state && ConditionOf(state[rule.message]) == Some(rule.condition)
  }

  /** One rule for each transition named, in some order. */
  ghost predicate RulesFor(rules: seq<Rule>, state: State, names: set<string>) {
    && MessagesOf(rules) == names
    && (forall i, j :: 0 <= i < j < |rules| ==> rules[i].message != rules[j].message)
    && (forall i :: 0 <= i < |rules| ==> RuleFits(rules[i], state))
  }

  lemma RulesAppend(rules: seq<Rule>, state: State, names: set<string>, rule: Rule)
    requires RulesFor(rules, state, names) && RuleFits(rule, state) && rule.message !in names
    ensures RulesFor(rules + [rule], state, names + {rule.message})
  {
    var more := rules + [rule];
    forall i, j | 0 <= i < j < |more| ensures more[i].message != more[j].message {
      assert more[i] in rules;
    }
    forall m | m in names + {rule.message} ensures m in MessagesOf(more) {
      assert rule in more;
      if m != rule.message {
        var r :| r in rules && r.message == m;
        assert r in more;
      }
    }
  }

  lemma RulesAgree(rules: seq<Rule>, state: State)
    requires RulesFor(rules, state, state.Keys)
    ensures forall name :: name in state ==> ConditionOf(state[name]).Some?
    ensures rules == [] <==> state == map[]
  {
    forall name | name in state ensures ConditionOf(state[name]).Some? {
      assert name in MessagesOf(rules);
      var rule :| rule in rules && rule.message == name;
    }
    if rules != [] {
      assert RuleFits(rules[0], state);
    } else {
      assert state.Keys == {};
    }
  }

  lemma {:induction false} RulesOfSome(state: State, names: set<string>) returns (rules: seq<Rule>)
    requires names <= state.Keys && forall name :: name in names ==> ConditionOf(state[name]).Some?
    ensures RulesFor(rules, state, names)
    decreases |names|
  {
    rules := [];
    if names != {} {
      var name :| name in names;
      var rule := Rule(ConditionOf(state[name]).value, name);
      rules := RulesOfSome(state, names - {name});
      RulesAppend(rules, state, names - {name}, rule);
      assert names - {name} + {name} == names;
      rules := rules + [rule];
    }
  }

  /** A state whose transitions all have a condition has its rules. */
  lemma RulesExist(state: State)
    requires forall name :: name in state ==> ConditionOf(state[name]).Some?
    ensures exists rules :: RulesFor(rules, state, state.Keys)
  {
    var rules := RulesOfSome(state, state.Keys);
  }

  method GenerateReadStateCallback(state: State) returns (r: Option<seq<Rule>>)
    ensures r.Some? <==> state != map[] && forall name :: name in state ==> ConditionOf(state[name]).Some?
    ensures r.Some? ==> RulesFor(r.value, state, state.Keys)
  {
    var rules: seq<Rule> := [];
    var left := state.Keys;
    while left != {}
      invariant left <= state.Keys && RulesFor(rules, state, state.Keys - left)
      decreases |left|
    {
      var name :| name in left;
      var condition := ConditionOf(state[name]);
      if condition.None? {
        return None;
      }
      RulesAppend(rules, state, state.Keys - left, Rule(condition.value, name));
      assert state.Keys - left + {name} == state.Keys - (left - {name});
      rules := rules + [Rule(condition.value, name)];
      left := left - {name};
    }
    assert state.Keys - left == state.Keys;
    RulesAgree(rules, state);
    if rules == [] {
      return None;
    }
    return Some(rules);
  }

  ghost predicate Writing(state: State) {
    exists name :: name in state && state[name].transition.WriteTransition?
  }

  /** The tree of a transition, if its actions can be compiled. */
  function TreeOf(t: Transition): Option<Values.Node> {
    TransitionTree(t.ReadTransition?, t.actions, t.data.types)
  }

  /** Every transition can be compiled, and all of them read or all of them write. */
  ghost predicate Coherent(state: State) {
    && (forall name :: name in state ==> TreeOf(state[name].transition).Some?)
    && (forall a, b :: a in state && b in state ==>
          (state[a].transition.WriteTransition? <==> state[b].transition.WriteTransition?))
  }

  /** `generate_transition_info` */
  function InfoOf(e: Edge): TransitionInfo
    requires TreeOf(e.transition).Some?
  {
    Values.TransitionInfo(TreeOf(e.transition).value, e.transition.data.names, e.target)
  }

  ghost function InfosOf(state: State): map<string, TransitionInfo>
    requires Coherent(state)
  {
    map name | name in state :: InfoOf(state[name])
  }

  /** The inner loop: the transitions of one state, and whether they write. */
  method ConstructTransitions(state: State)
    returns (infos: map<string, TransitionInfo>, kind: Option<bool>, ok: bool)
    ensures ok <==> Coherent(state)
    ensures ok ==> infos == InfosOf(state)
    ensures ok ==> (kind == Some(true) <==> Writing(state)) && (kind.None? <==> state == map[])
  {
    hide TreeOf, InfoOf;
    infos, kind, ok := map[], None, true;
    var left := state.Keys;
    while left != {}
      invariant left <= state.Keys && infos.Keys == state.Keys - left
      invariant forall name :: name in infos ==>
                  TreeOf(state[name].transition).Some? && infos[name] == InfoOf(state[name])
                  && kind == Some(state[name].transition.WriteTransition?)
      invariant kind.None? <==> infos == map[]
      invariant ok
      decreases |left|
    {
      var name :| name in left;
      var t := state[name].transition;
      if TreeOf(t).None? {
        ok := false;
        return;
      }
      ghost var before := infos;
      infos := infos[name := InfoOf(state[name])];
      assert name in infos;
      if kind.Some? {
        if kind.value != t.WriteTransition? {
          ok := false;
          ghost var other :| other in before;
          assert other in state && name in state;
          return;
        }
      } else {
        kind := Some(t.WriteTransition?);
      }
      left := left - {name};
    }
    if state != map[] {
      var name :| name in state;
      assert name in infos;
    }
  }

  ghost predicate Acceptable(name: string, state: State) {
    && Coherent(state)
    && (name != "Closed" && !Writing(state) ==>
          state != map[] && forall m :: m in state ==> ConditionOf(state[m]).Some?)
  }

  /** What was generated for a state: its transitions, and the callback that reads ahead or asks. */
  ghost predicate Generated(info: StateInfo, name: string, state: State) {
    && Coherent(state) && info.transitions == InfosOf(state)
    && if name != "Closed" && !Writing(state)
       then exists rules :: RulesFor(rules, state, state.Keys) && info.tree == ReadAheadTree(rules)
       else info.tree == AskTree(name)
  }

  /** Whether a state's callback asks the application, and whether it looks at what was sent. */
  predicate Asks(info: StateInfo) {
    info.tree.op.UnaryCallback?
  }

  predicate ReadsAhead(info: StateInfo) {
    info.tree.op.MakeList?
  }

  /** States that mix reads and writes, and states other than Closed with no way out, are rejected. */
  method ConstructStateMap(states: Agent) returns (r: Option<StateMap>)
    ensures r.Some? <==> states != map[] && forall s :: s in states ==> Acceptable(s, states[s])
    ensures r.Some? ==> r.value.Keys == states.Keys && forall s :: s in states ==> Generated(r.value[s], s, states[s])
  {
    hide TreeOf, InfoOf, InfosOf, Coherent, RulesFor, ConditionOf, Writing;
    var stateMap: StateMap := map[];
    var left := states.Keys;
    while left != {}
      invariant left <= states.Keys && stateMap.Keys == states.Keys - left
      invariant forall s :: s in stateMap ==> Acceptable(s, states[s]) && Generated(stateMap[s], s, states[s])
      decreases |left|
    {
      var name :| name in left;
      var state := states[name];
      var infos, kind, ok := ConstructTransitions(state);
      if !ok {
        return None;
      }
      var tree := AskTree(name);
      if name != "Closed" && kind != Some(true) {
        var rules := GenerateReadStateCallback(state);
        if rules.None? {
          return None;
        }
        tree := ReadAheadTree(rules.value);
      }
      stateMap := stateMap[name := Values.StateInfo(tree, infos)];
      left := left - {name};
    }
    if stateMap == map[] {
      return None;
    }
    return Some(stateMap);
  }
}
