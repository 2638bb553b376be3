/** Which octets make a reading state of a generated program recognise which message. */
module Recognition {
  import opened Options
  import opened Octets
  import opened Translate
  import opened Analysis
  import opened Lookahead
  import opened StateMaps

  /** The octets can be the beginning of what the actions read: at least one more than the literal, or a terminator. */
  ghost predicate FirstRead(actions: seq<Action>, buffer: Bytes)
    decreases actions
  {
    actions != [] &&
    match actions[0]
    case ReadStaticOctets(octets) => octets < buffer
    case ReadOctetsUntilTerminator(terminator, _, _) => exists i: nat :: At(buffer, terminator, i)
    case Loop(_, _, _, body) => FirstRead(body, buffer)
    case _ => false
  }

  /** The message of this edge has begun: into Closed, the connection has ended with nothing left to read. */
  ghost predicate Begins(e: Edge, buffer: Bytes, eof: bool) {
    if e.target == "Closed" then buffer == [] && eof
    else e.transition.ReadTransition? && FirstRead(e.transition.actions, buffer)
  }

  lemma {:induction false} ActionMeans(actions: seq<Action>, buffer: Bytes, eof: bool)
    requires actions != [] && ActionCondition(actions[0]).Some?
    ensures Holds(Rule(ActionCondition(actions[0]).value, ""), buffer, eof) <==> FirstRead(actions, buffer)
    decreases actions
  {
    ConditionMeans(Rule(ActionCondition(actions[0]).value, ""), buffer, eof);
    if actions[0].Loop? {
      ActionMeans(actions[0].actions, buffer, eof);
    }
  }

  /** A message's condition holds exactly when the message has begun. */
  lemma ConditionHolds(e: Edge, rule: Rule, buffer: Bytes, eof: bool)
    requires ConditionOf(e) == Some(rule.condition)
    ensures Holds(rule, buffer, eof) <==> Begins(e, buffer, eof)
  {
    if e.target == "Closed" {
      ConditionMeans(rule, buffer, eof);
    } else {
      ActionMeans(e.transition.actions, buffer, eof);
    }
  }

  /** Some message can still begin, with more octets or at the end of file. */
  ghost predicate MayBegin(e: Edge, buffer: Bytes) {
    exists more: Bytes, eof: bool :: Begins(e, buffer + more, eof)
  }

  lemma MayHoldIsMayBegin(e: Edge, rule: Rule, buffer: Bytes)
    requires ConditionOf(e) == Some(rule.condition)
    ensures MayHold(rule, buffer) <==> MayBegin(e, buffer)
  {
    forall more: Bytes, eof: bool ensures Holds(rule, buffer + more, eof) <==> Begins(e, buffer + more, eof) {
      ConditionHolds(e, rule, buffer + more, eof);
    }
  }

  /**
   The decision of a reading state, on the octets ahead: a message that has begun, if
   one has; else a mismatch if none can begin any more; else it waits.
   */
  ghost predicate Recognises(state: State, buffer: Bytes, eof: bool, r: Result) {
    match r
    case Chosen(m) => m in state && Begins(state[m], buffer, eof)
    case ProtocolMismatch =>
      forall m :: m in state ==> !Begins(state[m], buffer, eof) && (!eof ==> !MayBegin(state[m], buffer))
    case WaitingForRead =>
      !eof && (forall m :: m in state ==> !Begins(state[m], buffer, eof))
      && exists m :: m in state && MayBegin(state[m], buffer)
  }

  lemma RuleOf(rules: seq<Rule>, state: State, m: string) returns (i: nat)
    requires RulesFor(rules, state, state.Keys) && m in state
    ensures i < |rules| && rules[i].message == m && ConditionOf(state[m]) == Some(rules[i].condition)
  {
    assert m in MessagesOf(rules);
    var rule :| rule in rules && rule.message == m;
    i :| 0 <= i < |rules| && rules[i] == rule;
    assert RuleFits(rules[i], state);
  }

  lemma RuleMeans(rules: seq<Rule>, state: State, i: nat, buffer: Bytes, eof: bool)
    requires RulesFor(rules, state, state.Keys) && i < |rules|
    ensures rules[i].message in state
    ensures Holds(rules[i], buffer, eof) <==> Begins(state[rules[i].message], buffer, eof)
    ensures !eof ==> (Dead(rules[i], buffer, eof) <==> !MayBegin(state[rules[i].message], buffer))
    ensures eof ==> Holds(rules[i], buffer, eof) || Dead(rules[i], buffer, eof)
  {
    assert RuleFits(rules[i], state);
    ConditionHolds(state[rules[i].message], rules[i], buffer, eof);
    MayHoldIsMayBegin(state[rules[i].message], rules[i], buffer);
    DeadMeans(rules[i], buffer);
  }

  /** What a generated lookahead decides is what the messages of its state say. */
  lemma GeneratedRecognises(rules: seq<Rule>, state: State, buffer: Bytes, eof: bool)
    requires RulesFor(rules, state, state.Keys)
    ensures Recognises(state, buffer, eof, Decision(rules, buffer, eof))
  {
    hide ConditionOf, Begins, MayBegin, MatchCondition;
    var r := Decision(rules, buffer, eof);
    forall i | 0 <= i < |rules| {
      RuleMeans(rules, state, i, buffer, eof);
    }
    if !r.Chosen? {
      forall m | m in state
        ensures !Begins(state[m], buffer, eof)
        ensures r.ProtocolMismatch? && !eof ==> !MayBegin(state[m], buffer)
      {
        var i := RuleOf(rules, state, m);
      }
    }
  }

  /** No two messages of the state begin with the same octets. */
  ghost predicate Unambiguous(state: State) {
    forall a, b, buffer ::
      a in state && b in state && Begins(state[a], buffer, false) && Begins(state[b], buffer, false) ==> a == b
  }

  /** Then the message chosen before the end of file is the one that has begun. */
  lemma ChoosesWhatBegins(rules: seq<Rule>, state: State, m: string, buffer: Bytes)
    requires RulesFor(rules, state, state.Keys) && Unambiguous(state) && m in state
    ensures Decision(rules, buffer, false) == Chosen(m) <==> Begins(state[m], buffer, false)
  {
    hide Decision;
    GeneratedRecognises(rules, state, buffer, false);
    hide Begins, MayBegin;
    if Begins(state[m], buffer, false) {
      var r := Decision(rules, buffer, false);
      assert r.Chosen?;
      assert Begins(state[r.message], buffer, false);
    }
  }

  /** And the rules exclude each other. */
  lemma UnambiguousExclusive(rules: seq<Rule>, state: State)
    requires RulesFor(rules, state, state.Keys) && Unambiguous(state)
    ensures Exclusive(rules)
  {
    forall i, j, buffer | && 0 <= i < |rules| && 0 <= j < |rules|
                          && Holds(rules[i], buffer, false) && Holds(rules[j], buffer, false)
      ensures i == j
    {
      RuleMeans(rules, state, i, buffer, false);
      RuleMeans(rules, state, j, buffer, false);
      assert rules[i].message == rules[j].message;
    }
  }

  /** States whose messages each begin with a literal, none of them a beginning of another. */
  ghost predicate Literals(state: State, literals: map<string, Bytes>) {
    && literals.Keys == state.Keys
    && (forall m :: m in state ==>
          && state[m].target != "Closed" && state[m].transition.ReadTransition? && state[m].transition.actions != []
          && state[m].transition.actions[0] == ReadStaticOctets(literals[m]))
    && (forall a, b :: a in state && b in state && a != b ==> !(literals[a] <= literals[b]))
  }

  /** Such a state recognises a message, even at the end of file, exactly by its literal and an octet more. */
  lemma LiteralRecognised(rules: seq<Rule>, state: State, literals: map<string, Bytes>, m: string, buffer: Bytes,
                          eof: bool)
    requires RulesFor(rules, state, state.Keys) && Literals(state, literals) && m in state
    ensures Decision(rules, buffer, eof) == Chosen(m) <==> literals[m] < buffer
  {
    hide Decision;
    GeneratedRecognises(rules, state, buffer, eof);
    assert Begins(state[m], buffer, eof) <==> literals[m] < buffer;
    var r := Decision(rules, buffer, eof);
    if r.Chosen? {
      assert literals[r.message] < buffer;
      if literals[m] < buffer && r.message != m {
        BothPrefixes(literals[m], literals[r.message], buffer);
      }
    }
  }
}
