/** What a description says goes over the wire, against what its writer sends. */
module Descriptions {
  import opened Options
  import opened Octets
  import opened Escape
  import opened DataTypes
  import opened Translate
  import opened Values
  import opened Evaluator
  import opened Generation
  import opened Sending

  // ----- what a description says -----

  /** A text with every occurrence of the escaped character replaced. */
  function Replaced(text: Bytes, e: Option<EscapeInfo>): Option<Bytes> {
    match e
    case None => Some(text)
    case Some(EscapeInfo(character, sequence)) =>
      if character == [] then None else Some(Escaped(text, character, sequence))
  }

  function SpokenToken(token: TokenPart, e: Option<EscapeInfo>, types: Types, env: Environment): Option<Bytes> {
    match token
    case StringLiteral(octets) => Some(octets)
    case IdentifierReference(id) =>
      match FieldOctets(id, types, env)
      case None => None
      case Some(octets) => Replaced(octets, e)
  }

  function SpokenTokens(tokens: seq<TokenPart>, e: Option<EscapeInfo>, types: Types, env: Environment)
    : Option<Bytes>
  {
    if tokens == [] then Some([])
    else Both(SpokenToken(tokens[0], e, types, env), SpokenTokens(tokens[1..], e, types, env))
  }

  /**
   The octets of a message: literals as they are, fields with the escape of their
   sequence, the terminator behind its sequence, and a loop's elements, one after the
   other, before the loop's terminator.
   */
  function Spoken(parts: seq<MessagePart>, types: Types, env: Environment): Option<Bytes>
    decreases parts, 0
  {
    if parts == [] then Some([])
    else match parts[0]
      case Terminator(octets) => Both(Some(octets), Spoken(parts[1..], types, env))
      case TokenSequence(tokens, terminator, e) =>
        Both(Both(SpokenTokens(tokens, e, types, env), Some(if terminator.Some? then terminator.value else [])),
             Spoken(parts[1..], types, env))
      case MessageForLoop(variable, collection, block) =>
        if |parts| < 2 || !parts[1].Terminator? then None
        else Both(Both(SpokenLoop(variable, collection, block, types, env), Some(parts[1].value)),
                  Spoken(parts[2..], types, env))
  }

  function SpokenLoop(variable: Identifier, collection: Identifier, block: seq<MessagePart>, types: Types,
                      env: Environment): Option<Bytes>
    decreases block, 2, 0
  {
    match LoopTypes(types, variable.name, collection.name)
    case None => None
    case Some(inner) =>
      if collection.name !in env || !env[collection.name].DynamicList? || env[collection.name].values == [] then None
      else SpokenEach(block, inner, env, variable.name, env[collection.name].values, 0)
  }

  function SpokenEach(block: seq<MessagePart>, types: Types, env: Environment, variable: string, items: seq<Value>,
                      k: nat): Option<Bytes>
    decreases block, 1, if k < |items| then |items| - k else 0
  {
    if k >= |items| then Some([])
    else Both(Spoken(block, types, env[variable := items[k]]), SpokenEach(block, types, env, variable, items, k + 1))
  }

  // ----- and what its writer sends -----

  lemma BothAssociates(a: Option<Bytes>, b: Option<Bytes>, c: Option<Bytes>)
    ensures Both(Both(a, b), c) == Both(a, Both(b, c))
    ensures Both(a, Some([])) == a && Both(Some([]), a) == a
  {
    if a.Some? && b.Some? && c.Some? {
      assert a.value + b.value + c.value == a.value + (b.value + c.value);
    }
    if a.Some? {
      assert a.value + [] == a.value && [] + a.value == a.value;
    }
  }

  lemma {:induction false} SentConcat(a: seq<Action>, b: seq<Action>, types: Types, env: Environment)
    ensures SentAll(a + b, types, env) == Both(SentAll(a, types, env), SentAll(b, types, env))
    decreases |a|
  {
    hide Sent, Both;
    if a == [] {
      assert a + b == b;
      BothAssociates(SentAll(b, types, env), Some([]), Some([]));
    } else {
      assert (a + b)[1..] == a[1..] + b && (a + b)[0] == a[0];
      SentConcat(a[1..], b, types, env);
      BothAssociates(Sent(a[0], types, env), SentAll(a[1..], types, env), SentAll(b, types, env));
    }
  }

  lemma SentOne(a: Action, types: Types, env: Environment)
    ensures SentAll([a], types, env) == Sent(a, types, env)
  {
    hide Sent;
    assert [a][1..] == [];
    BothAssociates(Sent(a, types, env), Some([]), Some([]));
  }

  /** A token, with the escape, sends what it says. */
  lemma TokenSent(token: TokenPart, e: Option<EscapeInfo>, types: Types, env: Environment)
    ensures SentAll(WithEscape([WriteToken(token)], e), types, env) == SpokenToken(token, e, types, env)
  {
    var action := WithEscape([WriteToken(token)], e)[0];
    assert WithEscape([WriteToken(token)], e) == [action];
    SentOne(action, types, env);
  }

  lemma {:induction false} TokensSent(tokens: seq<TokenPart>, e: Option<EscapeInfo>, types: Types, env: Environment)
    ensures SentAll(WithEscape(WriteTokens(tokens), e), types, env) == SpokenTokens(tokens, e, types, env)
    decreases |tokens|
  {
    hide Sent, SpokenToken, Both;
    if tokens != [] {
      var first, more := [WriteToken(tokens[0])], WriteTokens(tokens[1..]);
      TokensSent(tokens[1..], e, types, env);
      TokenSent(tokens[0], e, types, env);
      WithEscapeConcat(first, more, e);
      SentConcat(WithEscape(first, e), WithEscape(more, e), types, env);
    } else {
      assert WithEscape([], e) == [];
    }
  }

  lemma {:induction false} TokensConcat(a: seq<TokenPart>, b: seq<TokenPart>, e: Option<EscapeInfo>, types: Types,
                                        env: Environment)
    ensures SpokenTokens(a + b, e, types, env) == Both(SpokenTokens(a, e, types, env), SpokenTokens(b, e, types, env))
    decreases |a|
  {
    hide SpokenToken, Both;
    if a == [] {
      assert a + b == b;
      BothAssociates(SpokenTokens(b, e, types, env), Some([]), Some([]));
    } else {
      assert (a + b)[1..] == a[1..] + b && (a + b)[0] == a[0];
      TokensConcat(a[1..], b, e, types, env);
      BothAssociates(SpokenToken(a[0], e, types, env), SpokenTokens(a[1..], e, types, env),
                     SpokenTokens(b, e, types, env));
    }
  }

  /** A sequence with its own terminator. */
  lemma SequenceSent(tokens: seq<TokenPart>, terminator: Option<Bytes>, e: Option<EscapeInfo>, types: Types,
                     env: Environment)
    requires WriteSequence(Terminated(tokens, terminator), e).Some?
    ensures SentAll(WriteSequence(Terminated(tokens, terminator), e).value, types, env)
         == Both(SpokenTokens(tokens, e, types, env), Some(if terminator.Some? then terminator.value else []))
  {
    hide Both;
    TokensSent(Terminated(tokens, terminator), e, types, env);
    BothAssociates(SpokenTokens(tokens, e, types, env), Some([]), Some([]));
    if terminator.Some? {
      var last := [StringLiteral(terminator.value)];
      TokensConcat(tokens, last, e, types, env);
      assert last[1..] == [];
      BothAssociates(SpokenToken(last[0], e, types, env), Some([]), Some([]));
    }
  }

  /** What the writer of a description sends for some data is what the description says, loops included. */
  lemma {:induction false} WriterSaysDescription(parts: seq<MessagePart>, types: Types, env: Environment)
    requires WriteActions(parts).Some?
    ensures SentAll(WriteActions(parts).value, types, env) == Spoken(parts, types, env)
    decreases parts, 0
  {
    hide Both;
    if parts != [] {
      match parts[0]
      case Terminator(octets) =>
        WriterSaysDescription(parts[1..], types, env);
        SentConcat([Action.WriteStaticOctets(octets)], WriteActions(parts[1..]).value, types, env);
        SentOne(Action.WriteStaticOctets(octets), types, env);
      case TokenSequence(tokens, terminator, e) =>
        WriterSaysDescription(parts[1..], types, env);
        SequenceSent(tokens, terminator, e, types, env);
        SentConcat(WriteSequence(Terminated(tokens, terminator), e).value, WriteActions(parts[1..]).value, types, env);
      case MessageForLoop(variable, collection, block) =>
        WriterSaysDescription(parts[2..], types, env);
        var loop := Loop(variable, collection, parts[1].value, WriteActions(block).value);
        LoopSaysDescription(parts[0], parts[1].value, types, env);
        SentConcat([loop], WriteActions(parts[2..]).value, types, env);
        SentOne(loop, types, env);
    }
  }

  lemma {:induction false} LoopSaysDescription(part: MessagePart, terminator: Bytes, types: Types, env: Environment)
    requires part.MessageForLoop? && WriteActions(part.block).Some?
    ensures Sent(Loop(part.variable, part.collection, terminator, WriteActions(part.block).value), types, env)
         == Both(SpokenLoop(part.variable, part.collection, part.block, types, env), Some(terminator))
    decreases part, 1
  {
    var inner := LoopTypes(types, part.variable.name, part.collection.name);
    if inner.Some? && part.collection.name in env && env[part.collection.name].DynamicList?
       && env[part.collection.name].values != [] {
      EachSaysDescription(part.block, inner.value, env, part.variable.name, env[part.collection.name].values, 0);
    }
  }

  lemma {:induction false} EachSaysDescription(block: seq<MessagePart>, types: Types, env: Environment,
                                               variable: string, items: seq<Value>, k: nat)
    requires WriteActions(block).Some?
    ensures SentEach(WriteActions(block).value, types, env, variable, items, k)
         == SpokenEach(block, types, env, variable, items, k)
    decreases block, 1, if k < |items| then |items| - k else 0
  {
    hide Both;
    if k < |items| {
      WriterSaysDescription(block, types, env[variable := items[k]]);
      EachSaysDescription(block, types, env, variable, items, k + 1);
    }
  }

  /** So the tree of a description's writer sends exactly what the description says. */
  lemma TreeSaysDescription(fuel: nat, parts: seq<MessagePart>, types: Types, env: Environment, pad: nat, w: World,
                            answers: Answers)
    requires WriteActions(parts).Some? && Spoken(parts, types, env).Some?
    requires Shows(w.pads, pad, env) && DepthOf(WriteActions(parts).value) <= fuel && !w.eof
    ensures TransitionTree(false, WriteActions(parts).value, types).Some?
    ensures var o := Eval(fuel, TransitionTree(false, WriteActions(parts).value, types).value, pad, w, answers);
            && Wrote(o, w, Spoken(parts, types, env).value)
            && o.value == DynamicList([Dictionary(w.pads[pad].names)])
  {
    hide Eval, TransitionTree, Spoken, SentAll;
    WriterSaysDescription(parts, types, env);
    TransitionTreeSends(fuel, WriteActions(parts).value, types, env, pad, w, answers);
  }

  // ----- one field with an escape -----

  /** A field, its terminator and its escape, in the description and in the actions of both sides. */
  lemma EscapedFieldActions(id: Identifier, t: Bytes, e: EscapeInfo)
    ensures var parts := [TokenSequence([IdentifierReference(id)], Some(t), Some(e))];
            && ReadActions(parts) == Some([Action.ReadOctetsUntilTerminator(t, id, Some(e))])
            && WriteActions(parts) == Some([WriteFromIdentifier(id, Some(e)), Action.WriteStaticOctets(t)])
  {
    var tokens := [IdentifierReference(id)];
    var terminated := tokens + [StringLiteral(t)];
    var parts := [TokenSequence(tokens, Some(t), Some(e))];
    assert parts[1..] == [] && terminated[1..] == [StringLiteral(t)] && terminated[2..] == [];
    var read := [Action.ReadOctetsUntilTerminator(t, id, None)];
    assert ReadTokens(terminated) == Chained(Some(read), ReadTokens([]));
    assert read + [] == read;
    assert WithEscape(read, Some(e)) == [Action.ReadOctetsUntilTerminator(t, id, Some(e))];
    assert WriteTokens(terminated[1..]) == [Action.WriteStaticOctets(t)];
    var write := [WriteFromIdentifier(id, None), Action.WriteStaticOctets(t)];
    assert WriteTokens(terminated) == write;
    var escaped := [WriteFromIdentifier(id, Some(e)), Action.WriteStaticOctets(t)];
    assert WithEscape(write, Some(e)) == escaped;
    assert escaped + [] == escaped;
  }
}
