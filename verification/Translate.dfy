/** Message parts compiled into read actions and into write actions. */
module Translate {
  import opened Options
  import opened Octets
  import opened Escape

  datatype Identifier = Identifier(name: string, member: Option<Identifier>)

  datatype TokenPart = StringLiteral(value: Bytes) | IdentifierReference(id: Identifier)

  datatype MessagePart =
    | TokenSequence(tokens: seq<TokenPart>, terminator: Option<Bytes>, escape: Option<EscapeInfo>)
    | Terminator(value: Bytes)
    | MessageForLoop(variable: Identifier, collection: Identifier, block: seq<MessagePart>)

  datatype Action =
    | ReadStaticOctets(octets: Bytes)
    | ReadOctetsUntilTerminator(terminator: Bytes, identifier: Identifier, escape: Option<EscapeInfo>)
    | WriteStaticOctets(octets: Bytes)
    | WriteFromIdentifier(identifier: Identifier, escape: Option<EscapeInfo>)
    | Loop(variable: Identifier, collection: Identifier, terminator: Bytes, actions: seq<Action>)

  /** Both halves must accept. */
  function Chained(a: Option<seq<Action>>, b: Option<seq<Action>>): Option<seq<Action>> {
    if a.Some? && b.Some? then Some(a.value + b.value) else None
  }

  // ----- escapes -----

  function Escaping(a: Action, e: EscapeInfo): Action {
    if a.ReadOctetsUntilTerminator? || a.WriteFromIdentifier? then a.(escape := Some(e)) else a
  }

  function WithEscape(actions: seq<Action>, e: Option<EscapeInfo>): (r: seq<Action>)
    ensures |r| == |actions|
    ensures forall i :: 0 <= i < |r| ==> r[i] == if e.Some? then Escaping(actions[i], e.value) else actions[i]
  {
    if e.None? || actions == [] then actions
    else [Escaping(actions[0], e.value)] + WithEscape(actions[1..], e)
  }

  /**
   The rewriting of the action vector, in place: the actions on an identifier get the
   escape and keep the rest, and no other action changes.
   */
  method ApplyEscapeToActions(actions: array<Action>, e: EscapeInfo)
    modifies actions
    ensures forall i :: 0 <= i < actions.Length ==>
              match old(actions[i])
              case ReadOctetsUntilTerminator(t, id, _) => actions[i] == ReadOctetsUntilTerminator(t, id, Some(e))
              case WriteFromIdentifier(id, _) => actions[i] == WriteFromIdentifier(id, Some(e))
              case _ => actions[i] == old(actions[i])
    ensures actions[..] == WithEscape(old(actions[..]), Some(e))
  {
    for i := 0 to actions.Length
      invariant forall k :: 0 <= k < i ==> actions[k] == Escaping(old(actions[k]), e)
      invariant forall k :: i <= k < actions.Length ==> actions[k] == old(actions[k])
    {
      actions[i] := Escaping(actions[i], e);
    }
  }

  // ----- token sequences -----

  /** A literal is read as it is; an identifier needs the literal behind it to know where to stop. */
  function ReadTokens(tokens: seq<TokenPart>): Option<seq<Action>>
    decreases |tokens|
  {
    if tokens == [] then Some([])
    else match tokens[0]
      case StringLiteral(value) => Chained(Some([ReadStaticOctets(value)]), ReadTokens(tokens[1..]))
      case IdentifierReference(id) =>
        if |tokens| > 1 && tokens[1].StringLiteral?
        then Chained(Some([ReadOctetsUntilTerminator(tokens[1].value, id, None)]), ReadTokens(tokens[2..]))
        else None
  }

  function WriteToken(token: TokenPart): Action {
    match token
    case StringLiteral(value) => WriteStaticOctets(value)
    case IdentifierReference(id) => WriteFromIdentifier(id, None)
  }

  function WriteTokens(tokens: seq<TokenPart>): (r: seq<Action>)
    ensures |r| == |tokens|
  {
    if tokens == [] then [] else [WriteToken(tokens[0])] + WriteTokens(tokens[1..])
  }

  /** An empty token sequence is not one. */
  function ReadSequence(tokens: seq<TokenPart>, e: Option<EscapeInfo>): Option<seq<Action>> {
    match ReadTokens(tokens)
    case None => None
    case Some(actions) => if tokens == [] then None else Some(WithEscape(actions, e))
  }

  function WriteSequence(tokens: seq<TokenPart>, e: Option<EscapeInfo>): Option<seq<Action>> {
    if tokens == [] then None else Some(WithEscape(WriteTokens(tokens), e))
  }

  /** The tokens with the embedded terminator behind them. */
  function Terminated(tokens: seq<TokenPart>, terminator: Option<Bytes>): seq<TokenPart> {
    if terminator.Some? then tokens + [StringLiteral(terminator.value)] else tokens
  }

  // ----- part sequences -----

  /** `parts_to_read_actions` */
  function ReadActions(parts: seq<MessagePart>): Option<seq<Action>>
    decreases parts
  {
    if parts == [] then Some([])
    else match parts[0]
      case Terminator(_) => None
      case TokenSequence(tokens, terminator, escape) =>
        if |parts| == 1 then ReadSequence(Terminated(tokens, terminator), escape)
        else if parts[1].Terminator? && terminator.None? then
          Chained(ReadSequence(Terminated(tokens, Some(parts[1].value)), escape), ReadActions(parts[2..]))
        else None
      case MessageForLoop(variable, collection, block) =>
        if |parts| > 1 && parts[1].Terminator? then
          match ReadActions(block)
          case None => None
          case Some(body) => Chained(Some([Loop(variable, collection, parts[1].value, body)]), ReadActions(parts[2..]))
        else None
  }

  /** `parts_to_write_actions` */
  function WriteActions(parts: seq<MessagePart>): Option<seq<Action>>
    decreases parts
  {
    if parts == [] then Some([])
    else match parts[0]
      case Terminator(value) => Chained(Some([WriteStaticOctets(value)]), WriteActions(parts[1..]))
      case TokenSequence(tokens, terminator, escape) =>
        Chained(WriteSequence(Terminated(tokens, terminator), escape), WriteActions(parts[1..]))
      case MessageForLoop(variable, collection, block) =>
        if |parts| > 1 && parts[1].Terminator? then
          match WriteActions(block)
          case None => None
          case Some(body) => Chained(Some([Loop(variable, collection, parts[1].value, body)]), WriteActions(parts[2..]))
        else None
  }

  // ----- duality -----

  /** What a writer must put on the wire for a reader's action to find. */
  function Expand(actions: seq<Action>): seq<Action> {
    if actions == [] then [] else ExpandOne(actions[0]) + Expand(actions[1..])
  }

  function ExpandOne(a: Action): seq<Action> {
    match a
    case ReadStaticOctets(octets) => [WriteStaticOctets(octets)]
    case ReadOctetsUntilTerminator(t, id, e) => [WriteFromIdentifier(id, e), WriteStaticOctets(t)]
    case Loop(variable, collection, t, body) => [Loop(variable, collection, t, Expand(body))]
    case _ => [a]
  }

  lemma {:induction false} ExpandConcat(a: seq<Action>, b: seq<Action>)
    ensures Expand(a + b) == Expand(a) + Expand(b)
    decreases |a|
  {
    if a == [] {
      assert a + b == b;
    } else {
      assert (a + b)[1..] == a[1..] + b;
      ExpandConcat(a[1..], b);
    }
  }

  lemma {:induction false} WriteTokensConcat(a: seq<TokenPart>, b: seq<TokenPart>)
    ensures WriteTokens(a + b) == WriteTokens(a) + WriteTokens(b)
    decreases |a|
  {
    if a == [] {
      assert a + b == b;
    } else {
      assert (a + b)[1..] == a[1..] + b;
      WriteTokensConcat(a[1..], b);
    }
  }

  lemma WithEscapeConcat(a: seq<Action>, b: seq<Action>, e: Option<EscapeInfo>)
    ensures WithEscape(a + b, e) == WithEscape(a, e) + WithEscape(b, e)
  {}

  lemma EscapedLiteral(value: Bytes, e: Option<EscapeInfo>)
    ensures Expand(WithEscape([ReadStaticOctets(value)], e)) == WithEscape(WriteTokens([StringLiteral(value)]), e)
  {
    var read, write := ReadStaticOctets(value), WriteStaticOctets(value);
    assert WithEscape([read], e) == [read];
    assert WithEscape([write], e) == [write];
    assert WriteTokens([StringLiteral(value)]) == [write];
    assert Expand([read]) == [write] + Expand([read][1..]);
  }

  lemma EscapedField(id: Identifier, value: Bytes, e: Option<EscapeInfo>)
    ensures Expand(WithEscape([ReadOctetsUntilTerminator(value, id, None)], e))
            == WithEscape(WriteTokens([IdentifierReference(id), StringLiteral(value)]), e)
  {
    var tokens := [IdentifierReference(id), StringLiteral(value)];
    assert tokens[1..] == [StringLiteral(value)];
    var write := [WriteFromIdentifier(id, None), WriteStaticOctets(value)];
    assert WriteTokens(tokens) == write;
    assert WithEscape(write, e) == [WriteFromIdentifier(id, e), WriteStaticOctets(value)];
    var read := ReadOctetsUntilTerminator(value, id, e);
    assert WithEscape([ReadOctetsUntilTerminator(value, id, None)], e) == [read];
    assert Expand([read]) == ExpandOne(read) + Expand([read][1..]);
  }

  /** Two accepted halves that are dual are dual together. */
  lemma DualConcat(read: seq<Action>, tokens: seq<TokenPart>, more: seq<Action>, rest: seq<TokenPart>,
                   e: Option<EscapeInfo>)
    requires Expand(WithEscape(read, e)) == WithEscape(WriteTokens(tokens), e)
    requires Expand(WithEscape(more, e)) == WithEscape(WriteTokens(rest), e)
    ensures Expand(WithEscape(read + more, e)) == WithEscape(WriteTokens(tokens + rest), e)
  {
    WithEscapeConcat(read, more, e);
    ExpandConcat(WithEscape(read, e), WithEscape(more, e));
    WriteTokensConcat(tokens, rest);
    WithEscapeConcat(WriteTokens(tokens), WriteTokens(rest), e);
  }

  /** Expanding and escaping a reader's tokens gives the writer's. */
  lemma {:induction false} TokensDual(tokens: seq<TokenPart>, e: Option<EscapeInfo>)
    requires ReadTokens(tokens).Some?
    ensures Expand(WithEscape(ReadTokens(tokens).value, e)) == WithEscape(WriteTokens(tokens), e)
    decreases |tokens|
  {
    if tokens == [] {
      assert WithEscape([], e) == [];
    } else if tokens[0].StringLiteral? {
      var value := tokens[0].value;
      TokensDual(tokens[1..], e);
      EscapedLiteral(value, e);
      DualConcat([ReadStaticOctets(value)], [tokens[0]], ReadTokens(tokens[1..]).value, tokens[1..], e);
      assert tokens == [tokens[0]] + tokens[1..];
    } else {
      var id, value := tokens[0].id, tokens[1].value;
      TokensDual(tokens[2..], e);
      EscapedField(id, value, e);
      DualConcat([ReadOctetsUntilTerminator(value, id, None)], [tokens[0], tokens[1]], ReadTokens(tokens[2..]).value,
                 tokens[2..], e);
      assert tokens == [tokens[0], tokens[1]] + tokens[2..];
    }
  }

  lemma SequenceDual(tokens: seq<TokenPart>, e: Option<EscapeInfo>)
    requires ReadSequence(tokens, e).Some?
    ensures WriteSequence(tokens, e).Some?
    ensures Expand(ReadSequence(tokens, e).value) == WriteSequence(tokens, e).value
  {
    TokensDual(tokens, e);
  }

  /** A terminator block behind a token sequence is written as the literal the reader waits for. */
  lemma BlockDual(tokens: seq<TokenPart>, t: Bytes, e: Option<EscapeInfo>)
    requires ReadSequence(Terminated(tokens, Some(t)), e).Some? && tokens != []
    ensures Expand(ReadSequence(Terminated(tokens, Some(t)), e).value)
            == WriteSequence(tokens, e).value + [WriteStaticOctets(t)]
  {
    SequenceDual(Terminated(tokens, Some(t)), e);
    WriteTokensConcat(tokens, [StringLiteral(t)]);
    WithEscapeConcat(WriteTokens(tokens), WriteTokens([StringLiteral(t)]), e);
    assert WriteTokens([StringLiteral(t)]) == [WriteStaticOctets(t)];
    assert WithEscape([WriteStaticOctets(t)], e) == [WriteStaticOctets(t)];
  }

  lemma ExpandLoop(variable: Identifier, collection: Identifier, t: Bytes, body: seq<Action>, more: seq<Action>)
    ensures Expand([Loop(variable, collection, t, body)] + more)
            == [Loop(variable, collection, t, Expand(body))] + Expand(more)
  {
    var loop := Loop(variable, collection, t, body);
    assert ([loop] + more)[1..] == more;
    assert ExpandOne(loop) == [Loop(variable, collection, t, Expand(body))];
  }

  /** What the writer makes of a token sequence and the terminator block behind it. */
  lemma WriteBlock(parts: seq<MessagePart>)
    requires |parts| > 1 && parts[0].TokenSequence? && parts[0].terminator.None? && parts[1].Terminator?
    ensures WriteActions(parts).Some? <==> parts[0].tokens != [] && WriteActions(parts[2..]).Some?
    ensures WriteActions(parts).Some? ==>
              WriteActions(parts).value == WriteSequence(parts[0].tokens, parts[0].escape).value
                + [WriteStaticOctets(parts[1].value)] + WriteActions(parts[2..]).value
  {
    assert parts[1..][1..] == parts[2..];
    assert WriteActions(parts[1..]) == Chained(Some([WriteStaticOctets(parts[1].value)]), WriteActions(parts[2..]));
    assert WriteActions(parts) == Chained(WriteSequence(parts[0].tokens, parts[0].escape), WriteActions(parts[1..]));
    if WriteActions(parts).Some? {
      var first, t := WriteSequence(parts[0].tokens, parts[0].escape).value, [WriteStaticOctets(parts[1].value)];
      var more := WriteActions(parts[2..]).value;
      assert first + (t + more) == first + t + more;
    }
  }

  /** The two compilations of one description are dual: what is written is what the reader's actions wait for. */
  lemma {:induction false} ReadWriteDual(parts: seq<MessagePart>)
    requires ReadActions(parts).Some? && WriteActions(parts).Some?
    ensures Expand(ReadActions(parts).value) == WriteActions(parts).value
    decreases parts
  {
    if parts == [] {
    } else if parts[0].MessageForLoop? {
      var part := parts[0];
      ReadWriteDual(part.block);
      ReadWriteDual(parts[2..]);
      ExpandLoop(part.variable, part.collection, parts[1].value, ReadActions(part.block).value,
                 ReadActions(parts[2..]).value);
    } else if |parts| == 1 {
      SequenceDual(Terminated(parts[0].tokens, parts[0].terminator), parts[0].escape);
      assert parts[1..] == [];
      var write := WriteSequence(Terminated(parts[0].tokens, parts[0].terminator), parts[0].escape).value;
      assert write + [] == write;
    } else {
      WriteBlock(parts);
      BlockDual(parts[0].tokens, parts[1].value, parts[0].escape);
      ReadWriteDual(parts[2..]);
      ExpandConcat(ReadSequence(Terminated(parts[0].tokens, Some(parts[1].value)), parts[0].escape).value,
                   ReadActions(parts[2..]).value);
    }
  }

  /** Some token sequence, at some depth, is empty and has no terminator of its own. */
  predicate HasSilentSequence(parts: seq<MessagePart>)
    decreases parts
  {
    parts != [] && (Silent(parts[0]) || HasSilentSequence(parts[1..]))
  }

  predicate Silent(part: MessagePart)
    decreases part
  {
    match part
    case TokenSequence(tokens, terminator, _) => tokens == [] && terminator.None?
    case Terminator(_) => false
    case MessageForLoop(_, _, block) => HasSilentSequence(block)
  }

  /**
   The reader also accepts an empty token sequence before a terminator block,
   which the writer rejects; on everything else it accepts they agree.
   */
  lemma {:induction false} WriterAcceptsWhatReaderDoes(parts: seq<MessagePart>)
    requires ReadActions(parts).Some?
    ensures WriteActions(parts).Some? <==> !HasSilentSequence(parts)
    decreases parts
  {
    if parts == [] {
    } else if parts[0].MessageForLoop? {
      WriterAcceptsWhatReaderDoes(parts[0].block);
      WriterAcceptsWhatReaderDoes(parts[2..]);
      assert parts[1..][1..] == parts[2..];
      assert HasSilentSequence(parts[1..]) <==> HasSilentSequence(parts[2..]);
      assert HasSilentSequence(parts) <==> HasSilentSequence(parts[0].block) || HasSilentSequence(parts[1..]);
    } else if |parts| == 1 {
      SequenceDual(Terminated(parts[0].tokens, parts[0].terminator), parts[0].escape);
      assert parts[1..] == [];
    } else {
      WriteBlock(parts);
      WriterAcceptsWhatReaderDoes(parts[2..]);
      assert parts[1..][1..] == parts[2..];
      assert HasSilentSequence(parts[1..]) <==> HasSilentSequence(parts[2..]);
    }
  }

  /** One such description. */
  lemma ReaderAcceptsSilentSequence(t: Bytes)
    ensures var parts := [TokenSequence([], None, None), Terminator(t)];
            ReadActions(parts) == Some([ReadStaticOctets(t)]) && WriteActions(parts).None?
  {
    var parts := [TokenSequence([], None, None), Terminator(t)];
    assert Terminated([], Some(t)) == [StringLiteral(t)];
    var tokens := [StringLiteral(t)];
    assert tokens[1..] == [];
    assert ReadTokens(tokens) == Chained(Some([ReadStaticOctets(t)]), ReadTokens([]));
    assert [ReadStaticOctets(t)] + [] == [ReadStaticOctets(t)];
    assert ReadTokens([StringLiteral(t)]) == Some([ReadStaticOctets(t)]);
    assert WithEscape([ReadStaticOctets(t)], None) == [ReadStaticOctets(t)];
    assert parts[2..] == [];
    assert ReadActions(parts) == Chained(Some([ReadStaticOctets(t)]), Some([]));
  }
}
