/**
 What the two translators accept and what the tree generators compile, said of
 the descriptions and actions themselves.
 */
module Acceptance {
  import opened Options
  import Octets
  import opened DataTypes
  import opened Translate
  import Values
  import opened Generation
  import opened Sending

  // ----- descriptions -----

  /** Every identifier has a literal right behind it. */
  predicate Punctuated(tokens: seq<TokenPart>) {
    forall i :: 0 <= i < |tokens| ==> Followed(tokens, i)
  }

  predicate Followed(tokens: seq<TokenPart>, i: nat)
    requires i < |tokens|
  {
    tokens[i].IdentifierReference? ==> i + 1 < |tokens| && tokens[i + 1].StringLiteral?
  }

  lemma {:induction false} TokensAccepted(tokens: seq<TokenPart>)
    ensures ReadTokens(tokens).Some? <==> Punctuated(tokens)
    decreases |tokens|
  {
    if tokens != [] {
      if tokens[0].StringLiteral? {
        TokensAccepted(tokens[1..]);
        Later(tokens, 1);
      } else if |tokens| > 1 && tokens[1].StringLiteral? {
        TokensAccepted(tokens[2..]);
        Later(tokens, 2);
      } else {
        assert !Followed(tokens, 0);
      }
    }
  }

  /** What is in front is complete, so only what is behind counts. */
  lemma Later(tokens: seq<TokenPart>, n: nat)
    requires 0 < n <= |tokens|
    requires forall i :: 0 <= i < n ==> Followed(tokens, i) && (tokens[i].IdentifierReference? ==> i + 1 < n)
    ensures Punctuated(tokens) <==> Punctuated(tokens[n..])
  {
    forall i | n <= i < |tokens| ensures Followed(tokens, i) <==> Followed(tokens[n..], i - n) {
      assert tokens[n..][i - n] == tokens[i];
      assert i + 1 < |tokens| ==> tokens[n..][i + 1 - n] == tokens[i + 1];
    }
    if Punctuated(tokens[n..]) {
      forall i | 0 <= i < |tokens| ensures Followed(tokens, i) {
        if i >= n { assert Followed(tokens[n..], i - n); }
      }
    }
    if Punctuated(tokens) {
      forall i | 0 <= i < |tokens| - n ensures Followed(tokens[n..], i) {
        assert Followed(tokens, i + n);
      }
    }
  }

  predicate IsTerminator(parts: seq<MessagePart>, i: int) {
    0 <= i < |parts| && parts[i].Terminator?
  }

  /** A sequence's own terminator, or the one behind it. */
  function TerminatorOf(parts: seq<MessagePart>, i: nat): Option<Octets.Bytes>
    requires i < |parts| && parts[i].TokenSequence?
  {
    if parts[i].terminator.None? && IsTerminator(parts, i + 1) then Some(parts[i + 1].value) else parts[i].terminator
  }

  /** What the reader needs of the part in place `i`. */
  predicate ReadablePart(parts: seq<MessagePart>, i: nat)
    requires i < |parts|
    decreases parts[i]
  {
    match parts[i]
    case Terminator(_) => i > 0 && !parts[i - 1].Terminator?
    case TokenSequence(tokens, terminator, _) =>
      var own := Terminated(tokens, TerminatorOf(parts, i));
      && own != [] && Punctuated(own)
      && (i + 1 == |parts| || (IsTerminator(parts, i + 1) && terminator.None?))
    case MessageForLoop(_, _, block) =>
      IsTerminator(parts, i + 1) && AllReadable(block)
  }

  predicate AllReadable(parts: seq<MessagePart>)
    decreases parts
  {
    forall i :: 0 <= i < |parts| ==> ReadablePart(parts, i)
  }

  /** Parts behind the first two need just what they need on their own. */
  lemma PartLater(parts: seq<MessagePart>, i: nat)
    requires 2 <= i < |parts| && parts[1].Terminator?
    ensures ReadablePart(parts, i) <==> ReadablePart(parts[2..], i - 2)
  {
    assert parts[2..][i - 2] == parts[i];
    assert i + 1 < |parts| ==> parts[2..][i + 1 - 2] == parts[i + 1];
    assert i > 2 ==> parts[2..][i - 1 - 2] == parts[i - 1];
  }

  lemma TwoParts(parts: seq<MessagePart>)
    requires |parts| > 1 && parts[1].Terminator?
    ensures AllReadable(parts) <==> ReadablePart(parts, 0) && AllReadable(parts[2..])
  {
    hide ReadablePart;
    if ReadablePart(parts, 0) && AllReadable(parts[2..]) {
      FirstIsNone(parts);
      forall i | 0 <= i < |parts| ensures ReadablePart(parts, i) {
        if i >= 2 { PartLater(parts, i); }
      }
    }
    if AllReadable(parts) {
      forall i | 0 <= i < |parts| - 2 ensures ReadablePart(parts[2..], i) {
        PartLater(parts, i + 2);
      }
    }
  }

  lemma FirstIsNone(parts: seq<MessagePart>)
    requires |parts| > 1 && parts[1].Terminator? && ReadablePart(parts, 0)
    ensures ReadablePart(parts, 1)
  {}

  /** The reader accepts exactly the descriptions all of whose parts are readable where they stand. */
  lemma {:induction false} ReaderAccepts(parts: seq<MessagePart>)
    ensures ReadActions(parts).Some? <==> AllReadable(parts)
    decreases parts
  {
    if parts != [] {
      if parts[0].TokenSequence? {
        TokensAccepted(Terminated(parts[0].tokens, TerminatorOf(parts, 0)));
      } else if parts[0].MessageForLoop? {
        ReaderAccepts(parts[0].block);
      }
      if |parts| > 1 && parts[1].Terminator? {
        ReaderAccepts(parts[2..]);
        TwoParts(parts);
      } else {
        assert AllReadable(parts) ==> ReadablePart(parts, 0);
      }
    }
  }

  // ----- the writer's side -----

  /** What the writer needs of the part in place `i`. */
  predicate WritablePart(parts: seq<MessagePart>, i: nat)
    requires i < |parts|
    decreases parts[i]
  {
    match parts[i]
    case Terminator(_) => true
    case TokenSequence(tokens, terminator, _) => tokens != [] || terminator.Some?
    case MessageForLoop(_, _, block) =>
      IsTerminator(parts, i + 1) && AllWritable(block)
  }

  predicate AllWritable(parts: seq<MessagePart>)
    decreases parts
  {
    forall i :: 0 <= i < |parts| ==> WritablePart(parts, i)
  }

  lemma WritableLater(parts: seq<MessagePart>, n: nat, i: nat)
    requires n <= i < |parts|
    ensures WritablePart(parts, i) <==> WritablePart(parts[n..], i - n)
  {
    assert parts[n..][i - n] == parts[i];
    assert i + 1 < |parts| ==> parts[n..][i + 1 - n] == parts[i + 1];
  }

  /** The first part, and a terminator right behind it, come off. */
  lemma FirstOff(parts: seq<MessagePart>, n: nat)
    requires 0 < n <= |parts| && n <= 2 && (n == 2 ==> parts[1].Terminator?)
    ensures AllWritable(parts) <==> WritablePart(parts, 0) && AllWritable(parts[n..])
  {
    if WritablePart(parts, 0) && AllWritable(parts[n..]) {
      forall i | 0 <= i < |parts| ensures WritablePart(parts, i) {
        if i >= n { WritableLater(parts, n, i); }
      }
    }
    if AllWritable(parts) {
      forall i | 0 <= i < |parts| - n ensures WritablePart(parts[n..], i) {
        WritableLater(parts, n, i + n);
      }
    }
  }

  /** The writer accepts exactly the descriptions all of whose parts are writable where they stand. */
  lemma {:induction false} WriterAccepts(parts: seq<MessagePart>)
    ensures WriteActions(parts).Some? <==> AllWritable(parts)
    decreases parts
  {
    if parts != [] {
      if parts[0].MessageForLoop? && (|parts| < 2 || !parts[1].Terminator?) {
        assert AllWritable(parts) ==> WritablePart(parts, 0);
      } else {
        var n := if parts[0].MessageForLoop? then 2 else 1;
        WriterAccepts(parts[n..]);
        FirstOff(parts, n);
        if parts[0].MessageForLoop? {
          WriterAccepts(parts[0].block);
        }
      }
    }
  }

  // ----- actions -----

  /** The type a field is declared with. */
  function FieldType(id: Identifier, types: Types): Option<DataType> {
    if id.name !in types then None
    else if id.member.None? then Some(types[id.name])
    else MemberType(types[id.name], id.member.value)
  }

  /** Integers and strings are all that goes over the wire. */
  predicate OnTheWire(id: Identifier, types: Types) {
    FieldType(id, types) == Some(IntType) || FieldType(id, types) == Some(StrType)
  }

  /** The action has a tree among readers, or among writers. */
  predicate Compiles(reading: bool, a: Action, types: Types)
    decreases a
  {
    match a
    case ReadStaticOctets(_) => reading
    case WriteStaticOctets(_) => !reading
    case ReadOctetsUntilTerminator(_, id, _) => reading && OnTheWire(id, types)
    case WriteFromIdentifier(id, _) => !reading && OnTheWire(id, types)
    case Loop(variable, collection, _, actions) =>
      && collection.name in types && "element_type" in Parameters(types[collection.name])
      && var inner := types[variable.name := Parameters(types[collection.name])["element_type"]];
      && (reading ==> collection.name in inner && inner[collection.name].ArrayType?
                      && inner[collection.name].element.TupleType?)
      && forall i :: 0 <= i < |actions| ==> Compiles(reading, actions[i], inner)
  }

  lemma {:induction false} LocateIff(t: DataType, id: Identifier, current: Values.Node)
    ensures Locate(t, id, current).Some? <==> MemberType(t, id).Some?
    ensures Locate(t, id, current).Some? ==> Locate(t, id, current).value.memberType == MemberType(t, id).value
    decreases id
  {
    if id.name in Parameters(t) && id.member.Some? {
      LocateIff(Parameters(t)[id.name], id.member.value, Values.Node(Values.DictionaryGet(id.name), [current]));
    }
  }

  lemma {:induction false} ActionCompiles(reading: bool, a: Action, types: Types)
    ensures (if reading then ReadNode(a, types).Some? else WriteNode(a, types).Some?) <==> Compiles(reading, a, types)
    decreases a, 0
  {
    match a
    case ReadStaticOctets(_) =>
    case WriteStaticOctets(_) =>
    case ReadOctetsUntilTerminator(_, id, _) =>
      if id.name in types && id.member.Some? {
        LocateIff(types[id.name], id.member.value, Values.Node(Values.LexicalPadGet(id.name), []));
      }
    case WriteFromIdentifier(id, _) =>
      if id.name in types && id.member.Some? {
        LocateIff(types[id.name], id.member.value, Values.Node(Values.LexicalPadGet(id.name), []));
      }
    case Loop(variable, collection, _, actions) =>
      if collection.name in types && "element_type" in Parameters(types[collection.name]) {
        ActionsCompileIff(reading, actions,
                          types[variable.name := Parameters(types[collection.name])["element_type"]]);
      }
  }

  lemma {:induction false} ActionsCompileIff(reading: bool, actions: seq<Action>, types: Types)
    ensures (if reading then ReadNodes(actions, types).Some? else WriteNodes(actions, types).Some?)
       <==> forall i :: 0 <= i < |actions| ==> Compiles(reading, actions[i], types)
    decreases actions, 1
  {
    if actions != [] {
      ActionCompiles(reading, actions[0], types);
      ActionsCompileIff(reading, actions[1..], types);
      assert forall i :: 0 <= i < |actions| - 1 ==> actions[1..][i] == actions[i + 1];
      if forall i :: 0 <= i < |actions| - 1 ==> Compiles(reading, actions[1..][i], types) {
        forall i | 1 <= i < |actions| ensures Compiles(reading, actions[i], types) {
          assert Compiles(reading, actions[1..][i - 1], types);
        }
      }
    }
  }

  /** A transition has a tree exactly when each of its actions has one. */
  lemma TransitionCompiles(reading: bool, actions: seq<Action>, types: Types)
    ensures TransitionTree(reading, actions, types).Some?
       <==> forall i :: 0 <= i < |actions| ==> Compiles(reading, actions[i], types)
  {
    ActionsCompileIff(reading, actions, types);
  }
}
