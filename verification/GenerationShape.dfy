/** Every tree the generators emit gives each operation of fixed arity its children. */
module GenerationShape {
  import opened Options
  import opened Octets
  import opened Escape
  import opened DataTypes
  import T = Translate
  import opened Values
  import opened Scope
  import opened Generation
  import Lookahead

  lemma LeafWellFormed(op: Operation)
    requires !Dynamic(op) && Arity(op) == 0 && !op.StaticCallable? && !op.StateMachineOperation?
    ensures WellFormed(Node(op, []))
  {}

  lemma UnaryWellFormed(op: Operation, child: Node)
    requires WellFormed(child) && !Dynamic(op) && Arity(op) <= 1 && !op.StaticCallable? && !op.StateMachineOperation?
    ensures WellFormed(Node(op, [child]))
  {}

  lemma SequenceWellFormed(op: Operation, children: seq<Node>)
    requires Dynamic(op) && forall i :: 0 <= i < |children| ==> WellFormed(children[i])
    ensures WellFormed(Node(op, children))
  {}

  lemma {:induction false} LocateWellFormed(t: DataType, id: T.Identifier, current: Node)
    requires WellFormed(current)
    ensures Locate(t, id, current).Some? ==> WellFormed(Locate(t, id, current).value.holder)
    decreases id
  {
    if id.name in Parameters(t) && id.member.Some? {
      UnaryWellFormed(DictionaryGet(id.name), current);
      LocateWellFormed(Parameters(t)[id.name], id.member.value, Node(DictionaryGet(id.name), [current]));
    }
  }

  lemma WriteValueWellFormed(t: DataType, value: Node, e: Option<EscapeInfo>)
    requires WellFormed(value) && WriteValue(t, value, e).Some?
    ensures WellFormed(WriteValue(t, value, e).value)
  {
    UnaryWellFormed(IntToAscii, value);
    UnaryWellFormed(WriteOctets(e), if t.IntType? then Node(IntToAscii, [value]) else value);
  }

  lemma ReadValueWellFormed(t: DataType, terminator: Bytes, e: Option<EscapeInfo>)
    requires ReadValue(t, terminator, e).Some?
    ensures WellFormed(ReadValue(t, terminator, e).value)
  {
    LeafWellFormed(ReadOctetsUntilTerminator(terminator, e));
    UnaryWellFormed(ReadIntFromAscii, Node(ReadOctetsUntilTerminator(terminator, e), []));
  }

  lemma WriteLoopWellFormed(variable: string, collection: string, terminator: Bytes, body: seq<Node>)
    requires forall i :: 0 <= i < |body| ==> WellFormed(body[i])
    ensures WellFormed(WriteLoop(variable, collection, terminator, body))
  {
    SequenceWellFormed(OpSequence, body);
    var callable := Node(StaticCallable(Callable(Node(OpSequence, body), [variable], true)), []);
    assert WellFormed(callable);
    LeafWellFormed(LexicalPadGet(collection));
    assert WellFormed(WriteElements(variable, collection, body));
    LeafWellFormed(WriteStaticOctets(terminator));
  }

  lemma ReadLoopWellFormed(variable: string, collection: string, terminator: Bytes, body: seq<Node>)
    requires forall i :: 0 <= i < |body| ==> WellFormed(body[i])
    ensures WellFormed(ReadLoop(variable, collection, terminator, body))
  {
    LeafWellFormed(DictionaryInitialize);
    UnaryWellFormed(LexicalPadInitialize(variable), Node(DictionaryInitialize, []));
    SequenceWellFormed(OpSequence, body);
    LeafWellFormed(TerminateListIfReadAhead(terminator));
    LeafWellFormed(LexicalPadGet(variable));
    var element := ReadLoop(variable, collection, terminator, body).children[0].children[0].op.callable.tree;
    SequenceWellFormed(OpSequence, element.children);
    var callable := Node(StaticCallable(Callable(element, [], true)), []);
    assert WellFormed(callable);
    UnaryWellFormed(GenerateList, callable);
    UnaryWellFormed(LexicalPadSet(collection), Node(GenerateList, [callable]));
  }

  lemma {:induction false} WriteNodeWellFormed(a: T.Action, types: Types)
    requires WriteNode(a, types).Some?
    ensures WellFormed(WriteNode(a, types).value)
    decreases a
  {
    match a
    case WriteStaticOctets(octets) =>
      LeafWellFormed(WriteStaticOctets(octets));
    case WriteFromIdentifier(id, e) =>
      var variable := Node(LexicalPadGet(id.name), []);
      LeafWellFormed(LexicalPadGet(id.name));
      if id.member.None? {
        WriteValueWellFormed(types[id.name], variable, e);
      } else {
        LocateWellFormed(types[id.name], id.member.value, variable);
        var place := Locate(types[id.name], id.member.value, variable).value;
        UnaryWellFormed(DictionaryGet(place.member), place.holder);
        WriteValueWellFormed(place.memberType, Node(DictionaryGet(place.member), [place.holder]), e);
      }
    case Loop(variable, collection, terminator, actions) =>
      var body := WriteNodes(actions, LoopTypes(types, variable.name, collection.name).value).value;
      forall i | 0 <= i < |actions| ensures WellFormed(body[i]) {
        WriteNodeWellFormed(actions[i], LoopTypes(types, variable.name, collection.name).value);
      }
      WriteLoopWellFormed(variable.name, collection.name, terminator, body);
  }

  lemma {:induction false} ReadNodeWellFormed(a: T.Action, types: Types)
    requires ReadNode(a, types).Some?
    ensures WellFormed(ReadNode(a, types).value)
    decreases a
  {
    match a
    case ReadStaticOctets(octets) =>
      LeafWellFormed(ReadStaticOctets(octets));
    case ReadOctetsUntilTerminator(terminator, id, e) =>
      ReadFieldWellFormed(terminator, id, e, types);
    case Loop(variable, collection, terminator, actions) =>
      var body := ReadNodes(actions, LoopTypes(types, variable.name, collection.name).value).value;
      forall i | 0 <= i < |actions| ensures WellFormed(body[i]) {
        ReadNodeWellFormed(actions[i], LoopTypes(types, variable.name, collection.name).value);
      }
      ReadLoopWellFormed(variable.name, collection.name, terminator, body);
  }

  lemma ReadFieldWellFormed(terminator: Bytes, id: T.Identifier, e: Option<EscapeInfo>, types: Types)
    requires ReadNode(T.ReadOctetsUntilTerminator(terminator, id, e), types).Some?
    ensures WellFormed(ReadNode(T.ReadOctetsUntilTerminator(terminator, id, e), types).value)
  {
    var variable := Node(LexicalPadGet(id.name), []);
    LeafWellFormed(LexicalPadGet(id.name));
    if id.member.None? {
      ReadValueWellFormed(types[id.name], terminator, e);
      UnaryWellFormed(LexicalPadSet(id.name), ReadValue(types[id.name], terminator, e).value);
    } else {
      LocateWellFormed(types[id.name], id.member.value, variable);
      var place := Locate(types[id.name], id.member.value, variable).value;
      ReadValueWellFormed(place.memberType, terminator, e);
      var value := ReadValue(place.memberType, terminator, e).value;
      assert WellFormed(Node(DictionarySet(place.member), [place.holder, value]));
      UnaryWellFormed(LexicalPadSet(id.name), Node(DictionarySet(place.member), [place.holder, value]));
    }
  }

  /** Every tree emitted for a transition, read or written, loops included. */
  lemma TransitionTreeWellFormed(reading: bool, actions: seq<T.Action>, types: Types)
    requires TransitionTree(reading, actions, types).Some?
    ensures WellFormed(TransitionTree(reading, actions, types).value)
  {
    var ops := (if reading then ReadNodes(actions, types) else WriteNodes(actions, types)).value;
    forall i | 0 <= i < |actions| ensures WellFormed(ops[i]) {
      if reading {
        ReadNodeWellFormed(actions[i], types);
      } else {
        WriteNodeWellFormed(actions[i], types);
      }
    }
    SequenceWellFormed(OpSequence, ops);
    LeafWellFormed(LexicalPadAsDict);
    SequenceWellFormed(MakeList, [Node(LexicalPadAsDict, [])]);
  }

  /** Both kinds of state callback. */
  lemma CallbackWellFormed(state: string, rules: seq<Lookahead.Rule>)
    ensures WellFormed(AskTree(state)) && WellFormed(ReadAheadTree(rules))
  {
    LeafWellFormed(LexicalPadGet("dictionary"));
    UnaryWellFormed(UnaryCallback(state), Node(LexicalPadGet("dictionary"), []));
    LeafWellFormed(TransitionLookahead(rules));
  }
}
