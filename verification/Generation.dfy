/** Actions compiled into operation trees, and the trees of a whole program. */
module Generation {
  import opened Options
  import opened Octets
  import opened Escape
  import opened DataTypes
  import T = Translate
  import opened Values
  import Lookahead

  /** Where `recursive_variable_access` ends: the tree of the innermost dictionary, the member's name, and its type. */
  datatype Place = Place(holder: Node, member: string, memberType: DataType)

  /** One dictionary lookup per member name but the last. */
  function Locate(t: DataType, id: T.Identifier, current: Node): Option<Place>
    decreases id
  {
    if id.name !in Parameters(t) then None
    else
      var memberType := Parameters(t)[id.name];
      if id.member.None? then Some(Place(current, id.name, memberType))
      else if memberType.TupleType? then Locate(memberType, id.member.value, Node(DictionaryGet(id.name), [current]))
      else None
  }

  /** `write_octets_from_value` */
  function WriteValue(t: DataType, value: Node, e: Option<EscapeInfo>): Option<Node> {
    match t
    case IntType => Some(Node(WriteOctets(e), [Node(IntToAscii, [value])]))
    case StrType => Some(Node(WriteOctets(e), [value]))
    case _ => None
  }

  /** `read_value_from_octets` */
  function ReadValue(t: DataType, terminator: Bytes, e: Option<EscapeInfo>): Option<Node> {
    var octets := Node(ReadOctetsUntilTerminator(terminator, e), []);
    match t
    case IntType => Some(Node(ReadIntFromAscii, [octets]))
    case StrType => Some(octets)
    case _ => None
  }

  /** `create_get_type_wrapper`: the loop variable has the element type of the collection. */
  function LoopTypes(types: Types, variable: string, collection: string): Option<Types> {
    if collection !in types || "element_type" !in Parameters(types[collection]) then None
    else Some(types[variable := Parameters(types[collection])["element_type"]])
  }

  /** The tree of a write loop. */
  function WriteLoop(variable: string, collection: string, terminator: Bytes, body: seq<Node>): Node {
    Node(OpSequence, [WriteElements(variable, collection, body), Node(WriteStaticOctets(terminator), [])])
  }

  function WriteElements(variable: string, collection: string, body: seq<Node>): Node {
    var callable := Callable(Node(OpSequence, body), [variable], true);
    Node(FunctionCallForEach(true), [Node(StaticCallable(callable), []), Node(LexicalPadGet(collection), [])])
  }

  /** `visit_action` for a write transition. */
  function WriteNode(a: T.Action, types: Types): Option<Node>
    decreases a
  {
    match a
    case WriteStaticOctets(octets) => Some(Node(WriteStaticOctets(octets), []))
    case WriteFromIdentifier(id, e) =>
      if id.name !in types then None
      else
        var variable := Node(LexicalPadGet(id.name), []);
        if id.member.None? then WriteValue(types[id.name], variable, e)
        else
          (match Locate(types[id.name], id.member.value, variable)
           case None => None
           case Some(Place(holder, member, t)) => WriteValue(t, Node(DictionaryGet(member), [holder]), e))
    case Loop(variable, collection, terminator, actions) =>
      (match LoopTypes(types, variable.name, collection.name)
       case None => None
       case Some(inner) =>
         match WriteNodes(actions, inner)
         case None => None
         case Some(body) => Some(WriteLoop(variable.name, collection.name, terminator, body)))
    case _ => None
  }

  /** `actions_to_optreenodes` */
  function WriteNodes(actions: seq<T.Action>, types: Types): (r: Option<seq<Node>>)
    ensures r.Some? ==> |r.value| == |actions| && forall i :: 0 <= i < |actions| ==>
            WriteNode(actions[i], types) == Some(r.value[i])
    decreases actions
  {
    if actions == [] then Some([])
    else
      match WriteNode(actions[0], types)
      case None => None
      case Some(node) =>
        match WriteNodes(actions[1..], types)
        case None => None
        case Some(rest) => Some([node] + rest)
  }

  /** An element of a read loop: its variable, its actions, and its value unless the terminator is next. */
  function ElementNodes(variable: string, terminator: Bytes, body: seq<Node>): seq<Node> {
    [Node(LexicalPadInitialize(variable), [Node(DictionaryInitialize, [])]),
     Node(OpSequence, body),
     Node(TerminateListIfReadAhead(terminator), []),
     Node(LexicalPadGet(variable), [])]
  }

  function ReadElement(variable: string, terminator: Bytes, body: seq<Node>): Callable {
    Callable(Node(OpSequence, ElementNodes(variable, terminator, body)), [], true)
  }

  /** The list of the elements of a read loop. */
  function ReadElements(variable: string, terminator: Bytes, body: seq<Node>): Node {
    Node(GenerateList, [Node(StaticCallable(ReadElement(variable, terminator, body)), [])])
  }

  /** The tree of a read loop. */
  function ReadLoop(variable: string, collection: string, terminator: Bytes, body: seq<Node>): Node {
    Node(LexicalPadSet(collection), [ReadElements(variable, terminator, body)])
  }

  /** `initialize_loop_variable` has an initial value for tuples only. */
  predicate Initializes(types: Types, collection: string) {
    collection in types && types[collection].ArrayType? && types[collection].element.TupleType?
  }

  /** `visit_action` for a read transition. */
  function ReadNode(a: T.Action, types: Types): Option<Node>
    decreases a
  {
    match a
    case ReadStaticOctets(octets) => Some(Node(ReadStaticOctets(octets), []))
    case ReadOctetsUntilTerminator(terminator, id, e) =>
      if id.name !in types then None
      else if id.member.None? then
        (match ReadValue(types[id.name], terminator, e)
         case None => None
         case Some(value) => Some(Node(LexicalPadSet(id.name), [value])))
      else
        (match Locate(types[id.name], id.member.value, Node(LexicalPadGet(id.name), []))
         case None => None
         case Some(Place(holder, member, t)) =>
           match ReadValue(t, terminator, e)
           case None => None
           case Some(value) => Some(Node(LexicalPadSet(id.name), [Node(DictionarySet(member), [holder, value])])))
    case Loop(variable, collection, terminator, actions) =>
      (match LoopTypes(types, variable.name, collection.name)
       case None => None
       case Some(inner) =>
         match ReadNodes(actions, inner)
         case None => None
         case Some(body) =>
           if Initializes(inner, collection.name)
           then Some(ReadLoop(variable.name, collection.name, terminator, body))
           else None)
    case _ => None
  }

  /** `actions_to_optreenodes` */
  function ReadNodes(actions: seq<T.Action>, types: Types): (r: Option<seq<Node>>)
    ensures r.Some? ==> |r.value| == |actions| && forall i :: 0 <= i < |actions| ==>
            ReadNode(actions[i], types) == Some(r.value[i])
    decreases actions
  {
    if actions == [] then Some([])
    else
      match ReadNode(actions[0], types)
      case None => None
      case Some(node) =>
        match ReadNodes(actions[1..], types)
        case None => None
        case Some(rest) => Some([node] + rest)
  }

  /** `generate_transition_optree`: the operations, then the pad as the dictionary of the next state. */
  function TransitionTree(reading: bool, actions: seq<T.Action>, types: Types): Option<Node> {
    match if reading then ReadNodes(actions, types) else WriteNodes(actions, types)
    case None => None
    case Some(ops) => Some(Node(OpSequence, [Node(OpSequence, ops), Node(MakeList, [Node(LexicalPadAsDict, [])])]))
  }

  /** `generate_read_state_callback`: the message recognised, and the state's dictionary as its data. */
  function ReadAheadTree(rules: seq<Lookahead.Rule>): Node {
    Node(MakeList, [Node(TransitionLookahead(rules), []), Node(LexicalPadGet("dictionary"), [])])
  }

  /** The callback of a state whose messages the application chooses. */
  function AskTree(state: string): Node {
    Node(UnaryCallback(state), [Node(LexicalPadGet("dictionary"), [])])
  }

  /** `client` and `server` */
  function Program(states: StateMap): Node {
    Node(StateMachineOperation(states), [])
  }
}
