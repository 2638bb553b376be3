/** Values, operation trees, lexical pads and the operations that only compute. */
module Values {
  import opened Options
  import opened Octets
  import opened Escape
  import Lookahead

  datatype RuntimeError = TypeError | NameError | ProtocolMismatchError

  datatype Callable = Callable(tree: Node, names: seq<string>, inherits: bool)

  datatype Value =
    | Bool(flag: bool)
    | Int(number: int)
    | Dictionary(members: map<string, Value>)
    | Code(callable: Callable)
    | Error(error: RuntimeError)
    | InterruptGenerator
    | DynamicList(values: seq<Value>)
    | Text(data: Bytes)

  /** A node of an operation tree. */
  datatype Node = Node(op: Operation, children: seq<Node>)

  datatype Arithmetic = Add | Subtract | Multiply | Eq | LesserEqual

  datatype Operation =
    // operations that only compute
    | Binary(kind: Arithmetic)
    | Int32Literal(literal: int)
    | IntToAscii
    | StaticCallable(callable: Callable)
    | DictionaryInitialize
    | DictionaryGet(key: string)
    | DictionarySet(key: string)
    // operations on the pad of their frame
    | LexicalPadGet(name: string)
    | LexicalPadSet(name: string)
    | LexicalPadInitialize(name: string)
    | LexicalPadInitializeGlobal(name: string)
    | LexicalPadAsDict
    // operations over all their children
    | OpSequence
    | MakeList
    // control flow
    | If
    | FunctionCall
    | FunctionCallForEach(elementIsSingleArgument: bool)
    | GenerateList
    | StateMachineOperation(states: StateMap)
    // the outside world
    | UnaryCallback(callbackKey: string)
    | WriteStaticOctets(contents: Bytes)
    | WriteOctets(escape: Option<EscapeInfo>)
    | ReadStaticOctets(contents: Bytes)
    | ReadOctetsUntilTerminator(terminator: Bytes, escape: Option<EscapeInfo>)
    | ReadIntFromAscii
    | TerminateListIfReadAhead(terminator: Bytes)
    | TransitionLookahead(rules: seq<Lookahead.Rule>)

  /** What runs on a transition, the names of its arguments, and where it leads. */
  datatype TransitionInfo = TransitionInfo(tree: Node, argumentNames: seq<string>, target: string)

  /** What runs in a state, and its transitions by message name. */
  datatype StateInfo = StateInfo(tree: Node, transitions: map<string, TransitionInfo>)

  type StateMap = map<string, StateInfo>

  /** `DynamicInputOperationConcept` */
  predicate Dynamic(op: Operation) {
    op.OpSequence? || op.MakeList?
  }

  /** `ControlFlowOperationConcept` */
  predicate ControlFlow(op: Operation) {
    op.If? || op.FunctionCall? || op.FunctionCallForEach? || op.GenerateList? || op.StateMachineOperation?
  }

  /** `InputOutputOperationConcept`, the writing half. */
  predicate Writes(op: Operation) {
    op.WriteStaticOctets? || op.WriteOctets?
  }

  /** `InputOutputOperationConcept`, the reading half. */
  predicate Reads(op: Operation) {
    || op.ReadStaticOctets? || op.ReadOctetsUntilTerminator? || op.ReadIntFromAscii?
    || op.TerminateListIfReadAhead? || op.TransitionLookahead?
  }

  /** Operations that never block. */
  predicate Immediate(op: Operation) {
    !ControlFlow(op) && !Writes(op) && !Reads(op) && !op.UnaryCallback?
  }

  /** The size of `Arguments`. */
  function Arity(op: Operation): nat
    requires !Dynamic(op)
  {
    match op
    case Binary(_) => 2
    case Int32Literal(_) => 0
    case IntToAscii => 1
    case StaticCallable(_) => 0
    case DictionaryInitialize => 0
    case DictionaryGet(_) => 1
    case DictionarySet(_) => 2
    case LexicalPadGet(_) => 0
    case LexicalPadSet(_) => 1
    case LexicalPadInitialize(_) => 1
    case LexicalPadInitializeGlobal(_) => 1
    case LexicalPadAsDict => 0
    case If => 3
    case FunctionCall => 2
    case FunctionCallForEach(_) => 2
    case GenerateList => 1
    case StateMachineOperation(_) => 0
    case UnaryCallback(_) => 1
    case WriteStaticOctets(_) => 0
    case WriteOctets(_) => 1
    case ReadStaticOctets(_) => 0
    case ReadOctetsUntilTerminator(_, _) => 0
    case ReadIntFromAscii => 0
    case TerminateListIfReadAhead(_) => 0
    case TransitionLookahead(_) => 0
  }

  /** An error or a control-flow instruction ends the arguments of a dynamic operation. */
  predicate Interrupts(v: Value) {
    v.Error? || v.InterruptGenerator?
  }

  /** `operation_has_arguments_ready` */
  predicate ArgumentsReady(node: Node, args: seq<Value>) {
    if Dynamic(node.op)
    then (|args| > 0 && Interrupts(args[|args| - 1])) || |args| >= |node.children|
    else |args| >= Arity(node.op)
  }

  // ----- lexical pads -----

  /** A pad and the index of its parent; the pads live in one growing store. */
  datatype Pad = Pad(names: map<string, Value>, parent: Option<nat>)

  /** The pad that binds `name` as seen from pad `i`. */
  function Binder(pads: seq<Pad>, i: nat, name: string): (r: Option<nat>)
    ensures r.Some? ==> r.value < |pads| && r.value <= i && name in pads[r.value].names
    decreases i
  {
    if i >= |pads| then None
    else if name in pads[i].names then Some(i)
    else if pads[i].parent.Some? && pads[i].parent.value < i then Binder(pads, pads[i].parent.value, name)
    else None
  }

  /** The end of the parent chain. */
  function Root(pads: seq<Pad>, i: nat): (r: nat)
    ensures r <= i
    decreases i
  {
    if i < |pads| && pads[i].parent.Some? && pads[i].parent.value < i
    then Root(pads, pads[i].parent.value)
    else i
  }

  function PadGet(pads: seq<Pad>, i: nat, name: string): Value {
    match Binder(pads, i, name)
    case Some(b) => pads[b].names[name]
    case None => Error(NameError)
  }

  /** The old value, and the store after the assignment. */
  function PadSet(pads: seq<Pad>, i: nat, name: string, v: Value): (seq<Pad>, Value) {
    match Binder(pads, i, name)
    case Some(b) => (pads[b := pads[b].(names := pads[b].names[name := v])], pads[b].names[name])
    case None => (pads, Error(NameError))
  }

  /** `unordered_map::insert`: an existing binding stays. */
  function Insert(m: map<string, Value>, name: string, v: Value): map<string, Value> {
    if name in m then m else m[name := v]
  }

  function PadInitialize(pads: seq<Pad>, i: nat, name: string, v: Value): seq<Pad> {
    if i < |pads| then pads[i := pads[i].(names := Insert(pads[i].names, name, v))] else pads
  }

  function PadInitializeGlobal(pads: seq<Pad>, i: nat, name: string, v: Value): seq<Pad> {
    PadInitialize(pads, Root(pads, i), name, v)
  }

  /** The bindings of a new pad: names beyond the arguments stay unbound, and the first of two equal names wins. */
  function Bind(names: seq<string>, args: seq<Value>): map<string, Value>
    decreases |names|
  {
    if names == [] then map[]
    else
      var m := Bind(names[..|names| - 1], args);
      if |names| <= |args| then Insert(m, names[|names| - 1], args[|names| - 1]) else m
  }

  // ----- operations that only compute -----

  /** Why a run stops without a value. */
  datatype Cause =
    | IntegerOverflow      // signed overflow is undefined in C++
    | MissingChild         // the assert of `next_op`
    | MissingFrame         // `top()` of an empty stack
    | MissingArguments     // the arguments tuple reads past the accumulator
    | NullArgumentList     // names to bind and no argument list
    | ElementOutOfRange    // `at` past the end of the list
    | NotAList             // `std::get` of another alternative
    | Endless              // a call or a loop that never comes back
    | NotCallable          // `std::get` of an absent callable
    | Starved              // a read that all delivered input leaves waiting

  /** A value and the pads, or the cause that ends the run. */
  datatype Applied = Result(value: Value, pads: seq<Pad>) | Undefined(cause: Cause)

  function Int32(n: int, pads: seq<Pad>): Applied {
    if -0x8000_0000 <= n < 0x8000_0000 then Result(Int(n), pads) else Undefined(IntegerOverflow)
  }

  /** The overload set shared by the five binary operations. */
  function ApplyBinary(kind: Arithmetic, a: Value, b: Value, pads: seq<Pad>): Applied {
    if Interrupts(a) then Result(a, pads)
    else if !a.Int? then Result(Error(TypeError), pads)
    else if Interrupts(b) then Result(b, pads)
    else if !b.Int? then Result(Error(TypeError), pads)
    else match kind
      case Add => Int32(a.number + b.number, pads)
      case Subtract => Int32(a.number - b.number, pads)
      case Multiply => Int32(a.number * b.number, pads)
      case Eq => Result(Bool(a.number == b.number), pads)
      case LesserEqual => Result(Bool(a.number <= b.number), pads)
  }

  function ApplyDictionaryGet(key: string, d: Value): Value {
    match d
    case Dictionary(m) => if key in m then m[key] else Error(NameError)
    case _ => Error(TypeError)
  }

  function ApplyDictionarySet(key: string, d: Value, v: Value): Value {
    if d.Dictionary? then (if v.Error? then v else Dictionary(d.members[key := v]))
    else if d.Error? then d
    else Error(TypeError)
  }

  function ApplyIntToAscii(v: Value): Value {
    if v.Int? then Text(Decimal(v.number))
    else if Interrupts(v) then v
    else Error(TypeError)
  }

  /** `execute_specific_operation` for the operations that never block. */
  function Apply(op: Operation, args: seq<Value>, pads: seq<Pad>, pad: nat): Applied
    requires Immediate(op)
  {
    if !Dynamic(op) && |args| < Arity(op) then Undefined(MissingArguments)
    else match op
      case Binary(kind) => ApplyBinary(kind, args[0], args[1], pads)
      case Int32Literal(n) => Result(Int(n), pads)
      case IntToAscii => Result(ApplyIntToAscii(args[0]), pads)
      case StaticCallable(c) => Result(Code(c), pads)
      case DictionaryInitialize => Result(Dictionary(map[]), pads)
      case DictionaryGet(key) => Result(ApplyDictionaryGet(key, args[0]), pads)
      case DictionarySet(key) => Result(ApplyDictionarySet(key, args[0], args[1]), pads)
      case LexicalPadGet(name) => Result(PadGet(pads, pad, name), pads)
      case LexicalPadSet(name) =>
        var (pads', before) := PadSet(pads, pad, name, args[0]);
        Result(before, pads')
      case LexicalPadInitialize(name) => Result(args[0], PadInitialize(pads, pad, name, args[0]))
      case LexicalPadInitializeGlobal(name) => Result(args[0], PadInitializeGlobal(pads, pad, name, args[0]))
      case LexicalPadAsDict => Result(Dictionary(if pad < |pads| then pads[pad].names else map[]), pads)
      case OpSequence => Result(if args == [] then Bool(false) else args[|args| - 1], pads)
      case MakeList => Result(DynamicList(args), pads)
  }

  /** What a write operation puts on the wire for its argument, or the value it returns instead of writing. */
  datatype Encoded = Wire(octets: Bytes) | Refused(value: Value) | Endlessly

  function Encode(op: Operation, args: seq<Value>): Encoded
    requires Writes(op) && |args| >= Arity(op)
  {
    match op
    case WriteStaticOctets(contents) => Wire(contents)
    case WriteOctets(escape) =>
      match args[0]
      case Text(data) =>
        if escape.None? || data == [] then Wire(data)
        else if escape.value.character == [] then Endlessly
        else Wire(Escaped(data, escape.value.character, escape.value.sequence))
      case Error(_) => Refused(args[0])
      case InterruptGenerator => Refused(args[0])
      case _ => Refused(Error(TypeError))
  }

  // ----- what a control-flow operation does first -----

  /** A callable and the list it works on, or the value returned without a call. */
  datatype Selection = Calls(callable: Callable, list: Option<seq<Value>>) | Yields(value: Value) | Never

  /** The overload sets of the four operations, on their evaluated arguments. */
  function Select(op: Operation, args: seq<Value>): Selection
    requires ControlFlow(op) && !op.StateMachineOperation? && |args| >= Arity(op)
  {
    match op
    case If => SelectBranch(args[0], args[1], args[2])
    case FunctionCall =>
      if args[0].Code? && args[1].DynamicList? then Calls(args[0].callable, Some(args[1].values))
      else if args[0].Code? && args[1].Error? then Yields(args[1])
      else Yields(Error(TypeError))
    case FunctionCallForEach(_) =>
      if !args[0].Code? then Yields(Error(TypeError))
      else if args[1].DynamicList? then Calls(args[0].callable, Some(args[1].values))
      else Never
    case GenerateList =>
      if args[0].Code? then Calls(args[0].callable, None) else Yields(Error(TypeError))
  }

  function SelectBranch(cond: Value, then_: Value, else_: Value): Selection {
    if Interrupts(cond) then Yields(cond)
    else if !cond.Bool? then Yields(Error(TypeError))
    else if Interrupts(then_) then Yields(then_)
    else if !then_.Code? then Yields(Error(TypeError))
    else if Interrupts(else_) then Yields(else_)
    else if !else_.Code? then Yields(Error(TypeError))
    else Calls(if cond.flag then then_.callable else else_.callable, None)
  }

  /** What the runner's callbacks answer, given every request so far; the last one is the one to answer. */
  datatype Request = Request(key: string, arguments: seq<Value>)

  type Answers = seq<Request> -> Value

  /** The pad of a call: below the caller's pad, or below the root pad. */
  function CallPad(c: Callable, args: Option<seq<Value>>, pad: nat): Pad
    requires c.names == [] || args.Some?
  {
    Pad(Bind(c.names, if args.Some? then args.value else []), Some(if c.inherits then pad else 0))
  }

  /**
   Everything outside the stacks: the pads, the callback requests, the octets
   written, and the delivered input with whether its end has been signalled.
   */
  datatype World = World(pads: seq<Pad>, requests: seq<Request>, output: Bytes, input: seq<Bytes>, eof: bool)
}
