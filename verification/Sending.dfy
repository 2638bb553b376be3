/** What running the tree of a write transition puts on the wire. */
module Sending {
  import opened Options
  import opened Octets
  import opened Escape
  import opened DataTypes
  import T = Translate
  import opened Values
  import opened Evaluator
  import opened Generation
  import E = Emitted

  // ----- what actions send -----

  /** The values of the names in scope. */
  type Environment = map<string, Value>

  function MemberOf(v: Value, id: T.Identifier): Option<Value>
    decreases id
  {
    if !v.Dictionary? || id.name !in v.members then None
    else if id.member.None? then Some(v.members[id.name])
    else MemberOf(v.members[id.name], id.member.value)
  }

  function MemberType(t: DataType, id: T.Identifier): Option<DataType>
    decreases id
  {
    if id.name !in Parameters(t) then None
    else if id.member.None? then Some(Parameters(t)[id.name])
    else if Parameters(t)[id.name].TupleType? then MemberType(Parameters(t)[id.name], id.member.value)
    else None
  }

  /** The octets of a value of a declared type, before escaping. */
  function Rendered(t: DataType, v: Value): Option<Bytes> {
    if t.IntType? && v.Int? then Some(Decimal(v.number))
    else if t.StrType? && v.Text? then Some(v.data)
    else None
  }

  function FieldOctets(id: T.Identifier, types: Types, env: Environment): Option<Bytes> {
    if id.name !in types || id.name !in env then None
    else if id.member.None? then Rendered(types[id.name], env[id.name])
    else
      match (MemberType(types[id.name], id.member.value), MemberOf(env[id.name], id.member.value))
      case (Some(t), Some(v)) => Rendered(t, v)
      case _ => None
  }

  /** Both pieces, if there are both. */
  function Both(a: Option<Bytes>, b: Option<Bytes>): Option<Bytes> {
    if a.Some? && b.Some? then Some(a.value + b.value) else None
  }

  /** The octets of one action: a loop sends its elements, one after the other, and then its terminator. */
  function Sent(a: T.Action, types: Types, env: Environment): Option<Bytes>
    decreases a, 0
  {
    match a
    case WriteStaticOctets(octets) => Some(octets)
    case WriteFromIdentifier(id, e) =>
      if e.Some? && e.value.character == [] then None
      else (match FieldOctets(id, types, env) case None => None case Some(octets) => Some(E.OnWire(octets, e)))
    case Loop(variable, collection, terminator, actions) =>
      (match LoopTypes(types, variable.name, collection.name)
       case None => None
       case Some(inner) =>
         if collection.name !in env || !env[collection.name].DynamicList? || env[collection.name].values == [] then None
         else Both(SentEach(actions, inner, env, variable.name, env[collection.name].values, 0), Some(terminator)))
    case _ => None
  }

  function SentAll(actions: seq<T.Action>, types: Types, env: Environment): Option<Bytes>
    decreases actions, 0
  {
    if actions == [] then Some([]) else Both(Sent(actions[0], types, env), SentAll(actions[1..], types, env))
  }

  function SentEach(actions: seq<T.Action>, types: Types, env: Environment, variable: string, items: seq<Value>, k: nat)
    : Option<Bytes>
    decreases actions, 1 + if k < |items| then |items| - k else 0
  {
    if k >= |items| then Some([])
    else Both(SentAll(actions, types, env[variable := items[k]]), SentEach(actions, types, env, variable, items, k + 1))
  }

  /** How deep loops are nested. */
  function Depth(a: T.Action): nat
    decreases a, 0
  {
    if a.Loop? then 1 + DepthOf(a.actions) else 0
  }

  function DepthOf(actions: seq<T.Action>): nat
    decreases actions, 0
  {
    if actions == [] then 0
    else
      var first, rest := Depth(actions[0]), DepthOf(actions[1..]);
      if first > rest then first else rest
  }

  // ----- pads -----

  /** The names in scope have these values at the pad. */
  ghost predicate Shows(pads: seq<Pad>, pad: nat, env: Environment) {
    pad < |pads| && forall name :: name in env ==> PadGet(pads, pad, name) == env[name]
  }

  /** New pads hide nothing from an old one. */
  lemma {:induction false} GetExtends(pads: seq<Pad>, more: seq<Pad>, i: nat, name: string)
    requires pads <= more && i < |pads|
    ensures PadGet(more, i, name) == PadGet(pads, i, name)
    decreases i
  {
    if name !in pads[i].names && pads[i].parent.Some? && pads[i].parent.value < i {
      GetExtends(pads, more, pads[i].parent.value, name);
    }
  }

  lemma ShowsExtends(pads: seq<Pad>, more: seq<Pad>, pad: nat, env: Environment)
    requires pads <= more && Shows(pads, pad, env)
    ensures Shows(more, pad, env)
  {
    forall name | name in env ensures PadGet(more, pad, name) == env[name] {
      GetExtends(pads, more, pad, name);
    }
  }

  /** The pad of a call for one element shows the loop variable, and everything else as before. */
  lemma CallShows(pads: seq<Pad>, pad: nat, env: Environment, c: Callable, variable: string, item: Value)
    requires Shows(pads, pad, env) && c.names == [variable] && c.inherits
    ensures Shows(pads + [CallPad(c, Some([item]), pad)], |pads|, env[variable := item])
  {
    var more := pads + [CallPad(c, Some([item]), pad)];
    assert [variable][..0] == [];
    assert Bind([variable], [item]) == Insert(Bind([], [item]), variable, item);
    forall name | name in env && name != variable ensures PadGet(more, |pads|, name) == env[name] {
      GetExtends(pads, more, pad, name);
    }
  }

  // ----- outcomes -----

  /** The outcome is a value that does not interrupt, new pads at most, and `more` sent. */
  ghost predicate Wrote(o: Outcome, w: World, more: Bytes) {
    && o.Evaluated? && !Interrupts(o.value) && w.pads <= o.world.pads
    && o.world == w.(pads := o.world.pads, output := w.output + more)
  }

  /** The outcome is `v`, and nothing changed. */
  ghost predicate Pure(o: Outcome, v: Value, w: World) {
    o.Evaluated? && o.value == v && o.world == w
  }

  ghost predicate Calm(vs: seq<Value>) {
    forall i :: 0 <= i < |vs| ==> !Interrupts(vs[i])
  }

  /** An operation that only computes and leaves the pads alone. */
  lemma FinishPure(fuel: nat, op: Operation, args: seq<Value>, v: Value, pad: nat, w: World, answers: Answers)
    requires Immediate(op) && (Dynamic(op) || |args| >= Arity(op)) && Apply(op, args, w.pads, pad) == Result(v, w.pads)
    ensures Finish(fuel, op, args, pad, w, answers) == Evaluated(v, w, 1)
  {
    hide Apply;
    assert w.(pads := w.pads) == w;
  }

  /** A node without children. */
  lemma EvalLeaf(fuel: nat, op: Operation, pad: nat, w: World, answers: Answers)
    requires !Dynamic(op) && Arity(op) == 0
    ensures Eval(fuel, Node(op, []), pad, w, answers) == Later(0, Finish(fuel, op, [], pad, w, answers))
  {
    assert EvalArguments(fuel, Node(op, []), [], pad, w, answers) == Arguments([], w, 0);
  }

  /** A node with one child that has a value. */
  lemma EvalUnary(fuel: nat, op: Operation, child: Node, pad: nat, w: World, answers: Answers)
    requires !Dynamic(op) && Arity(op) == 1 && Eval(fuel, child, pad, w, answers).Evaluated?
    ensures var c := Eval(fuel, child, pad, w, answers);
            Eval(fuel, Node(op, [child]), pad, w, answers)
              == Later(c.steps, Finish(fuel, op, [c.value], pad, c.world, answers))
  {
    hide Finish;
    var node := Node(op, [child]);
    var c := Eval(fuel, child, pad, w, answers);
    assert node.children[0] == child && [] + [c.value] == [c.value];
    assert EvalArguments(fuel, node, [c.value], pad, c.world, answers) == Arguments([c.value], c.world, 0);
    assert EvalArguments(fuel, node, [], pad, w, answers) == Arguments([c.value], c.world, c.steps);
  }

  lemma VariablePure(fuel: nat, name: string, pad: nat, w: World, answers: Answers)
    ensures Pure(Eval(fuel, Node(LexicalPadGet(name), []), pad, w, answers), PadGet(w.pads, pad, name), w)
  {
    EvalLeaf(fuel, LexicalPadGet(name), pad, w, answers);
    assert w.(pads := w.pads) == w;
  }

  /** Where the member lookups lead. */
  lemma {:induction false} LocatePure(fuel: nat, t: DataType, id: T.Identifier, current: Node, v: Value, pad: nat,
                                      w: World,
                                      answers: Answers)
    requires Pure(Eval(fuel, current, pad, w, answers), v, w)
    requires MemberType(t, id).Some? && MemberOf(v, id).Some?
    ensures Locate(t, id, current).Some?
    ensures var place := Locate(t, id, current).value;
            && place.memberType == MemberType(t, id).value
            && Pure(Eval(fuel, Node(DictionaryGet(place.member), [place.holder]), pad, w, answers),
                    MemberOf(v, id).value, w)
    decreases id
  {
    var inner := Node(DictionaryGet(id.name), [current]);
    EvalUnary(fuel, DictionaryGet(id.name), current, pad, w, answers);
    assert w.(pads := w.pads) == w;
    if id.member.Some? {
      LocatePure(fuel, Parameters(t)[id.name], id.member.value, inner, v.members[id.name], pad, w, answers);
    }
  }

  /** Writing a value of its type. */
  lemma ValueSends(fuel: nat, t: DataType, child: Node, v: Value, e: Option<EscapeInfo>, pad: nat, w: World,
                   answers: Answers)
    requires Pure(Eval(fuel, child, pad, w, answers), v, w) && Rendered(t, v).Some? && !w.eof
    requires e.Some? ==> |e.value.character| > 0
    ensures WriteValue(t, child, e).Some?
    ensures Wrote(Eval(fuel, WriteValue(t, child, e).value, pad, w, answers), w, E.OnWire(Rendered(t, v).value, e))
  {
    if t.IntType? {
      EvalUnary(fuel, IntToAscii, child, pad, w, answers);
      assert w.(pads := w.pads) == w;
      TextSends(fuel, Node(IntToAscii, [child]), Decimal(v.number), e, pad, w, answers);
    } else {
      TextSends(fuel, child, v.data, e, pad, w, answers);
    }
  }

  lemma TextSends(fuel: nat, child: Node, text: Bytes, e: Option<EscapeInfo>, pad: nat, w: World, answers: Answers)
    requires Pure(Eval(fuel, child, pad, w, answers), Text(text), w) && !w.eof
    requires e.Some? ==> |e.value.character| > 0
    ensures Wrote(Eval(fuel, Node(WriteOctets(e), [child]), pad, w, answers), w, E.OnWire(text, e))
  {
    assert w.output + [] == w.output;
    EvalUnary(fuel, WriteOctets(e), child, pad, w, answers);
    assert Encode(WriteOctets(e), [Text(text)]) == Wire(E.OnWire(text, e));
  }

  lemma StaticSends(fuel: nat, octets: Bytes, pad: nat, w: World, answers: Answers)
    requires !w.eof
    ensures Wrote(Eval(fuel, Node(WriteStaticOctets(octets), []), pad, w, answers), w, octets)
  {
    EvalLeaf(fuel, WriteStaticOctets(octets), pad, w, answers);
    assert w.output + [] == w.output;
  }

  lemma FieldSends(fuel: nat, id: T.Identifier, e: Option<EscapeInfo>, types: Types, env: Environment, pad: nat,
                   w: World,
                   answers: Answers)
    requires Shows(w.pads, pad, env) && FieldOctets(id, types, env).Some? && !w.eof
    requires e.Some? ==> |e.value.character| > 0
    ensures WriteNode(T.WriteFromIdentifier(id, e), types).Some?
    ensures Wrote(Eval(fuel, WriteNode(T.WriteFromIdentifier(id, e), types).value, pad, w, answers), w,
                  E.OnWire(FieldOctets(id, types, env).value, e))
  {
    hide Eval, Locate, MemberOf, MemberType;
    var variable := Node(LexicalPadGet(id.name), []);
    VariablePure(fuel, id.name, pad, w, answers);
    if id.member.None? {
      ValueSends(fuel, types[id.name], variable, env[id.name], e, pad, w, answers);
    } else {
      LocatePure(fuel, types[id.name], id.member.value, variable, env[id.name], pad, w, answers);
      var place := Locate(types[id.name], id.member.value, variable).value;
      ValueSends(fuel, place.memberType, Node(DictionaryGet(place.member), [place.holder]),
                 MemberOf(env[id.name], id.member.value).value, e, pad, w, answers);
    }
  }

  // ----- sequences -----

  /** Each operation sends its piece, in any world that has at least these pads. */
  ghost predicate EachSends(fuel: nat, ops: seq<Node>, pieces: seq<Bytes>, pad: nat, pads: seq<Pad>, answers: Answers) {
    |ops| == |pieces| && forall i :: 0 <= i < |ops| ==> Piece(fuel, ops[i], pieces[i], pad, pads, answers)
  }

  ghost predicate Piece(fuel: nat, op: Node, piece: Bytes, pad: nat, pads: seq<Pad>, answers: Answers) {
    forall w: World {:trigger Eval(fuel, op, pad, w, answers)} ::
      pads <= w.pads && !w.eof ==> Wrote(Eval(fuel, op, pad, w, answers), w, piece)
  }

  lemma Append(output: Bytes, more: Bytes, rest: Bytes)
    ensures output + more + rest == output + (more + rest)
    ensures output + [] == output
  {}

  /** The children of a sequence, one after the other. */
  lemma {:induction false} SequenceSends(fuel: nat, ops: seq<Node>, pieces: seq<Bytes>, done: seq<Value>, pad: nat,
                                         pads: seq<Pad>, w: World, answers: Answers)
    requires EachSends(fuel, ops, pieces, pad, pads, answers) && |done| <= |ops| && Calm(done)
    requires pads <= w.pads && !w.eof
    ensures var o := EvalArguments(fuel, Node(OpSequence, ops), done, pad, w, answers);
            && o.Arguments? && |o.values| == |ops| && Calm(o.values) && w.pads <= o.world.pads
            && o.world == w.(pads := o.world.pads, output := w.output + Concat(pieces[|done|..]))
    decreases |ops| - |done|
  {
    var k, node := |done|, Node(OpSequence, ops);
    if k < |ops| {
      assert Piece(fuel, ops[k], pieces[k], pad, pads, answers);
      var o := Eval(fuel, ops[k], pad, w, answers);
      assert Wrote(o, w, pieces[k]);
      assert !ArgumentsReady(node, done) && node.children[k] == ops[k];
      SequenceSends(fuel, ops, pieces, done + [o.value], pad, pads, o.world, answers);
      ConcatFrom(pieces, k);
      Append(w.output, pieces[k], Concat(pieces[k + 1..]));
    } else {
      Append(w.output, [], []);
      assert ArgumentsReady(node, done);
    }
  }

  /** A whole sequence. */
  lemma SequenceWrote(fuel: nat, ops: seq<Node>, pieces: seq<Bytes>, pad: nat, w: World, answers: Answers)
    requires EachSends(fuel, ops, pieces, pad, w.pads, answers) && !w.eof
    ensures Wrote(Eval(fuel, Node(OpSequence, ops), pad, w, answers), w, Concat(pieces))
  {
    SequenceSends(fuel, ops, pieces, [], pad, w.pads, w, answers);
    var w1 := EvalArguments(fuel, Node(OpSequence, ops), [], pad, w, answers).world;
    assert w1.(pads := w1.pads) == w1;
  }

  /** The pieces of the actions from `k` on. */
  function PiecesOf(actions: seq<T.Action>, types: Types, env: Environment): (r: seq<Bytes>)
    requires forall i :: 0 <= i < |actions| ==> Sent(actions[i], types, env).Some?
    ensures |r| == |actions|
  {
    seq(|actions|, i requires 0 <= i < |actions| => Sent(actions[i], types, env).value)
  }

  lemma {:induction false} SentParts(actions: seq<T.Action>, types: Types, env: Environment)
    requires SentAll(actions, types, env).Some?
    ensures forall i :: 0 <= i < |actions| ==> Sent(actions[i], types, env).Some?
    decreases |actions|
  {
    if actions != [] {
      SentParts(actions[1..], types, env);
      forall i | 0 <= i < |actions| ensures Sent(actions[i], types, env).Some? {
        if i > 0 { assert actions[i] == actions[1..][i - 1]; }
      }
    }
  }

  lemma {:induction false} PiecesJoined(actions: seq<T.Action>, types: Types, env: Environment, k: nat)
    requires forall i :: 0 <= i < |actions| ==> Sent(actions[i], types, env).Some?
    requires k <= |actions|
    ensures SentAll(actions[k..], types, env) == Some(Concat(PiecesOf(actions, types, env)[k..]))
    decreases |actions| - k
  {
    if k < |actions| {
      PiecesJoined(actions, types, env, k + 1);
      ConcatFrom(PiecesOf(actions, types, env), k);
      assert actions[k..][1..] == actions[k + 1..] && actions[k..][0] == actions[k];
    }
  }

  lemma {:induction false} DepthBounds(actions: seq<T.Action>, i: nat)
    requires i < |actions|
    ensures Depth(actions[i]) <= DepthOf(actions)
    decreases |actions|
  {
    if i > 0 {
      DepthBounds(actions[1..], i - 1);
    }
  }

  // ----- loops -----

  /** Each element's call sends its piece, in any world that has at least these pads. */
  ghost predicate EachElement(fuel: nat, c: Callable, items: seq<Value>, pieces: seq<Bytes>, pad: nat, pads: seq<Pad>,
                              answers: Answers)
  {
    |items| == |pieces| && forall i :: 0 <= i < |items| ==> Element(fuel, c, items[i], pieces[i], pad, pads, answers)
  }

  ghost predicate Element(fuel: nat, c: Callable, item: Value, piece: Bytes, pad: nat, pads: seq<Pad>,
                          answers: Answers) {
    forall w: World {:trigger EvalCall(fuel, c, Some([item]), pad, w, answers)} ::
      pads <= w.pads && !w.eof ==> Wrote(EvalCall(fuel, c, Some([item]), pad, w, answers), w, piece)
  }

  lemma {:induction false} ElementsSend(fuel: nat, c: Callable, items: seq<Value>, pieces: seq<Bytes>, done: seq<Value>,
                                        pad: nat, pads: seq<Pad>, w: World, answers: Answers)
    requires EachElement(fuel, c, items, pieces, pad, pads, answers) && |done| < |items|
    requires pads <= w.pads && !w.eof
    ensures Wrote(EvalForEach(fuel, true, c, items, done, pad, w, answers), w, Concat(pieces[|done|..]))
    decreases |items| - |done|
  {
    hide EvalCall;
    var k := |done|;
    ConcatFrom(pieces, k);
    assert Element(fuel, c, items[k], pieces[k], pad, pads, answers);
    var o := EvalCall(fuel, c, Some([items[k]]), pad, w, answers);
    assert Wrote(o, w, pieces[k]);
    if k + 1 < |items| {
      ElementsSend(fuel, c, items, pieces, done + [o.value], pad, pads, o.world, answers);
      Append(w.output, pieces[k], Concat(pieces[k + 1..]));
    } else {
      Append(pieces[k], [], []);
    }
  }

  /** The pieces of the elements. */
  function ElementPieces(actions: seq<T.Action>, types: Types, env: Environment, variable: string, items: seq<Value>)
    : (r: seq<Bytes>)
    requires forall k :: 0 <= k < |items| ==> SentAll(actions, types, env[variable := items[k]]).Some?
    ensures |r| == |items|
  {
    seq(|items|, k requires 0 <= k < |items| => SentAll(actions, types, env[variable := items[k]]).value)
  }

  lemma {:induction false} EachJoined(actions: seq<T.Action>, types: Types, env: Environment, variable: string,
                                      items: seq<Value>, k: nat)
    requires SentEach(actions, types, env, variable, items, k).Some? && k <= |items|
    ensures forall j :: k <= j < |items| ==> SentAll(actions, types, env[variable := items[j]]).Some?
    decreases |items| - k
  {
    if k < |items| { EachJoined(actions, types, env, variable, items, k + 1); }
  }

  lemma {:induction false} ElementsJoined(actions: seq<T.Action>, types: Types, env: Environment, variable: string,
                                          items: seq<Value>, k: nat)
    requires forall j :: 0 <= j < |items| ==> SentAll(actions, types, env[variable := items[j]]).Some?
    requires k <= |items|
    ensures SentEach(actions, types, env, variable, items, k)
         == Some(Concat(ElementPieces(actions, types, env, variable, items)[k..]))
    decreases |items| - k
  {
    if k < |items| {
      ElementsJoined(actions, types, env, variable, items, k + 1);
      ConcatFrom(ElementPieces(actions, types, env, variable, items), k);
    }
  }

  /** The call of the loop's callable on a list. */
  lemma LoopCalls(fuel: nat, c: Callable, collection: string, items: seq<Value>, pad: nat, w: World, answers: Answers)
    requires PadGet(w.pads, pad, collection) == DynamicList(items)
    ensures var node := Node(FunctionCallForEach(true),
                             [Node(StaticCallable(c), []), Node(LexicalPadGet(collection), [])]);
            Eval(fuel, node, pad, w, answers) == Later(2, EvalForEach(fuel, true, c, items, [], pad, w, answers))
  {
    hide EvalForEach;
    LoopArguments(fuel, c, collection, pad, w, answers);
  }

  /** The callable and the collection, evaluated. */
  lemma LoopArguments(fuel: nat, c: Callable, collection: string, pad: nat, w: World, answers: Answers)
    ensures var node := Node(FunctionCallForEach(true),
                             [Node(StaticCallable(c), []), Node(LexicalPadGet(collection), [])]);
            EvalArguments(fuel, node, [], pad, w, answers)
            == Arguments([Code(c), PadGet(w.pads, pad, collection)], w, 2)
  {
    var node := Node(FunctionCallForEach(true), [Node(StaticCallable(c), []), Node(LexicalPadGet(collection), [])]);
    var v := PadGet(w.pads, pad, collection);
    LeafPure(fuel, StaticCallable(c), Code(c), pad, w, answers);
    LeafPure(fuel, LexicalPadGet(collection), v, pad, w, answers);
    hide Eval, PadGet, EvalArguments;
    TwoArguments(fuel, node, Code(c), v, pad, w, w, answers);
  }

  /** Two arguments of two children. */
  lemma TwoArguments(fuel: nat, node: Node, a: Value, b: Value, pad: nat, w: World, w1: World, answers: Answers)
    requires !Dynamic(node.op) && Arity(node.op) == 2 && |node.children| == 2
    requires Pure(Eval(fuel, node.children[0], pad, w, answers), a, w)
    requires var o := Eval(fuel, node.children[1], pad, w, answers); o.Evaluated? && o.value == b && o.world == w1
    ensures EvalArguments(fuel, node, [], pad, w, answers)
         == Arguments([a, b], w1, Eval(fuel, node.children[0], pad, w, answers).steps
                                  + Eval(fuel, node.children[1], pad, w, answers).steps)
  {
    hide Eval;
    assert [] + [a] == [a] && [a] + [b] == [a, b];
    assert EvalArguments(fuel, node, [a, b], pad, w1, answers) == Arguments([a, b], w1, 0);
    assert EvalArguments(fuel, node, [a], pad, w, answers)
        == Arguments([a, b], w1, Eval(fuel, node.children[1], pad, w, answers).steps);
  }

  /** A leaf that only computes takes one step. */
  lemma LeafPure(fuel: nat, op: Operation, v: Value, pad: nat, w: World, answers: Answers)
    requires Immediate(op) && !Dynamic(op) && Arity(op) == 0 && Apply(op, [], w.pads, pad) == Result(v, w.pads)
    ensures Eval(fuel, Node(op, []), pad, w, answers) == Evaluated(v, w, 1)
  {
    hide Finish;
    EvalLeaf(fuel, op, pad, w, answers);
    FinishPure(fuel, op, [], v, pad, w, answers);
  }

  /** The loop node, then the terminator. */
  lemma LoopSends(fuel: nat, variable: string, collection: string, terminator: Bytes, body: seq<Node>,
                  items: seq<Value>,
                  pieces: seq<Bytes>, pad: nat, pads: seq<Pad>, answers: Answers)
    requires EachElement(fuel, Callable(Node(OpSequence, body), [variable], true), items, pieces, pad, pads, answers)
    requires items != [] && pad < |pads| && PadGet(pads, pad, collection) == DynamicList(items)
    ensures Piece(fuel, WriteLoop(variable, collection, terminator, body), Concat(pieces) + terminator, pad, pads,
                  answers)
  {
    hide Eval, EvalForEach, EvalCall, Concat;
    var c := Callable(Node(OpSequence, body), [variable], true);
    var ops := [WriteElements(variable, collection, body), Node(WriteStaticOctets(terminator), [])];
    var parts := [Concat(pieces), terminator];
    forall w: World | pads <= w.pads && !w.eof
      ensures Wrote(Eval(fuel, ops[0], pad, w, answers), w, parts[0])
      ensures Wrote(Eval(fuel, ops[1], pad, w, answers), w, parts[1])
    {
      GetExtends(pads, w.pads, pad, collection);
      LoopCalls(fuel, c, collection, items, pad, w, answers);
      ElementsSend(fuel, c, items, pieces, [], pad, pads, w, answers);
      StaticSends(fuel, terminator, pad, w, answers);
    }
    assert Piece(fuel, ops[0], parts[0], pad, pads, answers) && Piece(fuel, ops[1], parts[1], pad, pads, answers);
    assert EachSends(fuel, ops, parts, pad, pads, answers);
    TwoParts(parts);
    forall w: World | pads <= w.pads && !w.eof
      ensures Wrote(Eval(fuel, Node(OpSequence, ops), pad, w, answers), w, Concat(pieces) + terminator)
    {
      MorePads(fuel, ops, parts, pad, pads, w.pads, answers);
      SequenceWrote(fuel, ops, parts, pad, w, answers);
    }
  }

  lemma TwoParts(parts: seq<Bytes>)
    requires |parts| == 2
    ensures Concat(parts) == parts[0] + parts[1]
  {
    assert parts == [parts[0]] + [parts[1]];
    ConcatOne(parts[0]);
    ConcatOne(parts[1]);
    ConcatAppend([parts[0]], [parts[1]]);
  }

  lemma MorePads(fuel: nat, ops: seq<Node>, pieces: seq<Bytes>, pad: nat, pads: seq<Pad>, more: seq<Pad>,
                 answers: Answers)
    requires EachSends(fuel, ops, pieces, pad, pads, answers) && pads <= more
    ensures EachSends(fuel, ops, pieces, pad, more, answers)
  {
    hide Eval;
    forall i | 0 <= i < |ops| ensures Piece(fuel, ops[i], pieces[i], pad, more, answers) {
      assert Piece(fuel, ops[i], pieces[i], pad, pads, answers);
    }
  }

  // ----- actions -----

  /** One action, compiled, sends its octets. */
  lemma {:induction false} ActionSends(fuel: nat, a: T.Action, types: Types, env: Environment, pad: nat, pads: seq<Pad>,
                                       answers: Answers)
    requires Sent(a, types, env).Some? && Shows(pads, pad, env) && Depth(a) <= fuel
    ensures WriteNode(a, types).Some?
    ensures Piece(fuel, WriteNode(a, types).value, Sent(a, types, env).value, pad, pads, answers)
    decreases a, 1
  {
    hide Eval, FieldOctets;
    if a.Loop? {
      LoopActionSends(fuel, a, types, env, pad, pads, answers);
    } else if a.WriteStaticOctets? {
      forall w: World | pads <= w.pads && !w.eof
        ensures Wrote(Eval(fuel, WriteNode(a, types).value, pad, w, answers), w, Sent(a, types, env).value)
      {
        StaticSends(fuel, a.octets, pad, w, answers);
      }
    } else {
      FieldCompiles(a.identifier, a.escape, types, env);
      forall w: World | pads <= w.pads && !w.eof
        ensures Wrote(Eval(fuel, WriteNode(a, types).value, pad, w, answers), w, Sent(a, types, env).value)
      {
        ShowsExtends(pads, w.pads, pad, env);
        FieldSends(fuel, a.identifier, a.escape, types, env, pad, w, answers);
      }
    }
  }

  lemma FieldCompiles(id: T.Identifier, e: Option<EscapeInfo>, types: Types, env: Environment)
    requires FieldOctets(id, types, env).Some?
    ensures WriteNode(T.WriteFromIdentifier(id, e), types).Some?
  {
    if id.member.Some? {
      LocateHas(types[id.name], id.member.value, Node(LexicalPadGet(id.name), []));
    }
  }

  lemma {:induction false} LocateHas(t: DataType, id: T.Identifier, current: Node)
    requires MemberType(t, id).Some?
    ensures Locate(t, id, current).Some? && Locate(t, id, current).value.memberType == MemberType(t, id).value
    decreases id
  {
    if id.member.Some? {
      LocateHas(Parameters(t)[id.name], id.member.value, Node(DictionaryGet(id.name), [current]));
    }
  }

  /** A loop: its callable is called for each element in a pad of its own. */
  lemma {:induction false} LoopActionSends(fuel: nat, a: T.Action, types: Types, env: Environment, pad: nat,
                                           pads: seq<Pad>,
                                           answers: Answers)
    requires a.Loop? && Sent(a, types, env).Some? && Shows(pads, pad, env) && Depth(a) <= fuel
    ensures WriteNode(a, types).Some?
    ensures Piece(fuel, WriteNode(a, types).value, Sent(a, types, env).value, pad, pads, answers)
    decreases a, 0
  {
    hide Eval, EvalCall, Concat, PadGet, Piece, Element;
    var variable, collection, actions := a.variable.name, a.collection.name, a.actions;
    var inner := LoopTypes(types, variable, collection).value;
    var items := env[collection].values;
    EachJoined(actions, inner, env, variable, items, 0);
    ElementsJoined(actions, inner, env, variable, items, 0);
    var pieces := ElementPieces(actions, inner, env, variable, items);
    ActionsCompile(fuel - 1, actions, inner, env[variable := items[0]]);
    var body := WriteNodes(actions, inner).value;
    var c := Callable(Node(OpSequence, body), [variable], true);
    forall k | 0 <= k < |items| ensures Element(fuel, c, items[k], pieces[k], pad, pads, answers) {
      ElementSends(fuel, actions, inner, env, variable, items[k], pad, pads, answers);
    }
    LoopSends(fuel, variable, collection, a.terminator, body, items, pieces, pad, pads, answers);
  }

  /** The call for one element. */
  lemma {:induction false} ElementSends(fuel: nat, actions: seq<T.Action>, types: Types, env: Environment,
                                        variable: string,
                                        item: Value, pad: nat, pads: seq<Pad>, answers: Answers)
    requires SentAll(actions, types, env[variable := item]).Some? && Shows(pads, pad, env) && DepthOf(actions) < fuel
    requires WriteNodes(actions, types).Some?
    ensures Element(fuel, Callable(Node(OpSequence, WriteNodes(actions, types).value), [variable], true), item,
                    SentAll(actions, types, env[variable := item]).value, pad, pads, answers)
    decreases actions, 1
  {
    var c := Callable(Node(OpSequence, WriteNodes(actions, types).value), [variable], true);
    var piece := SentAll(actions, types, env[variable := item]).value;
    forall w: World | pads <= w.pads && !w.eof
      ensures Wrote(EvalCall(fuel, c, Some([item]), pad, w, answers), w, piece)
    {
      var w1 := w.(pads := w.pads + [CallPad(c, Some([item]), pad)]);
      ShowsExtends(pads, w.pads, pad, env);
      CallShows(w.pads, pad, env, c, variable, item);
      ActionsSend(fuel - 1, actions, types, env[variable := item], |w.pads|, w1, answers);
    }
  }

  lemma {:induction false} ActionsCompile(fuel: nat, actions: seq<T.Action>, types: Types, env: Environment)
    requires SentAll(actions, types, env).Some? && DepthOf(actions) <= fuel
    ensures WriteNodes(actions, types).Some?
    decreases actions, 0
  {
    if actions != [] {
      ActionCompiles(fuel, actions[0], types, env);
      ActionsCompile(fuel, actions[1..], types, env);
    }
  }

  lemma {:induction false} ActionCompiles(fuel: nat, a: T.Action, types: Types, env: Environment)
    requires Sent(a, types, env).Some? && Depth(a) <= fuel
    ensures WriteNode(a, types).Some?
    decreases a, 0
  {
    if a.Loop? {
      var variable, collection := a.variable.name, a.collection.name;
      ActionsCompile(fuel - 1, a.actions, LoopTypes(types, variable, collection).value,
                     env[variable := env[collection].values[0]]);
    } else if a.WriteFromIdentifier? {
      FieldCompiles(a.identifier, a.escape, types, env);
    }
  }

  /** The compiled actions, one after the other. */
  lemma {:induction false} ActionsSend(fuel: nat, actions: seq<T.Action>, types: Types, env: Environment, pad: nat,
                                       w: World,
                                       answers: Answers)
    requires SentAll(actions, types, env).Some? && Shows(w.pads, pad, env) && DepthOf(actions) <= fuel && !w.eof
    ensures WriteNodes(actions, types).Some?
    ensures Wrote(Eval(fuel, Node(OpSequence, WriteNodes(actions, types).value), pad, w, answers), w,
                  SentAll(actions, types, env).value)
    decreases actions, 0
  {
    hide Eval, Concat, Piece, Sent;
    ActionsCompile(fuel, actions, types, env);
    SentParts(actions, types, env);
    var ops, pieces := WriteNodes(actions, types).value, PiecesOf(actions, types, env);
    forall i | 0 <= i < |actions| ensures Piece(fuel, ops[i], pieces[i], pad, w.pads, answers) {
      DepthBounds(actions, i);
      ActionSends(fuel, actions[i], types, env, pad, w.pads, answers);
    }
    SequenceWrote(fuel, ops, pieces, pad, w, answers);
    PiecesJoined(actions, types, env, 0);
    assert actions[0..] == actions;
  }

  /**
   The interpreted writer: run in a pad that shows the data, with fuel for its
   nesting of loops, the emitted tree sends exactly the message's octets, changes
   no old pad, and returns the pad's names as a dictionary.
   */
  lemma TransitionTreeSends(fuel: nat, actions: seq<T.Action>, types: Types, env: Environment, pad: nat, w: World,
                            answers: Answers)
    requires SentAll(actions, types, env).Some? && Shows(w.pads, pad, env) && DepthOf(actions) <= fuel && !w.eof
    ensures TransitionTree(false, actions, types).Some?
    ensures var o := Eval(fuel, TransitionTree(false, actions, types).value, pad, w, answers);
            && Wrote(o, w, SentAll(actions, types, env).value)
            && o.value == DynamicList([Dictionary(w.pads[pad].names)])
  {
    hide Eval, SentAll;
    ActionsSend(fuel, actions, types, env, pad, w, answers);
    TreeGives(fuel, WriteNodes(actions, types).value, pad, w, answers);
  }

  /** The operations, then the pad as a dictionary in a list. */
  lemma TreeGives(fuel: nat, ops: seq<Node>, pad: nat, w: World, answers: Answers)
    requires var o := Eval(fuel, Node(OpSequence, ops), pad, w, answers);
             o.Evaluated? && !Interrupts(o.value) && pad < |o.world.pads|
    ensures var first := Eval(fuel, Node(OpSequence, ops), pad, w, answers);
            var o := Eval(fuel, Node(OpSequence, [Node(OpSequence, ops), Node(MakeList, [Node(LexicalPadAsDict, [])])]),
                          pad, w, answers);
            && o.Evaluated? && o.world == first.world
            && o.value == DynamicList([Dictionary(first.world.pads[pad].names)])
  {
    hide Finish;
    var first := Eval(fuel, Node(OpSequence, ops), pad, w, answers);
    PadAsList(fuel, pad, first.world, answers);
    SequenceOfTwo(fuel, Node(OpSequence, ops), Node(MakeList, [Node(LexicalPadAsDict, [])]), pad, w, answers);
  }

  lemma PadAsList(fuel: nat, pad: nat, w: World, answers: Answers)
    requires pad < |w.pads|
    ensures Pure(Eval(fuel, Node(MakeList, [Node(LexicalPadAsDict, [])]), pad, w, answers),
                 DynamicList([Dictionary(w.pads[pad].names)]), w)
  {
    var node := Node(MakeList, [Node(LexicalPadAsDict, [])]);
    var d := Dictionary(w.pads[pad].names);
    EvalLeaf(fuel, LexicalPadAsDict, pad, w, answers);
    FinishPure(fuel, LexicalPadAsDict, [], d, pad, w, answers);
    FinishPure(fuel, MakeList, [d], DynamicList([d]), pad, w, answers);
    hide Finish;
    assert [] + [d] == [d];
    assert EvalArguments(fuel, node, [d], pad, w, answers) == Arguments([d], w, 0);
  }

  lemma ArgumentsOfTwo(fuel: nat, first: Node, second: Node, pad: nat, w: World, answers: Answers)
    requires var o := Eval(fuel, first, pad, w, answers);
             o.Evaluated? && !Interrupts(o.value) && Eval(fuel, second, pad, o.world, answers).Evaluated?
    ensures var a := Eval(fuel, first, pad, w, answers);
            var b := Eval(fuel, second, pad, a.world, answers);
            EvalArguments(fuel, Node(OpSequence, [first, second]), [], pad, w, answers)
            == Arguments([a.value, b.value], b.world, a.steps + b.steps)
  {
    hide Finish;
    var node := Node(OpSequence, [first, second]);
    var a := Eval(fuel, first, pad, w, answers);
    var b := Eval(fuel, second, pad, a.world, answers);
    assert [] + [a.value] == [a.value] && [a.value] + [b.value] == [a.value, b.value];
    assert ArgumentsReady(node, [a.value, b.value]) && !ArgumentsReady(node, [a.value]) && !ArgumentsReady(node, []);
    assert EvalArguments(fuel, node, [a.value, b.value], pad, b.world, answers)
        == Arguments([a.value, b.value], b.world, 0);
    assert EvalArguments(fuel, node, [a.value], pad, a.world, answers)
        == Arguments([a.value, b.value], b.world, b.steps);
  }

  lemma SequenceOfTwo(fuel: nat, first: Node, second: Node, pad: nat, w: World, answers: Answers)
    requires var o := Eval(fuel, first, pad, w, answers);
             o.Evaluated? && !Interrupts(o.value) && Eval(fuel, second, pad, o.world, answers).Evaluated?
    ensures var a := Eval(fuel, first, pad, w, answers);
            var b := Eval(fuel, second, pad, a.world, answers);
            var o := Eval(fuel, Node(OpSequence, [first, second]), pad, w, answers);
            o.Evaluated? && o.value == b.value && o.world == b.world
  {
    ArgumentsOfTwo(fuel, first, second, pad, w, answers);
    var b := Eval(fuel, second, pad, Eval(fuel, first, pad, w, answers).world, answers);
    assert b.world.(pads := b.world.pads) == b.world;
  }
}
