/** What a generated reader of `name.member`, of any depth, leaves in its variable. */
module MemberFields {
  import opened Options
  import opened Octets
  import opened Escape
  import opened DataTypes
  import T = Translate
  import opened Values
  import opened ReadOperations
  import opened Reading
  import opened Evaluator
  import opened Generation
  import opened Sending
  import opened Receiving

  // ----- the tree -----

  function LastName(path: T.Identifier): string {
    if path.member.None? then path.name else LastName(path.member.value)
  }

  /** The lookups of all names but the last. */
  function Through(v: Value, path: T.Identifier): Value
    decreases path
  {
    if path.member.None? then v else Through(ApplyDictionaryGet(path.name, v), path.member.value)
  }

  /** The operation that reads a field of a type: the octets' reader, or the integer reader on top of it. */
  function Reader(t: DataType, terminator: Bytes, e: Option<EscapeInfo>): ReadOperation {
    if t.IntType? then ReadIntFromAscii else ReadOctetsUntilTerminator(terminator, e)
  }

  lemma ReaderReads(fuel: nat, t: DataType, terminator: Bytes, e: Option<EscapeInfo>, pad: nat, w: World,
                    answers: Answers)
    requires ReadValue(t, terminator, e).Some?
    ensures Eval(fuel, ReadValue(t, terminator, e).value, pad, w, answers)
         == FinishRead(Reader(t, terminator, e), w)
  {
    if t.IntType? {
      IntegerReaderIgnoresChild(fuel, Node(ReadOctetsUntilTerminator(terminator, e), []), pad, w, answers);
    } else {
      ReadLeaf(fuel, ReadOctetsUntilTerminator(terminator, e), pad, w, answers);
    }
  }

  /** The integer reader has no arguments, so the child that would take the field's octets never runs. */
  lemma IntegerReaderIgnoresChild(fuel: nat, child: Node, pad: nat, w: World, answers: Answers)
    ensures Eval(fuel, Node(ReadIntFromAscii, [child]), pad, w, answers) == FinishRead(ReadIntFromAscii, w)
  {
    hide FinishRead;
    assert EvalArguments(fuel, Node(ReadIntFromAscii, [child]), [], pad, w, answers) == Arguments([], w, 0);
  }

  /** The tree `Locate` builds evaluates to what the lookups lead to, errors included. */
  lemma {:induction false} HolderIsThrough(fuel: nat, t: DataType, path: T.Identifier, current: Node, v: Value,
                                           pad: nat, w: World, answers: Answers)
    requires Pure(Eval(fuel, current, pad, w, answers), v, w) && MemberType(t, path).Some?
    ensures Locate(t, path, current).Some?
    ensures var place := Locate(t, path, current).value;
            && place.member == LastName(path) && place.memberType == MemberType(t, path).value
            && Pure(Eval(fuel, place.holder, pad, w, answers), Through(v, path), w)
    decreases path
  {
    hide Eval;
    if path.member.Some? {
      var inner := ApplyDictionaryGet(path.name, v);
      EvalUnary(fuel, DictionaryGet(path.name), current, pad, w, answers);
      FinishPure(fuel, DictionaryGet(path.name), [v], inner, pad, w, answers);
      HolderIsThrough(fuel, Parameters(t)[path.name], path.member.value, Node(DictionaryGet(path.name), [current]),
                      inner, pad, w, answers);
    }
  }

  /** What the variable holds afterwards, when it held `v` and `x` was read. */
  function Stored(v: Value, path: T.Identifier, x: Value): Value {
    ApplyDictionarySet(LastName(path), Through(v, path), x)
  }

  /** Setting a member of what a tree evaluates to. */
  lemma MemberSet(fuel: nat, member: string, holder: Node, child: Node, d: Value, pad: nat, w: World, answers: Answers)
    requires Pure(Eval(fuel, holder, pad, w, answers), d, w) && Eval(fuel, child, pad, w, answers).Evaluated?
    ensures var read := Eval(fuel, child, pad, w, answers);
            var o := Eval(fuel, Node(DictionarySet(member), [holder, child]), pad, w, answers);
            o.Evaluated? && o.value == ApplyDictionarySet(member, d, read.value) && o.world == read.world
  {
    var node := Node(DictionarySet(member), [holder, child]);
    var read := Eval(fuel, child, pad, w, answers);
    FinishPure(fuel, DictionarySet(member), [d, read.value], ApplyDictionarySet(member, d, read.value), pad,
               read.world, answers);
    hide Finish, EvalArguments;
    TwoArguments(fuel, node, d, read.value, pad, w, read.world, answers);
  }

  /**
   The generated reader of a member, for every path and whatever the variable held:
   it reads the field and leaves in the variable what setting the last name in the
   value the other names lead to gives, which is not the variable's own value unless
   there are no other names.
   */
  lemma MemberStored(fuel: nat, a: T.Action, t: DataType, types: Types, b: nat, pad: nat, w: World, answers: Answers)
    requires a.ReadOctetsUntilTerminator? && a.identifier.member.Some? && a.identifier.name in types
    requires MemberType(types[a.identifier.name], a.identifier.member.value) == Some(t)
    requires ReadValue(t, a.terminator, a.escape).Some?
    requires Binder(w.pads, pad, a.identifier.name) == Some(b)
    requires FinishRead(Reader(t, a.terminator, a.escape), w).Evaluated?
    ensures ReadNode(a, types).Some?
    ensures var name, path := a.identifier.name, a.identifier.member.value;
            var read := FinishRead(Reader(t, a.terminator, a.escape), w);
            var o := Eval(fuel, ReadNode(a, types).value, pad, w, answers);
            && o.Evaluated? && o.value == w.pads[b].names[name]
            && o.world == read.world.(pads :=
              Assigned(w.pads, b, name, Stored(w.pads[b].names[name], path, read.value)))
  {
    hide Eval, FinishRead, Locate, MemberType;
    var name, path := a.identifier.name, a.identifier.member.value;
    var v, variable := w.pads[b].names[name], Node(LexicalPadGet(name), []);
    VariablePure(fuel, name, pad, w, answers);
    HolderIsThrough(fuel, types[name], path, variable, v, pad, w, answers);
    var holder, child := Locate(types[name], path, variable).value.holder, ReadValue(t, a.terminator, a.escape).value;
    ReaderReads(fuel, t, a.terminator, a.escape, pad, w, answers);
    MemberSet(fuel, LastName(path), holder, child, Through(v, path), pad, w, answers);
    var node := Node(DictionarySet(LastName(path)), [holder, child]);
    FieldStored(fuel, name, node, b, pad, w, answers);
  }

  // ----- in place -----

  /** The names lead through dictionaries to one that can hold the last. */
  predicate Leads(v: Value, path: T.Identifier)
    decreases path
  {
    v.Dictionary? && (path.member.Some? ==> path.name in v.members && Leads(v.members[path.name], path.member.value))
  }

  /** The value with `x` at the end of the path and all else as it was. */
  function UpdateAt(v: Value, path: T.Identifier, x: Value): Value
    requires Leads(v, path)
    decreases path
  {
    if path.member.None? then Dictionary(v.members[path.name := x])
    else Dictionary(v.members[path.name := UpdateAt(v.members[path.name], path.member.value, x)])
  }

  /** A value is stored if and only if the path leads through dictionaries; otherwise an error is. */
  lemma {:induction false} StoresValue(v: Value, path: T.Identifier, x: Value)
    requires !x.Error?
    ensures Stored(v, path, x).Error? <==> !Leads(v, path)
    ensures !Stored(v, path, x).Error? ==> Stored(v, path, x).Dictionary?
    decreases path
  {
    if path.member.Some? {
      var inner := ApplyDictionaryGet(path.name, v);
      StoresValue(inner, path.member.value, x);
    }
  }

  /** A read that gave an error leaves that error in the variable, if the path was there. */
  lemma {:induction false} ReadErrorStored(v: Value, path: T.Identifier, error: RuntimeError)
    requires Leads(v, path)
    ensures Stored(v, path, Error(error)) == Error(error)
    decreases path
  {
    if path.member.Some? {
      ReadErrorStored(v.members[path.name], path.member.value, error);
    }
  }

  /** The inner value, one or more names down, lies inside the outer one. */
  lemma {:induction false} ThroughInside(v: Value, path: T.Identifier)
    requires Leads(v, path)
    ensures if path.member.None? then Through(v, path) == v else Through(v, path) < v
    decreases path
  {
    if path.member.Some? {
      assert v.members[path.name] < v;
      ThroughInside(v.members[path.name], path.member.value);
    }
  }

  /** After the update in place, the names but the last lead to the holder with its member set. */
  lemma {:induction false} UpdatedHolder(v: Value, path: T.Identifier, x: Value)
    requires Leads(v, path) && !x.Error?
    ensures Leads(UpdateAt(v, path, x), path)
    ensures Through(UpdateAt(v, path, x), path) == Stored(v, path, x)
    decreases path
  {
    if path.member.Some? {
      UpdatedHolder(v.members[path.name], path.member.value, x);
    }
  }

  /**
   On a value that has the path, what is stored is the value updated in place if and
   only if the path is a single name: otherwise it is the innermost dictionary, and
   everything around it is gone.
   */
  lemma InPlaceIffSingle(v: Value, path: T.Identifier, x: Value)
    requires Leads(v, path) && !x.Error?
    ensures Stored(v, path, x) == UpdateAt(v, path, x) <==> path.member.None?
  {
    UpdatedHolder(v, path, x);
    ThroughInside(UpdateAt(v, path, x), path);
  }

  /** On the empty tuple a loop starts its variable with, more than one name gives an error. */
  lemma FreshTuple(path: T.Identifier, x: Value)
    requires !x.Error?
    ensures Stored(Dictionary(map[]), path, x) ==
            if path.member.None? then Dictionary(map[path.name := x])
            else if path.member.value.member.None? then Error(NameError)
            else Error(TypeError)
  {
    if path.member.Some? { ErrorStays(NameError, path.member.value, x); }
  }

  lemma {:induction false} ErrorStays(error: RuntimeError, path: T.Identifier, x: Value)
    ensures Stored(Error(error), path, x) == if path.member.None? then Error(error) else Error(TypeError)
    decreases path
  {
    if path.member.Some? { ErrorStays(TypeError, path.member.value, x); }
  }

  /** On the `false` of an argument left out, every path gives an error. */
  lemma LeftOutArgument(path: T.Identifier, x: Value)
    ensures Stored(Bool(false), path, x) == Error(TypeError)
  {
    if path.member.Some? { ErrorStays(TypeError, path.member.value, x); }
  }

  // ----- texts -----

  /** A text read up to a terminator that has been delivered, whatever the chunks. */
  lemma TextRead(terminator: Bytes, w: World, stream: Bytes, p: nat)
    requires terminator != [] && Concat(w.input) == stream && Find(stream, terminator, 0) == Some(p)
    ensures TextTaken(FinishRead(ReadOctetsUntilTerminator(terminator, None), w), w, stream[..p],
                      stream[p + |terminator|..])
  {
    hide Find, At, Decide, FinishRead, Concat, TextTaken;
    UntilDecides(stream, stream, terminator);
    DecidedRead(ReadOctetsUntilTerminator(terminator, None), w, Text(stream[..p]), p + |terminator|);
    TakenIs(FinishRead(ReadOctetsUntilTerminator(terminator, None), w), w, stream[..p], stream[p + |terminator|..]);
  }

  lemma TakenIs(o: Outcome, w: World, text: Bytes, left: Bytes)
    requires o.Evaluated? && o.value == Text(text) && o.world == w.(input := o.world.input)
    requires Concat(o.world.input) == left
    ensures TextTaken(o, w, text, left)
  {}

  /**
   A text member read into a variable that has its path: the variable is updated in
   place if and only if the path is a single name.
   */
  lemma TextMemberInPlace(fuel: nat, a: T.Action, types: Types, b: nat, pad: nat, w: World, answers: Answers)
    requires a.ReadOctetsUntilTerminator? && a.identifier.member.Some? && a.identifier.name in types
    requires MemberType(types[a.identifier.name], a.identifier.member.value) == Some(StrType)
    requires a.escape.None? && a.terminator != [] && Find(Concat(w.input), a.terminator, 0).Some?
    requires Binder(w.pads, pad, a.identifier.name) == Some(b)
    requires Leads(w.pads[b].names[a.identifier.name], a.identifier.member.value)
    ensures ReadNode(a, types).Some?
    ensures var name, path := a.identifier.name, a.identifier.member.value;
            var text := Text(Concat(w.input)[..Find(Concat(w.input), a.terminator, 0).value]);
            var o := Eval(fuel, ReadNode(a, types).value, pad, w, answers);
            && o.Evaluated?
            && (o.world.pads == Assigned(w.pads, b, name, UpdateAt(w.pads[b].names[name], path, text))
                <==> path.member.None?)
  {
    hide Eval, FinishRead, Concat, MemberType, ReadNode, UpdateAt, Stored, Leads;
    var name, path := a.identifier.name, a.identifier.member.value;
    TextRead(a.terminator, w, Concat(w.input), Find(Concat(w.input), a.terminator, 0).value);
    MemberStored(fuel, a, StrType, types, b, pad, w, answers);
    var v, x := w.pads[b].names[name], FinishRead(ReadOctetsUntilTerminator(a.terminator, None), w).value;
    InPlaceIffSingle(v, path, x);
    AssignedIs(w.pads, b, name, UpdateAt(v, path, x), Stored(v, path, x));
  }

  lemma AssignedIs(pads: seq<Pad>, b: nat, name: string, v: Value, x: Value)
    requires b < |pads|
    ensures Assigned(pads, b, name, v) == Assigned(pads, b, name, x) <==> v == x
  {
    assert Assigned(pads, b, name, v)[b].names[name] == v && Assigned(pads, b, name, x)[b].names[name] == x;
  }
}
