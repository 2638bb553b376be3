/** What running the tree of a read transition makes of a message of texts. */
module ReadTransitions {
  import opened Options
  import opened Octets
  import opened Escape
  import opened DataTypes
  import T = Translate
  import opened Values
  import opened ReadOperations
  import opened Reading
  import opened Evaluator
  import opened Generation
  import opened Sending
  import opened Receiving
  import opened MemberFields
  import E = Emitted

  // ----- messages of texts -----

  /** The texts of a message's fields. */
  type Texts = map<T.Identifier, Bytes>

  predicate IsField(actions: seq<T.Action>, i: nat) {
    i < |actions| && actions[i].ReadOctetsUntilTerminator?
  }

  /** Literals and text fields: names and members of names. */
  ghost predicate Textual(actions: seq<T.Action>, types: Types) {
    forall i :: 0 <= i < |actions| ==> TextualAction(actions[i], types)
  }

  ghost predicate TextualAction(a: T.Action, types: Types) {
    match a
    case ReadStaticOctets(_) => true
    case ReadOctetsUntilTerminator(terminator, id, e) =>
      terminator != [] && TextField(id, types) && (e.Some? ==> exists k: nat :: Folding(terminator, e.value, k))
    case _ => false
  }

  predicate TextField(id: T.Identifier, types: Types) {
    && id.name in types
    && if id.member.None? then types[id.name].StrType?
       else id.member.value.member.None? && MemberType(types[id.name], id.member.value) == Some(StrType)
  }

  function TextOf(a: T.Action, texts: Texts): Bytes
    requires a.ReadOctetsUntilTerminator?
  {
    if a.identifier in texts then texts[a.identifier] else []
  }

  /** What a writer puts on the wire for the action. */
  ghost function WireOf(a: T.Action, types: Types, texts: Texts): Bytes
    requires TextualAction(a, types)
  {
    match a
    case ReadStaticOctets(octets) => octets
    case ReadOctetsUntilTerminator(terminator, id, e) => E.OnWire(TextOf(a, texts), e) + terminator
    case _ => []
  }

  ghost function WireFrom(actions: seq<T.Action>, k: nat, types: Types, texts: Texts): Bytes
    requires Textual(actions, types)
    decreases |actions| - k
  {
    if k >= |actions| then [] else WireOf(actions[k], types, texts) + WireFrom(actions, k + 1, types, texts)
  }

  /**
   The text is there, and it reads back before `following`: its terminator does not
   start early in it, or does not become an escape sequence with what follows.
   */
  predicate SafeText(a: T.Action, texts: Texts, following: Bytes) {
    a.ReadOctetsUntilTerminator? ==>
      && a.identifier in texts
      && if a.escape.None? then Find(TextOf(a, texts) + a.terminator, a.terminator, 0) == Some(|TextOf(a, texts)|)
         else !At(a.terminator + following, a.escape.value.sequence, 0)
  }

  /** So for all fields from action `k` on, with `rest` behind the message. */
  ghost predicate SafeTexts(actions: seq<T.Action>, k: nat, types: Types, texts: Texts, rest: Bytes)
    requires Textual(actions, types)
    decreases |actions| - k
  {
    k < |actions| ==>
      && SafeText(actions[k], texts, WireFrom(actions, k + 1, types, texts) + rest)
      && SafeTexts(actions, k + 1, types, texts, rest)
  }

  predicate Unescaped(actions: seq<T.Action>) {
    forall i :: 0 <= i < |actions| && actions[i].ReadOctetsUntilTerminator? ==> actions[i].escape.None?
  }

  /** Texts without escapes may arrive in any chunks, others in one. */
  predicate Arrived(actions: seq<T.Action>, w: World) {
    Unescaped(actions) || |w.input| <= 1
  }

  function OperationOf(a: T.Action): ReadOperation {
    match a
    case ReadOctetsUntilTerminator(terminator, _, e) => ReadOctetsUntilTerminator(terminator, e)
    case ReadStaticOctets(octets) => ReadStaticOctets(octets)
    case _ => ReadStaticOctets([])
  }

  function ValueOf(a: T.Action, texts: Texts): Value {
    if a.ReadOctetsUntilTerminator? then Text(TextOf(a, texts)) else Bool(true)
  }

  lemma {:induction false} SameAsItself(octets: Bytes)
    ensures SameUpToNul(octets, octets, |octets|)
    decreases |octets|
  {
    if octets != [] { SameAsItself(octets[1..]); }
  }

  /** A literal is recognised whatever follows it. */
  lemma LiteralDecides(octets: Bytes, stream: Bytes)
    requires octets <= stream
    ensures Decide(ReadStaticOctets(octets), stream) == Some((Bool(true), |octets|))
  {
    SameAsItself(octets);
    assert stream[..|octets|] == octets;
  }

  /** One operation without escapes takes exactly what was sent for it, whatever follows. */
  lemma DecidesWire(a: T.Action, types: Types, texts: Texts, rest: Bytes)
    requires TextualAction(a, types) && SafeText(a, texts, rest) && Unescaped([a])
    ensures Streams(OperationOf(a))
    ensures Decide(OperationOf(a), WireOf(a, types, texts) + rest)
         == Some((ValueOf(a, texts), |WireOf(a, types, texts)|))
  {
    hide Decide, Find, At;
    var stream := WireOf(a, types, texts) + rest;
    assert [a][0] == a;
    match a
    case ReadStaticOctets(octets) =>
      LiteralDecides(octets, stream);
    case ReadOctetsUntilTerminator(terminator, id, _) =>
      FieldDecides(texts[id], terminator, texts[id] + terminator, stream);
  }

  // ----- the script -----

  function Script(actions: seq<T.Action>, k: nat): seq<ReadOperation>
    decreases |actions| - k
  {
    if k >= |actions| then [] else [OperationOf(actions[k])] + Script(actions, k + 1)
  }

  function ValuesFrom(actions: seq<T.Action>, k: nat, texts: Texts): seq<Value>
    decreases |actions| - k
  {
    if k >= |actions| then [] else [ValueOf(actions[k], texts)] + ValuesFrom(actions, k + 1, texts)
  }

  /** The read operations of a message mean its values on what was sent for it, and take exactly that. */
  lemma {:induction false} ScriptReadsBack(actions: seq<T.Action>, k: nat, types: Types, texts: Texts, rest: Bytes)
    requires Textual(actions, types) && Unescaped(actions) && SafeTexts(actions, k, types, texts, rest)
    ensures Denote(Script(actions, k), WireFrom(actions, k, types, texts) + rest)
         == Meaning(ValuesFrom(actions, k, texts), |WireFrom(actions, k, types, texts)|)
    decreases |actions| - k
  {
    hide WireOf, Decide;
    if k < |actions| {
      var after := WireFrom(actions, k + 1, types, texts) + rest;
      DecidesWire(actions[k], types, texts, after);
      Split(WireOf(actions[k], types, texts), WireFrom(actions, k + 1, types, texts), rest);
      assert Script(actions, k)[1..] == Script(actions, k + 1);
      ScriptReadsBack(actions, k + 1, types, texts, rest);
    }
  }

  lemma Split(a: Bytes, b: Bytes, c: Bytes)
    ensures a + b + c == a + (b + c) && (a + (b + c))[|a|..] == b + c
  {}

  // ----- one action -----

  /** The outcome of a read: this value, and these octets left, in as few chunks as before. */
  ghost predicate Took(o: Outcome, w: World, v: Value, left: Bytes) {
    && o.Evaluated? && o.value == v && o.world == w.(input := o.world.input)
    && Concat(o.world.input) == left && (|w.input| <= 1 ==> |o.world.input| <= 1)
  }

  /** Input in one chunk is that chunk. */
  lemma OneChunk(input: seq<Bytes>, stream: Bytes)
    requires |input| <= 1 && Concat(input) == stream && stream != []
    ensures input == [stream]
  {
    if input != [] { ConcatOne(input[0]); }
  }

  lemma OperationReads(a: T.Action, types: Types, texts: Texts, w: World, rest: Bytes)
    requires TextualAction(a, types) && SafeText(a, texts, rest) && Arrived([a], w)
    requires Concat(w.input) == WireOf(a, types, texts) + rest
    ensures Took(FinishRead(OperationOf(a), w), w, ValueOf(a, texts), rest)
  {
    var op := OperationOf(a);
    assert [a][0] == a;
    if Unescaped([a]) {
      PlainReads(a, types, texts, w, rest);
    } else {
      EscapedReads(a, types, texts, w, rest);
    }
    hide FinishRead;
    if |w.input| <= 1 { StaysWhole(op, w); }
  }

  lemma PlainReads(a: T.Action, types: Types, texts: Texts, w: World, rest: Bytes)
    requires TextualAction(a, types) && SafeText(a, texts, rest) && Unescaped([a])
    requires Concat(w.input) == WireOf(a, types, texts) + rest
    ensures var o := FinishRead(OperationOf(a), w);
            && o.Evaluated? && o.value == ValueOf(a, texts) && o.world == w.(input := o.world.input)
            && Concat(o.world.input) == rest
  {
    hide Decide, FinishRead, Concat, Find, At;
    DecidesWire(a, types, texts, rest);
    DecidedRead(OperationOf(a), w, ValueOf(a, texts), |WireOf(a, types, texts)|);
    assert (WireOf(a, types, texts) + rest)[|WireOf(a, types, texts)|..] == rest;
  }

  lemma EscapedReads(a: T.Action, types: Types, texts: Texts, w: World, rest: Bytes)
    requires TextualAction(a, types) && SafeText(a, texts, rest) && a.ReadOctetsUntilTerminator? && a.escape.Some?
    requires |w.input| <= 1 && Concat(w.input) == WireOf(a, types, texts) + rest
    ensures var o := FinishRead(OperationOf(a), w);
            && o.Evaluated? && o.value == ValueOf(a, texts) && o.world == w.(input := o.world.input)
            && Concat(o.world.input) == rest
  {
    hide FinishRead, Concat, Escaped, At, Find;
    var t, e, text := a.terminator, a.escape.value, TextOf(a, texts);
    var k: nat :| Folding(t, e, k);
    var stream := WireOf(a, types, texts) + rest;
    assert stream == Escape.Wire(text, t, e, rest);
    OneChunk(w.input, stream);
    EscapedTextRead(text, t, e, k, rest, w);
  }

  // ----- the reading tree -----

  /** What the pad holds for a field. */
  function Shown(names: map<string, Value>, id: T.Identifier): Option<Value> {
    if id.name !in names then None
    else if id.member.None? then Some(names[id.name])
    else MemberOf(names[id.name], id.member.value)
  }

  /** The names of the pad once the fields from action `k` on have been read. */
  function FilledFrom(names: map<string, Value>, actions: seq<T.Action>, k: nat, texts: Texts): map<string, Value>
    decreases |actions| - k
  {
    if k >= |actions| then names
    else FilledFrom(AfterAction(names, actions[k], texts), actions, k + 1, texts)
  }

  function AfterAction(names: map<string, Value>, a: T.Action, texts: Texts): map<string, Value> {
    if a.ReadOctetsUntilTerminator? && a.identifier.name in names
    then names[a.identifier.name := Filled(names[a.identifier.name], a.identifier, Text(TextOf(a, texts)))]
    else names
  }

  function Filled(v: Value, id: T.Identifier, x: Value): Value {
    if id.member.None? then x else Stored(v, id.member.value, x)
  }

  /** Every field is bound at the pad, to no error or instruction, and to a tuple if a member is read. */
  ghost predicate Bound(actions: seq<T.Action>, names: map<string, Value>) {
    forall i :: 0 <= i < |actions| && actions[i].ReadOctetsUntilTerminator? ==>
      BoundField(actions[i].identifier, names)
  }

  predicate BoundField(id: T.Identifier, names: map<string, Value>) {
    && id.name in names && !Interrupts(names[id.name])
    && (id.member.Some? ==> names[id.name].Dictionary?)
  }

  /** A read field leaves the other fields bound. */
  lemma BoundAfter(actions: seq<T.Action>, types: Types, names: map<string, Value>, k: nat, texts: Texts)
    requires Textual(actions, types) && Bound(actions, names) && k < |actions|
    ensures Bound(actions, AfterAction(names, actions[k], texts))
    ensures AfterAction(names, actions[k], texts).Keys == names.Keys
  {
    assert TextualAction(actions[k], types);
    if actions[k].ReadOctetsUntilTerminator? {
      var id := actions[k].identifier;
      assert BoundField(id, names);
      forall i | 0 <= i < |actions| && actions[i].ReadOctetsUntilTerminator?
        ensures BoundField(actions[i].identifier, AfterAction(names, actions[k], texts))
      {
        assert TextualAction(actions[i], types) && BoundField(actions[i].identifier, names);
      }
    }
  }

  ghost predicate FieldIn(actions: seq<T.Action>, k: nat, id: T.Identifier) {
    exists i :: k <= i < |actions| && actions[i].ReadOctetsUntilTerminator? && actions[i].identifier == id
  }

  /** A name and a member of that name. */
  predicate Overlap(a: T.Identifier, b: T.Identifier) {
    a.name == b.name && a.member.Some? != b.member.Some?
  }

  /** A name or a member of a name, of which no part and no whole is read. */
  ghost predicate Separate(actions: seq<T.Action>, id: T.Identifier) {
    && (id.member.Some? ==> id.member.value.member.None?)
    && forall i :: 0 <= i < |actions| && actions[i].ReadOctetsUntilTerminator? ==> !Overlap(actions[i].identifier, id)
  }

  /** Exactly the fields read have new values, their texts. */
  lemma {:induction false} FilledIs(names: map<string, Value>, actions: seq<T.Action>, k: nat, types: Types,
                                    texts: Texts, id: T.Identifier)
    requires Textual(actions, types) && Bound(actions, names) && Separate(actions, id)
    requires forall i :: 0 <= i < |actions| && actions[i].ReadOctetsUntilTerminator? ==> actions[i].identifier in texts
    ensures FilledFrom(names, actions, k, texts).Keys == names.Keys
    ensures Shown(FilledFrom(names, actions, k, texts), id)
         == if FieldIn(actions, k, id) then Some(Text(texts[id])) else Shown(names, id)
    decreases |actions| - k
  {
    if k < |actions| {
      var a, next := actions[k], AfterAction(names, actions[k], texts);
      BoundAfter(actions, types, names, k, texts);
      FilledIs(next, actions, k + 1, types, texts, id);
      assert FieldIn(actions, k, id) <==>
          FieldIn(actions, k + 1, id) || (a.ReadOctetsUntilTerminator? && a.identifier == id);
      ShownAfter(names, a, types, texts, id);
    }
  }

  lemma ShownAfter(names: map<string, Value>, a: T.Action, types: Types, texts: Texts, id: T.Identifier)
    requires TextualAction(a, types) && (id.member.Some? ==> id.member.value.member.None?)
    requires a.ReadOctetsUntilTerminator? ==> BoundField(a.identifier, names) && !Overlap(a.identifier, id)
    ensures Shown(AfterAction(names, a, texts), id)
         == if a.ReadOctetsUntilTerminator?
           && a.identifier == id then Some(Text(TextOf(a, texts))) else Shown(names, id)
  {
    if a.ReadOctetsUntilTerminator? && a.identifier.name == id.name && id.member.Some? {
      var path, other := a.identifier.member.value, id.member.value;
      assert path == other <==> path.name == other.name;
    }
  }

  /** The world with the fields filled and the octets taken. */
  ghost predicate ReadInto(w1: World, w: World, pad: nat, names: map<string, Value>, left: Bytes)
    requires pad < |w.pads|
  {
    && w1 == w.(pads := w.pads[pad := w.pads[pad].(names := names)], input := w1.input)
    && Concat(w1.input) == left && (|w.input| <= 1 ==> |w1.input| <= 1)
  }

  /** One action's tree. */
  lemma ActionReads(fuel: nat, a: T.Action, types: Types, texts: Texts, pad: nat, w: World, rest: Bytes,
                    answers: Answers)
    requires TextualAction(a, types) && SafeText(a, texts, rest) && Arrived([a], w) && pad < |w.pads|
    requires a.ReadOctetsUntilTerminator? ==> BoundField(a.identifier, w.pads[pad].names)
    requires Concat(w.input) == WireOf(a, types, texts) + rest
    ensures ReadNode(a, types).Some?
    ensures var o := Eval(fuel, ReadNode(a, types).value, pad, w, answers);
            o.Evaluated? && !Interrupts(o.value)
            && ReadInto(o.world, w, pad, AfterAction(w.pads[pad].names, a, texts), rest)
  {
    hide FinishRead, Concat, Eval, Find, At, Stored, WireOf;
    var op := OperationOf(a);
    OperationReads(a, types, texts, w, rest);
    ReadLeaf(fuel, op, pad, w, answers);
    if a.ReadStaticOctets? {
      assert w.pads[pad := w.pads[pad].(names := w.pads[pad].names)] == w.pads;
    } else if a.identifier.member.None? {
      FieldStored(fuel, a.identifier.name, Node(op, []), pad, pad, w, answers);
    } else {
      MemberStored(fuel, a, StrType, types, pad, pad, w, answers);
    }
  }

  lemma {:induction false} SequenceReads(fuel: nat, actions: seq<T.Action>, types: Types, texts: Texts, ops: seq<Node>,
                                         done: seq<Value>, pad: nat, w: World, rest: Bytes, answers: Answers)
    requires Textual(actions, types) && |ops| == |actions| && |done| <= |ops| && Calm(done)
    requires SafeTexts(actions, |done|, types, texts, rest) && Arrived(actions, w)
    requires forall i :: 0 <= i < |actions| ==> ReadNode(actions[i], types) == Some(ops[i])
    requires pad < |w.pads| && Bound(actions, w.pads[pad].names)
    requires Concat(w.input) == WireFrom(actions, |done|, types, texts) + rest
    ensures var o := EvalArguments(fuel, Node(OpSequence, ops), done, pad, w, answers);
            && o.Arguments? && |o.values| == |ops| && Calm(o.values)
            && ReadInto(o.world, w, pad, FilledFrom(w.pads[pad].names, actions, |done|, texts), rest)
    decreases |ops| - |done|
  {
    hide Eval, ReadNode, Concat, WireOf, AfterAction, SafeText;
    var k, node := |done|, Node(OpSequence, ops);
    if k < |ops| {
      var after := WireFrom(actions, k + 1, types, texts) + rest;
      Split(WireOf(actions[k], types, texts), WireFrom(actions, k + 1, types, texts), rest);
      assert Arrived([actions[k]], w);
      ActionReads(fuel, actions[k], types, texts, pad, w, after, answers);
      BoundAfter(actions, types, w.pads[pad].names, k, texts);
      var o := Eval(fuel, ops[k], pad, w, answers);
      assert !ArgumentsReady(node, done) && node.children[k] == ops[k];
      SequenceReads(fuel, actions, types, texts, ops, done + [o.value], pad, o.world, rest, answers);
    } else {
      assert ArgumentsReady(node, done);
      assert w.pads[pad := w.pads[pad].(names := w.pads[pad].names)] == w.pads;
    }
  }

  lemma {:induction false} ActionsCompileToo(actions: seq<T.Action>, types: Types)
    requires Textual(actions, types)
    ensures ReadNodes(actions, types).Some?
    decreases |actions|
  {
    if actions != [] {
      var a := actions[0];
      assert TextualAction(a, types);
      assert forall i :: 0 <= i < |actions| - 1 ==> actions[1..][i] == actions[i + 1];
      if a.ReadOctetsUntilTerminator? && a.identifier.member.Some? {
        LocateHas(types[a.identifier.name], a.identifier.member.value, Node(LexicalPadGet(a.identifier.name), []));
      }
      ActionsCompileToo(actions[1..], types);
    }
  }

  /** The nodes of the actions, in sequence. */
  lemma ActionsRead(fuel: nat, actions: seq<T.Action>, types: Types, texts: Texts, pad: nat, w: World, rest: Bytes,
                    answers: Answers)
    requires Textual(actions, types) && SafeTexts(actions, 0, types, texts, rest) && Arrived(actions, w)
    requires pad < |w.pads| && Bound(actions, w.pads[pad].names)
    requires Concat(w.input) == WireFrom(actions, 0, types, texts) + rest
    ensures ReadNodes(actions, types).Some?
    ensures var o := Eval(fuel, Node(OpSequence, ReadNodes(actions, types).value), pad, w, answers);
            && o.Evaluated? && !Interrupts(o.value)
            && ReadInto(o.world, w, pad, FilledFrom(w.pads[pad].names, actions, 0, texts), rest)
  {
    ActionsCompileToo(actions, types);
    hide Eval, WireFrom, FilledFrom, ReadNodes, Concat, SafeTexts;
    var ops := ReadNodes(actions, types).value;
    SequenceReads(fuel, actions, types, texts, ops, [], pad, w, rest, answers);
    SequenceValue(fuel, ops, pad, w, answers);
  }

  lemma SequenceValue(fuel: nat, ops: seq<Node>, pad: nat, w: World, answers: Answers)
    requires var o := EvalArguments(fuel, Node(OpSequence, ops), [], pad, w, answers); o.Arguments? && Calm(o.values)
    ensures var o := Eval(fuel, Node(OpSequence, ops), pad, w, answers);
            && o.Evaluated? && !Interrupts(o.value)
            && o.world == EvalArguments(fuel, Node(OpSequence, ops), [], pad, w, answers).world
  {
    var o := EvalArguments(fuel, Node(OpSequence, ops), [], pad, w, answers);
    assert o.world.(pads := o.world.pads) == o.world;
  }

  /** The outcome is the pad's names as a dictionary in a list, with these octets left. */
  ghost predicate ReadBack(o: Outcome, w: World, pad: nat, names: map<string, Value>, left: Bytes)
    requires pad < |w.pads|
  {
    o.Evaluated? && o.value == DynamicList([Dictionary(names)]) && ReadInto(o.world, w, pad, names, left)
  }

  /**
   The interpreted reader of a message of texts: however the octets sent for it and
   anything after them were cut into chunks (in one chunk if there are escapes), the
   emitted tree takes exactly the message, and returns the pad's names with every
   field holding its text.
   */
  lemma TransitionTreeReads(fuel: nat, actions: seq<T.Action>, types: Types, texts: Texts, pad: nat, w: World,
                            rest: Bytes, answers: Answers)
    requires Textual(actions, types) && SafeTexts(actions, 0, types, texts, rest) && Arrived(actions, w)
    requires pad < |w.pads| && Bound(actions, w.pads[pad].names)
    requires Concat(w.input) == WireFrom(actions, 0, types, texts) + rest
    ensures TransitionTree(true, actions, types).Some?
    ensures ReadBack(Eval(fuel, TransitionTree(true, actions, types).value, pad, w, answers), w, pad,
                     FilledFrom(w.pads[pad].names, actions, 0, texts), rest)
  {
    hide Eval, WireFrom, FilledFrom, ReadNodes, Concat, SafeTexts;
    ActionsRead(fuel, actions, types, texts, pad, w, rest, answers);
    TreeGives(fuel, ReadNodes(actions, types).value, pad, w, answers);
  }

  // ----- the round trip -----

  /** The sender's data has these texts. */
  ghost predicate Holding(actions: seq<T.Action>, types: Types, env: Environment, texts: Texts) {
    forall i :: 0 <= i < |actions| && actions[i].ReadOctetsUntilTerminator? ==>
      actions[i].identifier in texts
      && FieldOctets(actions[i].identifier, types, env) == Some(texts[actions[i].identifier])
  }

  /** The write actions of the same description send just those octets. */
  lemma {:induction false} WireIsSent(actions: seq<T.Action>, k: nat, types: Types, env: Environment, texts: Texts)
    requires Textual(actions, types) && Holding(actions, types, env, texts) && k <= |actions|
    ensures SentAll(T.Expand(actions[k..]), types, env) == Some(WireFrom(actions, k, types, texts))
    ensures DepthOf(T.Expand(actions[k..])) == 0
    decreases |actions| - k
  {
    if k < |actions| {
      WireIsSent(actions, k + 1, types, env, texts);
      assert actions[k..][0] == actions[k] && actions[k..][1..] == actions[k + 1..];
      var tail := T.Expand(actions[k + 1..]);
      assert TextualAction(actions[k], types);
      if actions[k].ReadStaticOctets? {
        OneMore(T.WriteStaticOctets(actions[k].octets), tail, types, env);
      } else {
        FieldIsSent(actions[k], tail, types, env, texts);
        Split(E.OnWire(TextOf(actions[k], texts), actions[k].escape), actions[k].terminator,
              WireFrom(actions, k + 1, types, texts));
      }
    }
  }

  lemma FieldIsSent(a: T.Action, tail: seq<T.Action>, types: Types, env: Environment, texts: Texts)
    requires TextualAction(a, types) && a.ReadOctetsUntilTerminator? && a.identifier in texts
    requires FieldOctets(a.identifier, types, env) == Some(texts[a.identifier])
    ensures SentAll(T.ExpandOne(a) + tail, types, env)
         == Both(Some(E.OnWire(TextOf(a, texts), a.escape)), Both(Some(a.terminator), SentAll(tail, types, env)))
    ensures DepthOf(T.ExpandOne(a) + tail) == DepthOf(tail)
  {
    hide FieldOctets;
    var id, terminator := a.identifier, a.terminator;
    var both := T.ExpandOne(a) + tail;
    assert both[1..] == [T.WriteStaticOctets(terminator)] + tail;
    OneMore(T.WriteStaticOctets(terminator), tail, types, env);
    OneMore(T.WriteFromIdentifier(id, a.escape), both[1..], types, env);
    assert both == [T.WriteFromIdentifier(id, a.escape)] + both[1..];
  }

  lemma OneMore(a: T.Action, tail: seq<T.Action>, types: Types, env: Environment)
    ensures SentAll([a] + tail, types, env) == Both(Sent(a, types, env), SentAll(tail, types, env))
    ensures !a.Loop? ==> DepthOf([a] + tail) == DepthOf(tail)
  {
    assert ([a] + tail)[1..] == tail;
  }

  /**
   One description, both interpreters: what the writer's tree sends for texts that
   read back, the reader's tree turns back into them, whatever follows, and takes
   exactly that; without escapes however it was cut into chunks, with escapes when it
   arrived in one.
   */
  lemma InterpretedRoundTrip(parts: seq<T.MessagePart>, readActions: seq<T.Action>, writeActions: seq<T.Action>,
                             types: Types, env: Environment, texts: Texts, sender: World, senderPad: nat,
                             receiver: World, receiverPad: nat, rest: Bytes, answers: Answers, others: Answers)
    requires T.ReadActions(parts) == Some(readActions) && T.WriteActions(parts) == Some(writeActions)
    requires Textual(readActions, types) && SafeTexts(readActions, 0, types, texts, rest)
    requires Shows(sender.pads, senderPad, env) && Holding(readActions, types, env, texts) && !sender.eof
    requires receiverPad < |receiver.pads| && Bound(readActions, receiver.pads[receiverPad].names)
    requires Arrived(readActions, receiver)
    ensures TransitionTree(false, writeActions, types).Some? && TransitionTree(true, readActions, types).Some?
    ensures Wrote(Eval(0, TransitionTree(false, writeActions, types).value, senderPad, sender, answers), sender,
                  WireFrom(readActions, 0, types, texts))
    ensures Concat(receiver.input) == WireFrom(readActions, 0, types, texts) + rest ==>
              ReadBack(Eval(0, TransitionTree(true, readActions, types).value, receiverPad, receiver, others),
                       receiver, receiverPad,
                       FilledFrom(receiver.pads[receiverPad].names, readActions, 0, texts), rest)
  {
    T.ReadWriteDual(parts);
    hide Eval, TransitionTree, SentAll, FilledFrom, Concat, SafeTexts;
    WireIsSent(readActions, 0, types, env, texts);
    assert readActions[0..] == readActions;
    var wire := WireFrom(readActions, 0, types, texts);
    TransitionTreeSends(0, writeActions, types, env, senderPad, sender, answers);
    if Concat(receiver.input) == wire + rest {
      TransitionTreeReads(0, readActions, types, texts, receiverPad, receiver, rest, others);
    } else {
      TreeExists(readActions, types);
    }
  }

  lemma TreeExists(actions: seq<T.Action>, types: Types)
    requires Textual(actions, types)
    ensures TransitionTree(true, actions, types).Some?
  {
    ActionsCompileToo(actions, types);
  }
}
