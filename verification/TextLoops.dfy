/** What a generated reader of a list of tuples of texts makes of the list its writer sends. */
module TextLoops {
  import opened Options
  import opened Octets
  import opened DataTypes
  import T = Translate
  import opened Values
  import opened Evaluator
  import opened Generation
  import opened Sending
  import opened ReadTransitions
  import opened ReadLoops

  // ----- tuples of texts -----

  function Member(variable: string, member: string): T.Identifier {
    T.Identifier(variable, Some(T.Identifier(member, None)))
  }

  /** A loop of texts: its fields are members of its variable. */
  ghost predicate TextLoop(a: T.Action, types: Types) {
    && a.Loop? && a.terminator != []
    && LoopTypes(types, a.variable.name, a.collection.name).Some?
    && Initializes(Inner(a, types), a.collection.name) && Textual(a.actions, Inner(a, types))
    && OwnMembers(a.actions, a.variable.name)
  }

  function Inner(a: T.Action, types: Types): Types
    requires a.Loop? && LoopTypes(types, a.variable.name, a.collection.name).Some?
  {
    LoopTypes(types, a.variable.name, a.collection.name).value
  }

  predicate OwnMembers(actions: seq<T.Action>, variable: string) {
    forall i :: 0 <= i < |actions| && actions[i].ReadOctetsUntilTerminator? ==>
      actions[i].identifier.name == variable && actions[i].identifier.member.Some?
  }

  /** The value is the tuple of the element's texts. */
  ghost predicate IsTuple(v: Value, variable: string, actions: seq<T.Action>, texts: Texts) {
    && v.Dictionary?
    && (forall i :: 0 <= i < |actions| && actions[i].ReadOctetsUntilTerminator? ==> actions[i].identifier in texts)
    && (forall m: string :: m in v.members <==> FieldIn(actions, 0, Member(variable, m)))
    && (forall m: string :: m in v.members ==> v.members[m] == Text(texts[Member(variable, m)]))
  }

  /** Reading members leaves the variable a tuple. */
  lemma {:induction false} StillTuple(names: map<string, Value>, actions: seq<T.Action>, k: nat, types: Types,
                                      texts: Texts, variable: string)
    requires Textual(actions, types) && OwnMembers(actions, variable)
    requires variable in names && names[variable].Dictionary?
    ensures variable in FilledFrom(names, actions, k, texts)
            && FilledFrom(names, actions, k, texts)[variable].Dictionary?
    decreases |actions| - k
  {
    if k < |actions| {
      assert TextualAction(actions[k], types);
      StillTuple(AfterAction(names, actions[k], texts), actions, k + 1, types, texts, variable);
    }
  }

  lemma ElementBound(variable: string, actions: seq<T.Action>)
    requires OwnMembers(actions, variable)
    ensures Bound(actions, ElementNames(variable))
  {}

  lemma SameMembers(a: Value, b: Value)
    requires a.Dictionary? && b.Dictionary?
    requires forall m: string :: MemberOf(a, T.Identifier(m, None)) == MemberOf(b, T.Identifier(m, None))
    ensures a == b
  {
    forall m: string
      ensures m in a.members <==> m in b.members
      ensures m in a.members ==> a.members[m] == b.members[m]
    {
      assert MemberOf(a, T.Identifier(m, None)) == MemberOf(b, T.Identifier(m, None));
    }
    assert a.members == b.members;
  }

  /** One member of what is read. */
  lemma MemberRead(v: Value, variable: string, actions: seq<T.Action>, types: Types, texts: Texts, m: string)
    requires Textual(actions, types) && OwnMembers(actions, variable) && IsTuple(v, variable, actions, texts)
    ensures var filled := FilledFrom(ElementNames(variable), actions, 0, texts);
            && filled.Keys == {variable}
            && MemberOf(filled[variable], T.Identifier(m, None)) == MemberOf(v, T.Identifier(m, None))
  {
    var names, id := ElementNames(variable), Member(variable, m);
    ElementBound(variable, actions);
    FilledIs(names, actions, 0, types, texts, id);
    hide FilledFrom, Textual, Bound;
    var filled := FilledFrom(names, actions, 0, texts);
    assert names.Keys == {variable};
    assert Shown(filled, id) == MemberOf(filled[variable], T.Identifier(m, None));
    assert m in v.members <==> FieldIn(actions, 0, id);
  }

  /** Reading the fields makes that tuple of the empty one. */
  lemma FilledIsTuple(v: Value, variable: string, actions: seq<T.Action>, types: Types, texts: Texts)
    requires Textual(actions, types) && OwnMembers(actions, variable) && IsTuple(v, variable, actions, texts)
    ensures FilledFrom(ElementNames(variable), actions, 0, texts) == map[variable := v]
  {
    var filled := FilledFrom(ElementNames(variable), actions, 0, texts);
    StillTuple(ElementNames(variable), actions, 0, types, texts, variable);
    hide FilledFrom, Textual, IsTuple, MemberOf;
    MemberRead(v, variable, actions, types, texts, "");
    forall m: string
      ensures MemberOf(filled[variable], T.Identifier(m, None)) == MemberOf(v, T.Identifier(m, None))
    {
      MemberRead(v, variable, actions, types, texts, m);
    }
    TupleIs(v, variable, actions, texts);
    SameMembers(filled[variable], v);
  }

  lemma TupleIs(v: Value, variable: string, actions: seq<T.Action>, texts: Texts)
    requires IsTuple(v, variable, actions, texts)
    ensures v.Dictionary? && !Interrupts(v)
  {}

  /** The element's actions read the element. */
  lemma TupleRead(fuel: nat, a: T.Action, types: Types, pad: nat, texts: Texts, v: Value, tail: Bytes, w: World,
                  answers: Answers)
    requires TextLoop(a, types) && IsTuple(v, a.variable.name, a.actions, texts)
    requires SafeTexts(a.actions, 0, Inner(a, types), texts, tail) && Arrived(a.actions, w)
    requires Concat(w.input) == WireFrom(a.actions, 0, Inner(a, types), texts) + tail
    ensures ReadNodes(a.actions, Inner(a, types)).Some?
    ensures BodyReads(BodyOf(fuel, a.variable.name, ReadNodes(a.actions, Inner(a, types)).value, pad, w, answers),
                      a.variable.name, w, v, tail)
  {
    var variable, inner, w1 := a.variable.name, Inner(a, types), ElementWorld(a.variable.name, pad, w);
    FilledIsTuple(v, variable, a.actions, inner, texts);
    ElementBound(variable, a.actions);
    hide Eval, Concat, FilledFrom, SafeTexts, WireFrom, ReadNodes, IsTuple, Textual, Bound, OwnMembers;
    assert w1.pads[|w.pads|].names == ElementNames(variable);
    ActionsRead(fuel, a.actions, inner, texts, |w.pads|, w1, tail, answers);
  }

  lemma TupleReads(a: T.Action, types: Types, pad: nat, pads: seq<Pad>, texts: Texts, v: Value, tail: Bytes,
                   answers: Answers)
    requires TextLoop(a, types) && IsTuple(v, a.variable.name, a.actions, texts)
    requires SafeTexts(a.actions, 0, Inner(a, types), texts, tail)
    ensures ReadNodes(a.actions, Inner(a, types)).Some?
    ensures ElementReads(a.variable.name, ReadNodes(a.actions, Inner(a, types)).value, pad, pads,
                         WireFrom(a.actions, 0, Inner(a, types), texts), tail, v, !Unescaped(a.actions), answers)
  {
    hide Eval, Concat, FilledFrom, SafeTexts, WireFrom, ReadNodes, IsTuple, BodyReads, BodyOf;
    LoopCompiles(a, types);
    TupleIs(v, a.variable.name, a.actions, texts);
    var body, piece := ReadNodes(a.actions, Inner(a, types)).value, WireFrom(a.actions, 0, Inner(a, types), texts);
    forall fuel: nat, w: World
      | pads <= w.pads && Concat(w.input) == piece + tail && (!Unescaped(a.actions) ==> |w.input| <= 1)
      ensures BodyReads(BodyOf(fuel, a.variable.name, body, pad, w, answers), a.variable.name, w, v, tail)
    {
      TupleRead(fuel, a, types, pad, texts, v, tail, w, answers);
    }
  }

  // ----- what is sent is read but for the last element -----

  /** What the writer sends for the elements. */
  ghost function Pieces(a: T.Action, types: Types, elements: seq<Texts>): (r: seq<Bytes>)
    requires TextLoop(a, types)
    ensures |r| == |elements|
  {
    seq(|elements|, i requires 0 <= i < |elements| => WireFrom(a.actions, 0, Inner(a, types), elements[i]))
  }

  /** Every element's texts read back before what is behind them. */
  ghost predicate SafeElements(a: T.Action, types: Types, elements: seq<Texts>, rest: Bytes)
    requires TextLoop(a, types)
  {
    forall i :: 0 <= i < |elements| ==>
      SafeTexts(a.actions, 0, Inner(a, types), elements[i],
                WireOn(Pieces(a, types, elements), i + 1, a.terminator + rest))
  }

  ghost predicate AreTuples(a: T.Action, elements: seq<Texts>, values: seq<Value>)
    requires a.Loop?
  {
    |values| == |elements| && forall i :: 0 <= i < |values| ==>
      IsTuple(values[i], a.variable.name, a.actions, elements[i])
  }

  lemma ElementsAllRead(a: T.Action, types: Types, elements: seq<Texts>, values: seq<Value>, rest: Bytes, pad: nat,
                        pads: seq<Pad>, answers: Answers)
    requires TextLoop(a, types) && AreTuples(a, elements, values) && SafeElements(a, types, elements, rest)
    ensures ReadNodes(a.actions, Inner(a, types)).Some?
    ensures AllRead(a.variable.name, ReadNodes(a.actions, Inner(a, types)).value, pad, pads,
                    Pieces(a, types, elements), a.terminator + rest, values, !Unescaped(a.actions), answers)
  {
    hide ElementReads, IsTuple, SafeTexts, WireFrom, WireOn, ReadNodes, Textual;
    LoopCompiles(a, types);
    var pieces, after := Pieces(a, types, elements), a.terminator + rest;
    var body := ReadNodes(a.actions, Inner(a, types)).value;
    forall i | 0 <= i < |pieces|
      ensures ElementReads(a.variable.name, body, pad, pads, pieces[i], WireOn(pieces, i + 1, after), values[i],
                           !Unescaped(a.actions), answers)
    {
      TupleReads(a, types, pad, pads, elements[i], values[i], WireOn(pieces, i + 1, after), answers);
    }
  }

  lemma LoopCompiles(a: T.Action, types: Types)
    requires TextLoop(a, types)
    ensures ReadNodes(a.actions, Inner(a, types)).Some?
    ensures ReadNode(a, types) == Some(ReadLoop(a.variable.name, a.collection.name, a.terminator,
                                                ReadNodes(a.actions, Inner(a, types)).value))
  {
    ActionsCompileToo(a.actions, Inner(a, types));
  }

  /** The elements of a loop of texts, sent with their terminator and anything behind it. */
  lemma TextLoopDropsLast(fuel: nat, a: T.Action, types: Types, elements: seq<Texts>, values: seq<Value>, rest: Bytes,
                          b: nat, pad: nat, w: World, answers: Answers)
    requires TextLoop(a, types) && AreTuples(a, elements, values) && SafeElements(a, types, elements, rest)
    requires values != [] && fuel >= |values| && Arrived(a.actions, w)
    requires Concat(w.input) == WireOn(Pieces(a, types, elements), 0, a.terminator + rest)
    requires Binder(w.pads, pad, a.collection.name) == Some(b)
    ensures ReadNode(a, types).Some?
    ensures var o := Eval(fuel, ReadNode(a, types).value, pad, w, answers);
            && o.Evaluated?
            && (forall left :: !LoopRead(o, w, b, a.collection.name, values, left))
            && (LoopRead(o, w, b, a.collection.name, values[..|values| - 1], rest)
                <==> NoEarlyEnd(Pieces(a, types, elements), a.terminator, a.terminator + rest))
  {
    hide Eval, AllRead, WireOn, Pieces, IsTuple, SafeElements, LoopRead, NoEarlyEnd, Concat;
    LoopCompiles(a, types);
    ElementsAllRead(a, types, elements, values, rest, pad, w.pads, answers);
    LoopDropsLast(fuel, a.variable.name, a.collection.name, a.terminator, ReadNodes(a.actions, Inner(a, types)).value,
                  b, pad, w, Pieces(a, types, elements), rest, values, !Unescaped(a.actions), answers);
  }

  /** The sender's tuples have the texts. */
  lemma TupleHolds(v: Value, variable: string, actions: seq<T.Action>, types: Types, env: Environment, texts: Texts)
    requires Textual(actions, types) && OwnMembers(actions, variable) && IsTuple(v, variable, actions, texts)
    ensures Holding(actions, types, env[variable := v], texts)
  {
    forall i | 0 <= i < |actions| && actions[i].ReadOctetsUntilTerminator?
      ensures FieldOctets(actions[i].identifier, types, env[variable := v]) == Some(texts[actions[i].identifier])
    {
      var id := actions[i].identifier;
      assert TextualAction(actions[i], types) && FieldIn(actions, 0, id);
      assert id == Member(variable, id.member.value.name);
    }
  }

  /** What the elements from `k` on send. */
  lemma {:induction false} ElementsSent(a: T.Action, types: Types, env: Environment, elements: seq<Texts>,
                                        items: seq<Value>, k: nat)
    requires TextLoop(a, types) && AreTuples(a, elements, items) && k <= |items|
    ensures SentEach(T.Expand(a.actions), Inner(a, types), env, a.variable.name, items, k)
         == Some(Concat(Pieces(a, types, elements)[k..]))
    ensures DepthOf(T.Expand(a.actions)) == 0
    decreases |items| - k
  {
    hide IsTuple, WireFrom, SentAll;
    var inner, variable := Inner(a, types), a.variable.name;
    assert a.actions[0..] == a.actions;
    if k < |items| {
      ElementsSent(a, types, env, elements, items, k + 1);
      TupleHolds(items[k], variable, a.actions, inner, env, elements[k]);
      WireIsSent(a.actions, 0, inner, env[variable := items[k]], elements[k]);
      ConcatFrom(Pieces(a, types, elements), k);
    } else {
      NoLoops(a.actions, inner);
    }
  }

  lemma {:induction false} NoLoops(actions: seq<T.Action>, types: Types)
    requires Textual(actions, types)
    ensures DepthOf(T.Expand(actions)) == 0
    decreases |actions|
  {
    if actions != [] {
      assert TextualAction(actions[0], types);
      assert forall i :: 0 <= i < |actions| - 1 ==> actions[1..][i] == actions[i + 1];
      NoLoops(actions[1..], types);
      var tail := T.Expand(actions[1..]);
      if actions[0].ReadStaticOctets? {
        OneMore(T.WriteStaticOctets(actions[0].octets), tail, types, map[]);
      } else {
        var t := T.WriteStaticOctets(actions[0].terminator);
        OneMore(t, tail, types, map[]);
        OneMore(T.WriteFromIdentifier(actions[0].identifier, actions[0].escape), [t] + tail, types, map[]);
        assert T.ExpandOne(actions[0]) + tail
            == [T.WriteFromIdentifier(actions[0].identifier, actions[0].escape)] + ([t] + tail);
      }
    }
  }

  /**
   One loop, both interpreters: from what the writer's tree sends for a list, the
   reader's tree never gets that list back. It gets the list without its last element,
   and takes just what was sent, if and only if no later element begins with the
   loop's terminator.
   */
  lemma ListNeverReturns(fuel: nat, a: T.Action, types: Types, elements: seq<Texts>, items: seq<Value>,
                         env: Environment, sender: World, senderPad: nat, rest: Bytes, b: nat, pad: nat, w: World,
                         answers: Answers, others: Answers)
    requires TextLoop(a, types) && AreTuples(a, elements, items) && SafeElements(a, types, elements, rest)
    requires items != [] && fuel >= |items| && Arrived(a.actions, w) && !sender.eof
    requires Shows(sender.pads, senderPad, env)
    requires a.collection.name in env && env[a.collection.name] == DynamicList(items)
    requires Binder(w.pads, pad, a.collection.name) == Some(b)
    ensures WriteNode(T.ExpandOne(a)[0], types).Some? && ReadNode(a, types).Some?
    ensures var wire := Concat(Pieces(a, types, elements)) + a.terminator;
            var o := Eval(fuel, ReadNode(a, types).value, pad, w, others);
            && Wrote(Eval(fuel, WriteNode(T.ExpandOne(a)[0], types).value, senderPad, sender, answers), sender, wire)
            && (Concat(w.input) == wire + rest ==>
                  && o.Evaluated?
                  && (forall left :: !LoopRead(o, w, b, a.collection.name, items, left))
                  && (LoopRead(o, w, b, a.collection.name, items[..|items| - 1], rest)
                      <==> NoEarlyEnd(Pieces(a, types, elements), a.terminator, a.terminator + rest)))
  {
    LoopIsSent(a, types, env, elements, items);
    LoopCompiles(a, types);
    hide Eval, Concat, Sent, Pieces, IsTuple, SafeElements, LoopRead, NoEarlyEnd, Wrote;
    var pieces, after := Pieces(a, types, elements), a.terminator + rest;
    ActionSends(fuel, T.ExpandOne(a)[0], types, env, senderPad, sender.pads, answers);
    var wire := Concat(pieces) + a.terminator;
    if Concat(w.input) == wire + rest {
      WholeWire(pieces, a.terminator, rest);
      TextLoopDropsLast(fuel, a, types, elements, items, rest, b, pad, w, others);
    }
  }

  lemma WholeWire(pieces: seq<Bytes>, terminator: Bytes, rest: Bytes)
    ensures Concat(pieces) + terminator + rest == WireOn(pieces, 0, terminator + rest)
  {
    assert pieces[0..] == pieces;
  }

  lemma LoopIsSent(a: T.Action, types: Types, env: Environment, elements: seq<Texts>, items: seq<Value>)
    requires TextLoop(a, types) && AreTuples(a, elements, items) && items != []
    requires a.collection.name in env && env[a.collection.name] == DynamicList(items)
    ensures Sent(T.ExpandOne(a)[0], types, env) == Some(Concat(Pieces(a, types, elements)) + a.terminator)
    ensures Depth(T.ExpandOne(a)[0]) == 1
  {
    hide SentEach, Pieces, AreTuples;
    ElementsSent(a, types, env, elements, items, 0);
    var pieces := Pieces(a, types, elements);
    assert pieces[0..] == pieces;
  }

  // ----- two lines -----

  /** Lines in a list: the text of each ends in LF, and so does the list. */
  const LinesLoop: T.Action :=
    T.Loop(T.Identifier("line", None), T.Identifier("lines", None), [10],
           [T.ReadOctetsUntilTerminator([10], Member("line", "text"), None)])

  const LinesTypes: Types := map["lines" := ArrayType(TupleType(map["text" := StrType]))]

  function Line(text: Bytes): Value {
    Dictionary(map["text" := Text(text)])
  }

  function LineTexts(text: Bytes): Texts {
    map[Member("line", "text") := text]
  }

  lemma LinesAreTexts()
    ensures TextLoop(LinesLoop, LinesTypes)
  {
    assert TextField(Member("line", "text"), Inner(LinesLoop, LinesTypes));
    assert TextualAction(LinesLoop.actions[0], Inner(LinesLoop, LinesTypes));
  }

  lemma LineIsTuple(text: Bytes)
    ensures IsTuple(Line(text), "line", LinesLoop.actions, LineTexts(text))
  {
    assert LinesLoop.actions[0].identifier == Member("line", "text");
    assert FieldIn(LinesLoop.actions, 0, Member("line", "text"));
  }

  /** A line without LF reads back, whatever follows. */
  lemma LineWire(text: Bytes, rest: Bytes)
    requires 10 !in text
    ensures TextLoop(LinesLoop, LinesTypes)
    ensures WireFrom(LinesLoop.actions, 0, Inner(LinesLoop, LinesTypes), LineTexts(text)) == text + [10]
    ensures SafeTexts(LinesLoop.actions, 0, Inner(LinesLoop, LinesTypes), LineTexts(text), rest)
  {
    LinesAreTexts();
    var a, inner := LinesLoop.actions[0], Inner(LinesLoop, LinesTypes);
    assert TextOf(a, LineTexts(text)) == text;
    assert WireFrom(LinesLoop.actions, 1, inner, LineTexts(text)) == [];
    assert WireOf(a, inner, LineTexts(text)) == text + [10];
    forall i | 0 <= i < |text| ensures !At(text + [10], [10], i) {
      assert (text + [10])[i..i + 1] == [text[i]];
    }
    assert At(text + [10], [10], |text|);
    FindIs(text + [10], [10], 0, |text|);
    assert SafeTexts(LinesLoop.actions, 1, inner, LineTexts(text), rest);
  }

  const TwoLines: seq<Texts> := [LineTexts([97]), LineTexts([98])]

  lemma TwoLinesWire()
    ensures TextLoop(LinesLoop, LinesTypes)
    ensures Pieces(LinesLoop, LinesTypes, TwoLines) == [[97, 10], [98, 10]]
  {
    LineWire([97], []);
    LineWire([98], []);
    TwoBytes(97);
    TwoBytes(98);
    hide WireFrom, SafeTexts, TextLoop, LineTexts;
    var pieces := Pieces(LinesLoop, LinesTypes, TwoLines);
    assert pieces == [pieces[0], pieces[1]];
  }

  lemma TwoBytes(b: Byte)
    ensures [b] + [10] == [b, 10]
  {}

  lemma TwoLinesSafe(rest: Bytes)
    ensures TextLoop(LinesLoop, LinesTypes) && SafeElements(LinesLoop, LinesTypes, TwoLines, rest)
    ensures AreTuples(LinesLoop, TwoLines, [Line([97]), Line([98])])
  {
    LinesAreTexts();
    hide WireFrom, SafeTexts, TextLoop, IsTuple, WireOn, Pieces;
    var pieces := Pieces(LinesLoop, LinesTypes, TwoLines);
    LineIsTuple([97]);
    LineIsTuple([98]);
    LineWire([97], WireOn(pieces, 1, LinesLoop.terminator + rest));
    LineWire([98], WireOn(pieces, 2, LinesLoop.terminator + rest));
  }

  lemma TwoPieces(pieces: seq<Bytes>, after: Bytes)
    requires pieces == [[97, 10], [98, 10]]
    ensures WireOn(pieces, 0, after) == [97, 10, 98, 10] + after
    ensures NoEarlyEnd(pieces, [10], after)
  {
    LastWire(pieces, after);
    WireSplits(pieces, 1, after);
    WireSplits(pieces, 0, after);
    assert WireOn(pieces, 1, after)[0] == 98;
  }

  /** The lines `a` and `b`, sent as they should be, are read as the list of `a` alone. */
  lemma SecondLineDropped(fuel: nat, rest: Bytes, b: nat, pad: nat, w: World, answers: Answers)
    requires fuel >= 2 && Binder(w.pads, pad, "lines") == Some(b)
    requires Concat(w.input) == [97, 10, 98, 10, 10] + rest
    ensures ReadNode(LinesLoop, LinesTypes).Some?
    ensures LoopRead(Eval(fuel, ReadNode(LinesLoop, LinesTypes).value, pad, w, answers), w, b, "lines", [Line([97])],
                     rest)
  {
    hide Eval, ReadNode, LoopRead, Concat, WireOn, TextLoop, AreTuples, SafeElements, NoEarlyEnd, Pieces;
    var lines := [Line([97]), Line([98])];
    TwoLinesWire();
    TwoLinesSafe(rest);
    TwoPieces([[97, 10], [98, 10]], [10] + rest);
    assert [97, 10, 98, 10] + ([10] + rest) == [97, 10, 98, 10, 10] + rest;
    TextLoopDropsLast(fuel, LinesLoop, LinesTypes, TwoLines, lines, rest, b, pad, w, answers);
    assert lines[..1] == [Line([97])];
  }
}
