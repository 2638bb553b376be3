/** What running the tree of a read loop makes of the elements sent for it. */
module ReadLoops {
  import opened Options
  import opened Octets
  import opened Values
  import opened Evaluator
  import opened Generation
  import opened Sending
  import opened Receiving
  import opened MemberFields

  // ----- one turn -----

  /** The names an element starts with: its variable, an empty tuple. */
  function ElementNames(variable: string): map<string, Value> {
    map[variable := Dictionary(map[])]
  }

  /** The world an element is read in. */
  function ElementWorld(variable: string, pad: nat, w: World): World {
    w.(pads := w.pads + [Pad(ElementNames(variable), Some(pad))])
  }

  /** The element's own actions. */
  function BodyOf(fuel: nat, variable: string, body: seq<Node>, pad: nat, w: World, answers: Answers): Outcome {
    Eval(fuel, Node(OpSequence, body), |w.pads|, ElementWorld(variable, pad, w), answers)
  }

  /** These octets left, in as few chunks as before, and nothing else changed. */
  ghost predicate Leaves(w1: World, w: World, left: Bytes) {
    w1 == w.(input := w1.input) && Concat(w1.input) == left && (|w.input| <= 1 ==> |w1.input| <= 1)
  }

  /** Neither the terminator nor a beginning of it is all there is, nor is the terminator next. */
  predicate GoesOn(terminator: Bytes, stream: Bytes) {
    !(terminator <= stream) && !(stream <= terminator)
  }

  /**
   What the operation behind the body makes of the octets `read` left, and what the
   call for the element comes to: the interrupt, the variable's value `v`, or a wait.
   */
  ghost predicate TurnEnds(o: Outcome, read: World, v: Value, terminator: Bytes, stream: Bytes) {
    if terminator <= stream then
      o.Evaluated? && o.value == InterruptGenerator && Leaves(o.world, read, stream[|terminator|..])
    else if GoesOn(terminator, stream) then o.Evaluated? && o.value == v && Leaves(o.world, read, stream)
    else if read.input == [] && read.eof then
      o.Evaluated? && o.value == Error(ProtocolMismatchError) && o.world == read
    else o == Fails(Starved)
  }

  lemma TerminatorRead(terminator: Bytes, read: World, stream: Bytes)
    requires terminator != [] && Concat(read.input) == stream
    ensures TurnEnds(FinishRead(TerminateListIfReadAhead(terminator), read), read, Bool(false), terminator, stream)
  {
    hide FinishRead, Concat;
    var op := TerminateListIfReadAhead(terminator);
    ReadIsDecided(op, read);
    assert stream[0..] == stream;
    if FinishRead(op, read).Evaluated? && |read.input| <= 1 { StaysWhole(op, read); }
  }

  /** A sequence whose child `k` interrupts, the ones before it being calm. */
  lemma InterruptsAt(fuel: nat, children: seq<Node>, done: seq<Value>, pad: nat, w: World, answers: Answers)
    requires |done| < |children| && Calm(done)
    requires var o := Eval(fuel, children[|done|], pad, w, answers); o.Evaluated? && Interrupts(o.value)
    ensures var o := Eval(fuel, children[|done|], pad, w, answers);
            EvalArguments(fuel, Node(OpSequence, children), done, pad, w, answers)
            == Arguments(done + [o.value], o.world, o.steps)
  {
    hide Eval;
    var node := Node(OpSequence, children);
    var o := Eval(fuel, children[|done|], pad, w, answers);
    assert !ArgumentsReady(node, done) && node.children[|done|] == children[|done|];
    assert ArgumentsReady(node, done + [o.value]);
    assert EvalArguments(fuel, node, done + [o.value], pad, o.world, answers)
        == Arguments(done + [o.value], o.world, 0);
  }

  /** A sequence in which a child cannot be evaluated, the ones before it being calm. */
  lemma FailsAt(fuel: nat, children: seq<Node>, done: seq<Value>, pad: nat, w: World, answers: Answers)
    requires |done| < |children| && Calm(done) && Eval(fuel, children[|done|], pad, w, answers).Fails?
    ensures EvalArguments(fuel, Node(OpSequence, children), done, pad, w, answers)
         == NoArguments(Eval(fuel, children[|done|], pad, w, answers))
  {
    hide Eval;
    var node := Node(OpSequence, children);
    assert !ArgumentsReady(node, done) && node.children[|done|] == children[|done|];
  }

  /** A calm child leads to the next. */
  lemma CalmAt(fuel: nat, children: seq<Node>, done: seq<Value>, pad: nat, w: World, answers: Answers)
    requires |done| < |children| && Calm(done)
    requires var o := Eval(fuel, children[|done|], pad, w, answers); o.Evaluated? && !Interrupts(o.value)
    ensures var o := Eval(fuel, children[|done|], pad, w, answers);
            var rest := EvalArguments(fuel, Node(OpSequence, children), done + [o.value], pad, o.world, answers);
            EvalArguments(fuel, Node(OpSequence, children), done, pad, w, answers)
            == if rest.Arguments? then Arguments(rest.values, rest.world, o.steps + rest.steps) else rest
  {
    hide Eval;
    var node := Node(OpSequence, children);
    assert !ArgumentsReady(node, done) && node.children[|done|] == children[|done|];
  }

  /** The last child's value is the sequence's. */
  lemma LastAt(fuel: nat, children: seq<Node>, done: seq<Value>, pad: nat, w: World, answers: Answers)
    requires |done| + 1 == |children| && Calm(done) && Eval(fuel, children[|done|], pad, w, answers).Evaluated?
    ensures var o := Eval(fuel, children[|done|], pad, w, answers);
            EvalArguments(fuel, Node(OpSequence, children), done, pad, w, answers)
            == Arguments(done + [o.value], o.world, o.steps)
  {
    hide Eval;
    var node := Node(OpSequence, children);
    var o := Eval(fuel, children[|done|], pad, w, answers);
    assert !ArgumentsReady(node, done) && node.children[|done|] == children[|done|];
    assert ArgumentsReady(node, done + [o.value]);
    assert EvalArguments(fuel, node, done + [o.value], pad, o.world, answers)
        == Arguments(done + [o.value], o.world, 0);
  }

  /** What a sequence with these arguments comes to. */
  function LastOf(args: ArgumentsOutcome): Outcome {
    match args
    case NoArguments(why) => why
    case Arguments(values, w, n) => Evaluated(if values == [] then Bool(false) else values[|values| - 1], w, n)
  }

  /** The same outcome, steps aside. */
  predicate SameEnd(a: Outcome, b: Outcome) {
    if a.Evaluated? then b.Evaluated? && a.value == b.value && a.world == b.world else a == b
  }

  lemma SequenceEnds(fuel: nat, children: seq<Node>, pad: nat, w: World, answers: Answers)
    ensures SameEnd(Eval(fuel, Node(OpSequence, children), pad, w, answers),
                    LastOf(EvalArguments(fuel, Node(OpSequence, children), [], pad, w, answers)))
  {
    var args := EvalArguments(fuel, Node(OpSequence, children), [], pad, w, answers);
    if args.Arguments? {
      assert args.world.(pads := args.world.pads) == args.world;
    }
  }

  /** Two calm children, and what comes behind them. */
  lemma FirstTwo(fuel: nat, children: seq<Node>, a: Outcome, b: Outcome, pad: nat, w: World, answers: Answers)
    requires |children| > 2
    requires a == Eval(fuel, children[0], pad, w, answers) && a.Evaluated? && !Interrupts(a.value)
    requires b == Eval(fuel, children[1], pad, a.world, answers) && b.Evaluated? && !Interrupts(b.value)
    ensures SameEnd(LastOf(EvalArguments(fuel, Node(OpSequence, children), [], pad, w, answers)),
                    LastOf(EvalArguments(fuel, Node(OpSequence, children), [a.value, b.value], pad, b.world, answers)))
  {
    hide Eval, EvalArguments;
    assert [] + [a.value] == [a.value] && [a.value] + [b.value] == [a.value, b.value];
    CalmAt(fuel, children, [a.value], pad, a.world, answers);
    CalmAt(fuel, children, [], pad, w, answers);
  }

  lemma VariableInitialized(fuel: nat, variable: string, pad: nat, w: World, answers: Answers)
    ensures var o := Eval(fuel, Node(LexicalPadInitialize(variable), [Node(DictionaryInitialize, [])]), |w.pads|,
                          w.(pads := w.pads + [Pad(map[], Some(pad))]), answers);
            o.Evaluated? && o.value == Dictionary(map[]) && o.world == ElementWorld(variable, pad, w)
  {
    var w0 := w.(pads := w.pads + [Pad(map[], Some(pad))]);
    EvalLeaf(fuel, DictionaryInitialize, |w.pads|, w0, answers);
    FinishPure(fuel, DictionaryInitialize, [], Dictionary(map[]), |w.pads|, w0, answers);
    EvalUnary(fuel, LexicalPadInitialize(variable), Node(DictionaryInitialize, []), |w.pads|, w0, answers);
    assert w0.pads[|w.pads| := Pad(map[variable := Dictionary(map[])], Some(pad))]
        == ElementWorld(variable, pad, w).pads;
  }

  /** From the operation that looks for the terminator on. */
  lemma TurnTail(fuel: nat, children: seq<Node>, done: seq<Value>, variable: string, terminator: Bytes, p: nat,
                 read: World, answers: Answers)
    requires terminator != [] && |children| == 4 && |done| == 2 && Calm(done)
    requires children[2] == Node(TerminateListIfReadAhead(terminator), [])
    requires children[3] == Node(LexicalPadGet(variable), [])
    ensures TurnEnds(LastOf(EvalArguments(fuel, Node(OpSequence, children), done, p, read, answers)), read,
                     PadGet(read.pads, p, variable), terminator, Concat(read.input))
  {
    hide Eval, FinishRead, Concat, PadGet, EvalArguments;
    var stream := Concat(read.input);
    TerminatorRead(terminator, read, stream);
    ReadLeaf(fuel, TerminateListIfReadAhead(terminator), p, read, answers);
    var o := Eval(fuel, children[2], p, read, answers);
    if !o.Evaluated? {
      FailsAt(fuel, children, done, p, read, answers);
    } else if Interrupts(o.value) {
      InterruptsAt(fuel, children, done, p, read, answers);
    } else {
      CalmAt(fuel, children, done, p, read, answers);
      VariablePure(fuel, variable, p, o.world, answers);
      LastAt(fuel, children, done + [o.value], p, o.world, answers);
    }
  }

  /** An element whose body was read calmly. */
  lemma ElementEnds(fuel: nat, variable: string, terminator: Bytes, body: seq<Node>, p: nat, w0: World, w1: World,
                    answers: Answers)
    requires terminator != []
    requires var o := Eval(fuel, ElementNodes(variable, terminator, body)[0], p, w0, answers);
             o.Evaluated? && !Interrupts(o.value) && o.world == w1
    requires var o := Eval(fuel, Node(OpSequence, body), p, w1, answers); o.Evaluated? && !Interrupts(o.value)
    ensures var read := Eval(fuel, Node(OpSequence, body), p, w1, answers).world;
            TurnEnds(Eval(fuel, Node(OpSequence, ElementNodes(variable, terminator, body)), p, w0, answers), read,
                     PadGet(read.pads, p, variable), terminator, Concat(read.input))
  {
    hide Eval, EvalCall, Concat, EvalArguments, PadGet, TurnEnds, LastOf, SameEnd;
    var children := ElementNodes(variable, terminator, body);
    var first, second := Eval(fuel, children[0], p, w0, answers), Eval(fuel, children[1], p, w1, answers);
    FirstTwo(fuel, children, first, second, p, w0, answers);
    TurnTail(fuel, children, [first.value, second.value], variable, terminator, p, second.world, answers);
    SequenceEnds(fuel, children, p, w0, answers);
    var args := EvalArguments(fuel, Node(OpSequence, children), [first.value, second.value], p, second.world, answers);
    SameTurn(Eval(fuel, Node(OpSequence, children), p, w0, answers),
             LastOf(EvalArguments(fuel, Node(OpSequence, children), [], p, w0, answers)), LastOf(args), second.world,
             PadGet(second.world.pads, p, variable), terminator, Concat(second.world.input));
  }

  /** The call for one element whose body was read calmly. */
  lemma Turn(fuel: nat, variable: string, terminator: Bytes, body: seq<Node>, pad: nat, w: World, answers: Answers)
    requires fuel > 0 && terminator != []
    requires var o := BodyOf(fuel - 1, variable, body, pad, w, answers); o.Evaluated? && !Interrupts(o.value)
    ensures var read := BodyOf(fuel - 1, variable, body, pad, w, answers).world;
            TurnEnds(EvalCall(fuel, ReadElement(variable, terminator, body), None, pad, w, answers), read,
                     PadGet(read.pads, |w.pads|, variable), terminator, Concat(read.input))
  {
    hide Eval, EvalCall, Concat, PadGet, TurnEnds;
    CallIs(fuel, ReadElement(variable, terminator, body), pad, w, answers);
    VariableInitialized(fuel - 1, variable, pad, w, answers);
    ElementEnds(fuel - 1, variable, terminator, body, |w.pads|, w.(pads := w.pads + [Pad(map[], Some(pad))]),
                ElementWorld(variable, pad, w), answers);
  }

  /** A call of a callable without argument names. */
  lemma CallIs(fuel: nat, c: Callable, pad: nat, w: World, answers: Answers)
    requires fuel > 0 && c.names == [] && c.inherits
    ensures EvalCall(fuel, c, None, pad, w, answers)
         == Eval(fuel - 1, c.tree, |w.pads|, w.(pads := w.pads + [Pad(map[], Some(pad))]), answers)
  {
    hide Eval;
    assert CallPad(c, None, pad) == Pad(map[], Some(pad));
  }

  lemma SameTurn(a: Outcome, b: Outcome, c: Outcome, read: World, v: Value, terminator: Bytes, stream: Bytes)
    requires SameEnd(a, b) && SameEnd(b, c) && TurnEnds(c, read, v, terminator, stream)
    ensures TurnEnds(a, read, v, terminator, stream)
  {}

  /** The loop has ended with this list, and these octets are left. */
  ghost predicate ListEnds(o: Outcome, values: seq<Value>, read: World, left: Bytes) {
    o.Evaluated? && o.value == DynamicList(values) && Leaves(o.world, read, left)
  }

  /** The loop goes on with one element more, in a world in which just these octets are left. */
  ghost predicate ListGrows(o: Outcome, fuel: nat, c: Callable, values: seq<Value>, pad: nat, read: World,
                            stream: Bytes, answers: Answers)
  {
    exists w1: World, n: nat :: Leaves(w1, read, stream)
      && o == Later(n, EvalGenerate(fuel, c, values, pad, w1, answers))
  }

  /**
   What becomes of an element that was read: it is dropped and the list ends before it
   exactly when the terminator is next, it is kept and the loop goes on exactly when
   the terminator is known not to be next, and otherwise the run waits for good or,
   with nothing left and the end of file seen, the list becomes an error.
   */
  lemma ElementFate(fuel: nat, variable: string, terminator: Bytes, body: seq<Node>, done: seq<Value>, pad: nat,
                    w: World, answers: Answers)
    requires fuel > 0 && terminator != []
    requires var o := BodyOf(fuel - 1, variable, body, pad, w, answers);
             o.Evaluated? && !Interrupts(o.value) && !Interrupts(PadGet(o.world.pads, |w.pads|, variable))
    ensures var read := BodyOf(fuel - 1, variable, body, pad, w, answers).world;
            var stream, v := Concat(read.input), PadGet(read.pads, |w.pads|, variable);
            var c := ReadElement(variable, terminator, body);
            var turn := EvalCall(fuel, c, None, pad, w, answers);
            var o := EvalGenerate(fuel, c, done, pad, w, answers);
            && (terminator <= stream ==> ListEnds(o, done, read, stream[|terminator|..]))
            && (GoesOn(terminator, stream) ==>
                  ListGrows(o, fuel - 1, c, done + [v], pad, read, stream, answers))
            && (turn.Evaluated? && !Interrupts(turn.value) <==> GoesOn(terminator, stream))
            && (stream <= terminator && stream != terminator ==>
                  (if read.input == [] && read.eof then o.Evaluated? && o.value == Error(ProtocolMismatchError)
                   else o == Fails(Starved)))
  {
    Turn(fuel, variable, terminator, body, pad, w, answers);
    hide Eval, EvalCall, Concat, PadGet, Leaves;
    var c := ReadElement(variable, terminator, body);
    var turn, read := EvalCall(fuel, c, None, pad, w, answers), BodyOf(fuel - 1, variable, body, pad, w, answers).world;
    var stream, v := Concat(read.input), PadGet(read.pads, |w.pads|, variable);
    if GoesOn(terminator, stream) {
      assert EvalGenerate(fuel, c, done, pad, w, answers)
          == Later(1 + turn.steps, EvalGenerate(fuel - 1, c, done + [v], pad, turn.world, answers));
    }
  }

  // ----- all elements -----

  /** An element's actions read `piece` and leave the variable at `v`, when `tail` is behind it. */
  ghost predicate ElementReads(variable: string, body: seq<Node>, pad: nat, pads: seq<Pad>, piece: Bytes, tail: Bytes,
                               v: Value, whole: bool, answers: Answers)
  {
    !Interrupts(v) && forall fuel: nat, w: World {:trigger BodyOf(fuel, variable, body, pad, w, answers)} ::
      pads <= w.pads && Concat(w.input) == piece + tail && (whole ==> |w.input| <= 1) ==>
        BodyReads(BodyOf(fuel, variable, body, pad, w, answers), variable, w, v, tail)
  }

  /** Nothing but new pads and the input has changed. */
  ghost predicate Extends(w1: World, w: World, left: Bytes) {
    && w.pads <= w1.pads && w1 == w.(pads := w1.pads, input := w1.input) && Concat(w1.input) == left
    && (|w.input| <= 1 ==> |w1.input| <= 1)
  }

  ghost predicate BodyReads(o: Outcome, variable: string, w: World, v: Value, tail: Bytes) {
    o.Evaluated? && !Interrupts(o.value) && PadGet(o.world.pads, |w.pads|, variable) == v && Extends(o.world, w, tail)
  }

  /** What is on the wire from element `k` on, with `after` behind the last. */
  function WireOn(pieces: seq<Bytes>, k: nat, after: Bytes): Bytes
    requires k <= |pieces|
  {
    Concat(pieces[k..]) + after
  }

  lemma WireSplits(pieces: seq<Bytes>, k: nat, after: Bytes)
    requires k < |pieces|
    ensures WireOn(pieces, k, after) == pieces[k] + WireOn(pieces, k + 1, after)
    ensures |after| <= |WireOn(pieces, k + 1, after)|
  {
    ConcatFrom(pieces, k);
  }

  /** The first element from `k` on before which the terminator is next; there is one behind the last. */
  function Stop(pieces: seq<Bytes>, k: nat, terminator: Bytes, after: Bytes): (stop: nat)
    requires k <= |pieces|
    ensures k <= stop <= |pieces|
    ensures stop < |pieces| ==> terminator <= WireOn(pieces, stop, after)
    ensures forall j :: k <= j < stop ==> !(terminator <= WireOn(pieces, j, after))
    decreases |pieces| - k
  {
    if k == |pieces| || terminator <= WireOn(pieces, k, after) then k else Stop(pieces, k + 1, terminator, after)
  }

  ghost predicate AllRead(variable: string, body: seq<Node>, pad: nat, pads: seq<Pad>, pieces: seq<Bytes>,
                          after: Bytes, values: seq<Value>, whole: bool, answers: Answers)
  {
    |pieces| == |values| && forall i :: 0 <= i < |pieces| ==>
      ElementReads(variable, body, pad, pads, pieces[i], WireOn(pieces, i + 1, after), values[i], whole, answers)
  }

  /** The outcome is the list of the values before `stop`, and the terminator is taken. */
  ghost predicate Listed(o: Outcome, w: World, values: seq<Value>, pieces: seq<Bytes>, stop: nat, terminator: Bytes,
                         after: Bytes)
  {
    && 0 < stop <= |values| && |pieces| == |values| && terminator <= WireOn(pieces, stop, after)
    && o.Evaluated? && o.value == DynamicList(values[..stop - 1])
    && Extends(o.world, w, WireOn(pieces, stop, after)[|terminator|..])
  }

  lemma EndsExtend(o: Outcome, done: seq<Value>, read: World, w: World, stream: Bytes, left: Bytes)
    requires Extends(read, w, stream) && ListEnds(o, done, read, left)
    ensures o.Evaluated? && o.value == DynamicList(done) && Extends(o.world, w, left)
  {}

  lemma LeavesExtend(w1: World, read: World, w: World, stream: Bytes)
    requires Extends(read, w, stream) && Leaves(w1, read, stream)
    ensures Extends(w1, w, stream)
  {}

  lemma ExtendsTwice(w2: World, w1: World, w: World, stream: Bytes, left: Bytes)
    requires Extends(w1, w, stream) && Extends(w2, w1, left)
    ensures Extends(w2, w, left)
  {}

  lemma ListedLater(o: Outcome, n: nat, w1: World, w: World, stream: Bytes, values: seq<Value>, pieces: seq<Bytes>,
                    stop: nat, terminator: Bytes, after: Bytes)
    requires Extends(w1, w, stream) && Listed(o, w1, values, pieces, stop, terminator, after)
    ensures Listed(Later(n, o), w, values, pieces, stop, terminator, after)
  {
    ExtendsTwice(o.world, w1, w, stream, WireOn(pieces, stop, after)[|terminator|..]);
  }

  /** From element `k` on, those before it read and kept. */
  lemma {:induction false} ElementsRead(fuel: nat, variable: string, terminator: Bytes, body: seq<Node>, k: nat,
                                        pad: nat, pads: seq<Pad>, w: World, pieces: seq<Bytes>, rest: Bytes,
                                        values: seq<Value>, whole: bool, answers: Answers)
    requires AllRead(variable, body, pad, pads, pieces, terminator + rest, values, whole, answers)
    requires terminator != [] && k < |pieces| && fuel >= |pieces| - k
    requires pads <= w.pads && (whole ==> |w.input| <= 1)
    requires Concat(w.input) == WireOn(pieces, k, terminator + rest)
    ensures var o := EvalGenerate(fuel, ReadElement(variable, terminator, body), values[..k], pad, w, answers);
            Listed(o, w, values, pieces, Stop(pieces, k + 1, terminator, terminator + rest), terminator,
                   terminator + rest)
    decreases |pieces| - k
  {
    hide Eval, EvalCall, EvalGenerate, Concat, PadGet, WireOn, Leaves;
    var after, c := terminator + rest, ReadElement(variable, terminator, body);
    var tail := WireOn(pieces, k + 1, after);
    WireSplits(pieces, k, after);
    assert ElementReads(variable, body, pad, pads, pieces[k], tail, values[k], whole, answers);
    var o := EvalGenerate(fuel, c, values[..k], pad, w, answers);
    var body_ := BodyOf(fuel - 1, variable, body, pad, w, answers);
    assert BodyReads(body_, variable, w, values[k], tail);
    ElementFate(fuel, variable, terminator, body, values[..k], pad, w, answers);
    assert values[..k] + [values[k]] == values[..k + 1];
    LastWire(pieces, after);
    if terminator <= tail {
      EndsExtend(o, values[..k], body_.world, w, tail, tail[|terminator|..]);
    } else {
      Longer(terminator, tail);
      var w1: World, n: nat :| Leaves(w1, body_.world, tail)
        && o == Later(n, EvalGenerate(fuel - 1, c, values[..k + 1], pad, w1, answers));
      LeavesExtend(w1, body_.world, w, tail);
      ElementsRead(fuel - 1, variable, terminator, body, k + 1, pad, pads, w1, pieces, rest, values, whole, answers);
      ListedLater(EvalGenerate(fuel - 1, c, values[..k + 1], pad, w1, answers), n, w1, w, tail, values, pieces,
                  Stop(pieces, k + 2, terminator, after), terminator, after);
    }
  }

  lemma LastWire(pieces: seq<Bytes>, after: Bytes)
    ensures WireOn(pieces, |pieces|, after) == after
  {}

  lemma Longer(terminator: Bytes, stream: Bytes)
    requires !(terminator <= stream) && |terminator| <= |stream|
    ensures GoesOn(terminator, stream)
  {}

  // ----- the loop -----

  /** The variable holds the list, these octets are left, and but for new pads nothing else changed. */
  ghost predicate LoopRead(o: Outcome, w: World, b: nat, collection: string, values: seq<Value>, left: Bytes)
    requires b < |w.pads|
  {
    && o.Evaluated? && |w.pads| <= |o.world.pads|
    && o.world.pads[..|w.pads|] == Assigned(w.pads, b, collection, DynamicList(values))
    && o.world == w.(pads := o.world.pads, input := o.world.input) && Concat(o.world.input) == left
    && (|w.input| <= 1 ==> |o.world.input| <= 1)
  }

  /** New pads hide no binding. */
  lemma {:induction false} BinderExtends(pads: seq<Pad>, more: seq<Pad>, i: nat, name: string)
    requires pads <= more && Binder(pads, i, name).Some?
    ensures Binder(more, i, name) == Binder(pads, i, name)
    decreases i
  {
    if name !in pads[i].names { BinderExtends(pads, more, pads[i].parent.value, name); }
  }

  /** The list operation on the loop's callable. */
  lemma ListIsGenerate(fuel: nat, c: Callable, pad: nat, w: World, answers: Answers)
    ensures SameEnd(Eval(fuel, Node(GenerateList, [Node(StaticCallable(c), [])]), pad, w, answers),
                    EvalGenerate(fuel, c, [], pad, w, answers))
  {
    hide EvalGenerate;
    LeafPure(fuel, StaticCallable(c), Code(c), pad, w, answers);
    EvalUnary(fuel, GenerateList, Node(StaticCallable(c), []), pad, w, answers);
  }

  /**
   The tree of a read loop, on elements its body reads: it stores the elements before
   the one that precedes the first place where the terminator is next, and takes all
   up to and with that terminator.
   */
  lemma LoopStops(fuel: nat, variable: string, collection: string, terminator: Bytes, body: seq<Node>, b: nat,
                  pad: nat, w: World, pieces: seq<Bytes>, rest: Bytes, values: seq<Value>, whole: bool,
                  answers: Answers)
    requires AllRead(variable, body, pad, w.pads, pieces, terminator + rest, values, whole, answers)
    requires terminator != [] && pieces != [] && fuel >= |pieces| && (whole ==> |w.input| <= 1)
    requires Concat(w.input) == WireOn(pieces, 0, terminator + rest)
    requires Binder(w.pads, pad, collection) == Some(b)
    ensures var stop := Stop(pieces, 1, terminator, terminator + rest);
            && 0 < stop <= |values| && terminator <= WireOn(pieces, stop, terminator + rest)
            && LoopRead(Eval(fuel, ReadLoop(variable, collection, terminator, body), pad, w, answers), w, b, collection,
                        values[..stop - 1], WireOn(pieces, stop, terminator + rest)[|terminator|..])
  {
    hide Eval, EvalGenerate, Concat, WireOn, AllRead;
    var c, after := ReadElement(variable, terminator, body), terminator + rest;
    var stop := Stop(pieces, 1, terminator, after);
    AllReadSizes(variable, body, pad, w.pads, pieces, after, values, whole, answers);
    assert values[..0] == [];
    ElementsRead(fuel, variable, terminator, body, 0, pad, w.pads, w, pieces, rest, values, whole, answers);
    ListIsGenerate(fuel, c, pad, w, answers);
    var list := Eval(fuel, ReadElements(variable, terminator, body), pad, w, answers);
    BinderExtends(w.pads, list.world.pads, pad, collection);
    FieldStored(fuel, collection, ReadElements(variable, terminator, body), b, pad, w, answers);
    AssignedExtends(w.pads, list.world.pads, b, collection, list.value);
  }

  lemma AllReadSizes(variable: string, body: seq<Node>, pad: nat, pads: seq<Pad>, pieces: seq<Bytes>,
                     after: Bytes, values: seq<Value>, whole: bool, answers: Answers)
    requires AllRead(variable, body, pad, pads, pieces, after, values, whole, answers)
    ensures |pieces| == |values|
  {}

  lemma AssignedExtends(pads: seq<Pad>, more: seq<Pad>, b: nat, name: string, v: Value)
    requires pads <= more && b < |pads|
    ensures |pads| <= |Assigned(more, b, name, v)|
    ensures Assigned(more, b, name, v)[..|pads|] == Assigned(pads, b, name, v)
  {
    assert more[b] == pads[b];
  }

  /** The terminator is not next before an element behind the first. */
  ghost predicate NoEarlyEnd(pieces: seq<Bytes>, terminator: Bytes, after: Bytes) {
    forall j :: 0 < j < |pieces| ==> !(terminator <= WireOn(pieces, j, after))
  }

  /** Only one list can be the outcome. */
  lemma OneList(o: Outcome, w: World, b: nat, collection: string, a: seq<Value>, c: seq<Value>, x: Bytes, y: Bytes)
    requires b < |w.pads| && LoopRead(o, w, b, collection, a, x)
    ensures LoopRead(o, w, b, collection, c, y) <==> a == c && x == y
  {
    AssignedIs(w.pads, b, collection, DynamicList(a), DynamicList(c));
  }

  /**
   A generated read loop never gives all elements sent: it gives all but the last, and
   leaves what follows the list, exactly when no element behind the first begins where
   the terminator is next.
   */
  lemma LoopDropsLast(fuel: nat, variable: string, collection: string, terminator: Bytes, body: seq<Node>, b: nat,
                      pad: nat, w: World, pieces: seq<Bytes>, rest: Bytes, values: seq<Value>, whole: bool,
                      answers: Answers)
    requires AllRead(variable, body, pad, w.pads, pieces, terminator + rest, values, whole, answers)
    requires terminator != [] && pieces != [] && fuel >= |pieces| && (whole ==> |w.input| <= 1)
    requires Concat(w.input) == WireOn(pieces, 0, terminator + rest)
    requires Binder(w.pads, pad, collection) == Some(b)
    ensures |pieces| == |values|
    ensures var o := Eval(fuel, ReadLoop(variable, collection, terminator, body), pad, w, answers);
            && o.Evaluated?
            && (forall left :: !LoopRead(o, w, b, collection, values, left))
            && (LoopRead(o, w, b, collection, values[..|values| - 1], rest)
                <==> NoEarlyEnd(pieces, terminator, terminator + rest))
  {
    hide Eval, Concat, LoopRead, WireOn, AllRead, ReadLoop;
    var after := terminator + rest;
    AllReadSizes(variable, body, pad, w.pads, pieces, after, values, whole, answers);
    LoopStops(fuel, variable, collection, terminator, body, b, pad, w, pieces, rest, values, whole, answers);
    var stop := Stop(pieces, 1, terminator, after);
    var left := WireOn(pieces, stop, after)[|terminator|..];
    var o := Eval(fuel, ReadLoop(variable, collection, terminator, body), pad, w, answers);
    LoopEvaluated(o, w, b, collection, values[..stop - 1], left);
    LastWire(pieces, after);
    assert after[|terminator|..] == rest;
    OneList(o, w, b, collection, values[..stop - 1], values[..|values| - 1], left, rest);
    assert |values[..stop - 1]| == stop - 1;
    forall any ensures !LoopRead(o, w, b, collection, values, any) {
      OneList(o, w, b, collection, values[..stop - 1], values, left, any);
    }
  }

  lemma LoopEvaluated(o: Outcome, w: World, b: nat, collection: string, values: seq<Value>, left: Bytes)
    requires b < |w.pads| && LoopRead(o, w, b, collection, values, left)
    ensures o.Evaluated?
  {}
}
