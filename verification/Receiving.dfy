/** What a read operation in a tree makes of the octets delivered. */
module Receiving {
  import opened Options
  import opened Octets
  import opened Escape
  import opened Values
  import opened Contexts
  import opened ReadOperations
  import opened Reading
  import opened Evaluator
  import Lookahead
  import opened Sending

  /**
   A read, however its input was cut into chunks: its value and what it takes are
   what it decides on all octets delivered. When they decide nothing, the end of
   file is seen only if no octets are waiting; otherwise the read waits for good.
   */
  lemma ReadIsDecided(op: ReadOperation, w: World)
    requires Streams(op)
    ensures var stream := Concat(w.input);
            match Decide(op, stream)
            case Some((v, n)) =>
              var o := FinishRead(op, w);
              o.Evaluated? && o.value == v && o.world == w.(input := o.world.input)
                && Concat(o.world.input) == stream[n..]
            case None =>
              if w.input == [] && w.eof
              then Evaluate(op, FreshInputOutput.(eof := true)).Some?
                   && FinishRead(op, w) == Evaluated(Evaluate(op, FreshInputOutput.(eof := true)).value, w, 2)
              else FinishRead(op, w) == Fails(Starved)
  {
    var stream := Concat(w.input);
    AtFirst(op, stream);
    if Evaluate(op, FreshInputOutput).Some? {
      assert stream[0..] == stream;
      assert w.(input := w.input) == w;
    } else {
      ResumedSettles(op, w.input, w.eof);
      FreshReadDecides(op, w);
    }
  }

  /** The case of a decision. */
  lemma DecidedRead(op: ReadOperation, w: World, v: Value, n: nat)
    requires Streams(op) && Decide(op, Concat(w.input)) == Some((v, n))
    ensures var o := FinishRead(op, w);
            && o.Evaluated? && o.value == v && o.world == w.(input := o.world.input)
            && Concat(o.world.input) == Concat(w.input)[n..]
  {
    hide Decide, FinishRead, Concat;
    ReadIsDecided(op, w);
  }

  /** At the end of file, a read that nothing has decided is a mismatch; a lookahead chooses as its rules say. */
  lemma EndOfFileRead(op: ReadOperation, w: World)
    requires Streams(op) && w.input == [] && w.eof && Decide(op, []).None?
    ensures var o := FinishRead(op, w);
            && o.Evaluated? && o.world == w
            && o.value == (if !op.TransitionLookahead? then Error(ProtocolMismatchError)
                           else match Lookahead.Decision(op.rules, [], true)
                                case Chosen(message) => Text(OctetsOf(message))
                                case _ => Error(ProtocolMismatchError))
  {
    ReadIsDecided(op, w);
    if op.TransitionLookahead? { EndSettlesLookahead(op.rules); }
  }

  /** Before any read: nothing is settled, and a value is a decision that takes nothing. */
  lemma AtFirst(op: ReadOperation, stream: Bytes)
    requires Streams(op)
    ensures Looking(op, FreshInputOutput, stream) && !Settled(op, FreshInputOutput)
    ensures match Evaluate(op, FreshInputOutput)
            case Some(v) => Decide(op, stream) == Some((v, 0))
            case None => (op.ReadStaticOctets? ==> op.contents != []) && Decide(op, []).None?
  {
    if Evaluate(op, FreshInputOutput).Some? {
      LookingDecides(op, FreshInputOutput, stream);
    }
  }

  lemma FreshReadDecides(op: ReadOperation, w: World)
    requires Streams(op) && Evaluate(op, FreshInputOutput).None?
    ensures var stream := Concat(w.input);
            match HandleRead(op, FreshInputOutput, w.input, w.eof)
            case Resumed(next, rest) =>
              Evaluate(op, next).Some?
              && (match Decide(op, stream)
                  case Some((v, n)) => v == Evaluate(op, next).value && Concat(rest) == stream[n..]
                  case None => w.input == [] && w.eof && rest == [] && next == FreshInputOutput.(eof := true))
            case Starving => Decide(op, stream).None? && (w.input == [] ==> !w.eof)
            case Spinning => false
  {
    AtFirst(op, Concat(w.input));
    ResumedSettles(op, w.input, w.eof);
    if w.input != [] {
      JoiningDecides(op, FreshInputOutput, w.input[0], w.input[1..]);
    }
  }

  lemma ReadLeaf(fuel: nat, op: ReadOperation, pad: nat, w: World, answers: Answers)
    ensures Eval(fuel, Node(op, []), pad, w, answers) == FinishRead(op, w)
  {
    hide FinishRead, Eval;
    EvalLeaf(fuel, op, pad, w, answers);
  }

  // ----- one text -----

  /** A field is read back exactly when its terminator does not start early, whatever follows it. */
  lemma FieldDecides(text: Bytes, terminator: Bytes, sent: Bytes, stream: Bytes)
    requires terminator != [] && sent == text + terminator && sent <= stream
    ensures Decide(ReadOctetsUntilTerminator(terminator, None), stream) == Some((Text(text), |sent|))
       <==> Find(sent, terminator, 0) == Some(|text|)
  {
    hide *;
    EndsIn(text, terminator);
    UntilDecides(sent, stream, terminator);
    Conclude(text, terminator, Find(sent, terminator, 0).value);
  }

  lemma Conclude(text: Bytes, terminator: Bytes, p: nat)
    requires p <= |text|
    ensures (text + terminator)[..p] == text <==> p == |text|
  {}

  lemma UntilDecides(known: Bytes, stream: Bytes, terminator: Bytes)
    requires known <= stream && Find(known, terminator, 0).Some?
    ensures var p := Find(known, terminator, 0).value;
            Decide(ReadOctetsUntilTerminator(terminator, None), stream) == Some((Text(known[..p]), p + |terminator|))
  {
    FindExtends(known, stream, terminator);
    hide Find, At;
  }

  lemma EndsIn(text: Bytes, terminator: Bytes)
    ensures Find(text + terminator, terminator, 0).Some? && Find(text + terminator, terminator, 0).value <= |text|
  {
    assert At(text + terminator, terminator, |text|);
  }

  /** The octets agree with the literal, all of them or up to and with a NUL, where `strncmp` stops. */
  ghost predicate Matches(stream: Bytes, contents: Bytes)
    requires |contents| <= |stream|
  {
    contents <= stream || exists k :: 0 <= k < |contents| && contents[k] == 0 && contents[..k + 1] <= stream
  }

  /** A literal, once as many octets are there: true if they match, a mismatch if not, and taken either way. */
  lemma LiteralRead(contents: Bytes, w: World)
    requires |contents| <= |Concat(w.input)|
    ensures var o := FinishRead(ReadStaticOctets(contents), w);
            && o.Evaluated? && o.world == w.(input := o.world.input)
            && Concat(o.world.input) == Concat(w.input)[|contents|..]
            && o.value == if Matches(Concat(w.input), contents) then Bool(true) else Error(ProtocolMismatchError)
  {
    hide FinishRead, Concat, SameUpToNul;
    var stream := Concat(w.input);
    SameUpToNulMeans(stream[..|contents|], contents, |contents|);
    PrefixesMatch(stream, contents);
    var v := if Matches(stream, contents) then Bool(true) else Error(ProtocolMismatchError);
    DecidedRead(ReadStaticOctets(contents), w, v, |contents|);
  }

  lemma PrefixesMatch(stream: Bytes, contents: Bytes)
    requires |contents| <= |stream|
    ensures var front, n := stream[..|contents|], |contents|;
            Matches(stream, contents)
            <==> front[..n] == contents[..n]
                 || exists k :: 0 <= k < n && front[k] == 0 && front[..k + 1] == contents[..k + 1]
  {
    var front, n := stream[..|contents|], |contents|;
    assert front[..n] == front && contents[..n] == contents;
    assert contents <= stream <==> front == contents;
    forall k | 0 <= k < n
      ensures front[..k + 1] == contents[..k + 1] <==> contents[..k + 1] <= stream
      ensures front[..k + 1] == contents[..k + 1] ==> front[k] == contents[k]
    {
      assert front[..k + 1] == stream[..k + 1];
      if front[..k + 1] == contents[..k + 1] { assert front[..k + 1][k] == contents[..k + 1][k]; }
    }
  }

  /** Input in at most one chunk stays so. */
  lemma StaysWhole(op: ReadOperation, w: World)
    requires |w.input| <= 1 && FinishRead(op, w).Evaluated?
    ensures |FinishRead(op, w).world.input| <= 1
  {
    hide Feed, Evaluate, ReadyToEvaluate;
  }

  /** A chunk in which the reader's loop finds a text. */
  lemma ChunkFound(t: Bytes, e: EscapeInfo, chunk: Bytes, w: World, text: Bytes, taken: nat)
    requires |t| > 0 && |e.sequence| > 0 && w.input == [chunk] && Scan(chunk, t, e) == Some((text, taken))
    ensures var o := FinishRead(ReadOctetsUntilTerminator(t, Some(e)), w);
            && o.Evaluated? && o.value == Text(text) && o.world == w.(input := o.world.input)
            && Concat(o.world.input) == chunk[taken..]
  {
    ReadEscapedScans(chunk, [], t, e);
    assert [] + text == text;
    hide Scan, ReadEscaped;
    TakenOff(chunk, [], taken);
    assert chunk + [] == chunk;
  }

  /** A chunk in which it does not. */
  lemma ChunkStarves(t: Bytes, e: EscapeInfo, chunk: Bytes, w: World)
    requires |t| > 0 && |e.sequence| > 0 && w.input == [chunk] && Scan(chunk, t, e).None?
    ensures FinishRead(ReadOctetsUntilTerminator(t, Some(e)), w) == Fails(Starved)
  {
    ReadEscapedScans(chunk, [], t, e);
    hide Scan, ReadEscaped;
  }

  /** What a read makes of one chunk is what the scan makes of it. */
  lemma ChunkScanned(text: Bytes, t: Bytes, e: EscapeInfo, chunk: Bytes, n: nat, w: World)
    requires |t| > 0 && |e.sequence| > 0 && w.input == [chunk] && n <= |chunk|
    ensures TextTaken(FinishRead(ReadOctetsUntilTerminator(t, Some(e)), w), w, text, chunk[n..])
       <==> Scan(chunk, t, e) == Some((text, n))
  {
    hide Scan, FinishRead, Concat;
    match Scan(chunk, t, e)
    case None => ChunkStarves(t, e, chunk, w);
    case Some((found, taken)) =>
      ChunkFound(t, e, chunk, w, found, taken);
      assert |chunk[taken..]| == |chunk| - taken && |chunk[n..]| == |chunk| - n;
  }

  /** The outcome is this text, and these octets are left. */
  ghost predicate TextTaken(o: Outcome, w: World, text: Bytes, left: Bytes) {
    o.Evaluated? && o.value == Text(text) && o.world == w.(input := o.world.input) && Concat(o.world.input) == left
  }

  /**
   An escaped text delivered in one chunk is read back, and exactly its encoding and
   its terminator taken, if and only if what follows does not turn the terminator
   into an escape sequence.
   */
  lemma EscapedTextRead(text: Bytes, t: Bytes, e: EscapeInfo, k: nat, rest: Bytes, w: World)
    requires Folding(t, e, k) && w.input == [Escape.Wire(text, t, e, rest)]
    ensures TextTaken(FinishRead(ReadOctetsUntilTerminator(t, Some(e)), w), w, text, rest)
       <==> !At(t + rest, e.sequence, 0)
  {
    hide Escaped, Scan, FinishRead, TextTaken;
    EscapeRoundTrip(text, t, e, k, rest);
    var chunk, n := Escape.Wire(text, t, e, rest), |Escaped(text, e.character, e.sequence)| + |t|;
    assert chunk[n..] == rest;
    ChunkScanned(text, t, e, chunk, n, w);
  }

  // ----- assignment -----

  /** The pads with `v` for `name` in pad `b`. */
  function Assigned(pads: seq<Pad>, b: nat, name: string, v: Value): seq<Pad>
    requires b < |pads|
  {
    pads[b := pads[b].(names := pads[b].names[name := v])]
  }

  /** Assignment to a name. */
  lemma FieldStored(fuel: nat, name: string, child: Node, b: nat, pad: nat, w: World, answers: Answers)
    requires var c := Eval(fuel, child, pad, w, answers); c.Evaluated? && Binder(c.world.pads, pad, name) == Some(b)
    ensures var c := Eval(fuel, child, pad, w, answers);
            var o := Eval(fuel, Node(LexicalPadSet(name), [child]), pad, w, answers);
            && o.Evaluated? && o.value == c.world.pads[b].names[name]
            && o.world == c.world.(pads := Assigned(c.world.pads, b, name, c.value))
  {
    hide Eval;
    EvalUnary(fuel, LexicalPadSet(name), child, pad, w, answers);
  }
}
