/**
 Read operations fed from a queue of chunks: what a script of them means on a
 whole stream, and why the way the stream was cut into chunks does not matter.
 */
module Reading {
  import opened Options
  import opened Octets
  import opened Values
  import opened Contexts
  import opened ReadOperations
  import Lookahead

  /** The read operations that do not take octets they have not decided on: no escapes, and no ambiguous lookahead. */
  ghost predicate Streams(op: ReadOperation) {
    match op
    case ReadStaticOctets(_) => true
    case ReadOctetsUntilTerminator(terminator, escape) => terminator != [] && escape.None?
    case ReadIntFromAscii => true
    case TerminateListIfReadAhead(terminator) => terminator != []
    case TransitionLookahead(rules) => Lookahead.Exclusive(rules)
  }

  // ----- meaning -----

  /** What an operation makes of the stream in front of it: a value and the octets it takes, or nothing yet. */
  function Decide(op: ReadOperation, stream: Bytes): (r: Option<(Value, nat)>)
    ensures r.Some? ==> r.value.1 <= |stream|
  {
    match op
    case ReadStaticOctets(contents) =>
      if |stream| < |contents| then None
      else Some((if SameUpToNul(stream[..|contents|], contents, |contents|) then Bool(true)
                 else Error(ProtocolMismatchError), |contents|))
    case ReadOctetsUntilTerminator(terminator, _) =>
      (match Find(stream, terminator, 0)
       case None => None
       case Some(pos) => Some((Text(stream[..pos]), pos + |terminator|)))
    case ReadIntFromAscii =>
      var n := LowDigits(stream);
      if n < |stream| then Some((IntegerOf(stream[..n]), n)) else None
    case TerminateListIfReadAhead(terminator) =>
      if terminator <= stream then Some((InterruptGenerator, |terminator|))
      else if stream <= terminator then None
      else Some((Bool(false), 0))
    case TransitionLookahead(rules) =>
      match Lookahead.Decision(rules, stream, false)
      case Chosen(message) => Some((Text(OctetsOf(message)), 0))
      case ProtocolMismatch => Some((Error(ProtocolMismatchError), 0))
      case WaitingForRead => None
  }

  datatype Meaning = Meaning(values: seq<Value>, taken: nat)

  /** An error or an interruption ends the script, as it ends the list of a dynamic operation. */
  function Left(script: seq<ReadOperation>, v: Value): seq<ReadOperation>
    requires script != []
  {
    if Interrupts(v) then [] else script[1..]
  }

  function Denote(script: seq<ReadOperation>, stream: Bytes): (m: Meaning)
    ensures m.taken <= |stream|
    decreases |script|
  {
    if script == [] then Meaning([], 0)
    else match Decide(script[0], stream)
      case None => Meaning([], 0)
      case Some((v, n)) =>
        var rest := Denote(Left(script, v), stream[n..]);
        Meaning([v] + rest.values, n + rest.taken)
  }

  ghost predicate Script(script: seq<ReadOperation>) {
    forall i :: 0 <= i < |script| ==> Streams(script[i])
  }

  /** More octets do not change a decision. */
  lemma DecisionExtends(op: ReadOperation, known: Bytes, stream: Bytes)
    requires Streams(op) && Decide(op, known).Some? && known <= stream
    ensures Decide(op, stream) == Decide(op, known)
  {
    match op
    case ReadStaticOctets(contents) =>
      assert stream[..|contents|] == known[..|contents|];
    case ReadOctetsUntilTerminator(terminator, _) =>
      FindExtends(known, stream, terminator);
    case ReadIntFromAscii =>
      LowDigitsExtend(known, stream);
      assert stream[..LowDigits(known)] == known[..LowDigits(known)];
    case TerminateListIfReadAhead(terminator) =>
      if !(terminator <= known) {
        var k := Mismatch(known, terminator);
        assert stream[k] == known[k];
      }
    case TransitionLookahead(rules) =>
      var more := stream[|known|..];
      assert known + more == stream;
      Lookahead.DecisionStable(rules, known, more, Lookahead.Decision(rules, known, false));
      Lookahead.DecidesOnce(rules, stream, false, Lookahead.Decision(rules, known, false),
                            Lookahead.Decision(rules, stream, false));
  }

  lemma FindExtends(known: Bytes, stream: Bytes, terminator: Bytes)
    requires known <= stream && Find(known, terminator, 0).Some?
    ensures Find(stream, terminator, 0) == Find(known, terminator, 0)
    ensures stream[..Find(known, terminator, 0).value] == known[..Find(known, terminator, 0).value]
  {
    var pos := Find(known, terminator, 0).value;
    assert stream[pos..pos + |terminator|] == known[pos..pos + |terminator|];
    forall i | 0 <= i < pos ensures !At(stream, terminator, i) {
      assert !At(known, terminator, i);
      assert stream[i..i + |terminator|] == known[i..i + |terminator|];
    }
    FindIs(stream, terminator, 0, pos);
  }

  lemma {:induction false} LowDigitsExtend(known: Bytes, stream: Bytes)
    requires known <= stream && LowDigits(known) < |known|
    ensures LowDigits(stream) == LowDigits(known)
  {
    if 48 <= known[0] < 57 {
      LowDigitsExtend(known[1..], stream[1..]);
    }
  }

  /** Where two strings, neither a prefix of the other, differ. */
  function Mismatch(a: Bytes, b: Bytes): (k: nat)
    requires !(a <= b) && !(b <= a)
    ensures k < |a| && k < |b| && a[k] != b[k]
  {
    if a[0] != b[0] then 0 else
      assert !(a[1..] <= b[1..]) by {
        assert a == [a[0]] + a[1..] && b == [b[0]] + b[1..];
      }
      assert !(b[1..] <= a[1..]) by {
        assert a == [a[0]] + a[1..] && b == [b[0]] + b[1..];
      }
      1 + Mismatch(a[1..], b[1..])
  }

  // ----- the run so far -----

  /**
   The run so far agrees with the meaning: it has produced `values` and consumed
   `consumed`, and the script `left` goes on with the octets `stream`.
   */
  ghost predicate Continues(script: seq<ReadOperation>, values: seq<Value>, consumed: Bytes, left: seq<ReadOperation>,
                            stream: Bytes)
  {
    var rest := Denote(left, stream);
    Denote(script, consumed + stream) == Meaning(values + rest.values, |consumed| + rest.taken)
  }

  lemma ContinuesAtFirst(script: seq<ReadOperation>, stream: Bytes)
    requires Script(script)
    ensures Continues(script, [], [], script, stream)
  {
    assert [] + stream == stream;
    assert [] + Denote(script, stream).values == Denote(script, stream).values;
  }

  lemma Rejoin(consumed: Bytes, stream: Bytes, n: nat)
    requires n <= |stream|
    ensures consumed + stream == consumed + stream[..n] + stream[n..]
  {}

  /** What an operation decides on the octets it knows moves those it takes from the stream to what is consumed. */
  lemma ContinuesDecided(script: seq<ReadOperation>, values: seq<Value>, consumed: Bytes, left: seq<ReadOperation>,
                         known: Bytes, stream: Bytes)
    requires Script(script) && Script(left)
    requires left != [] && known <= stream && Decide(left[0], known).Some?
    requires Continues(script, values, consumed, left, stream)
    ensures var (v, n) := Decide(left[0], known).value;
            Continues(script, values + [v], consumed + stream[..n], Left(left, v), stream[n..])
            && consumed + stream == consumed + stream[..n] + stream[n..]
  {
    DecisionExtends(left[0], known, stream);
    hide Decide, Left;
    var (v, n) := Decide(left[0], known).value;
    var rest := Denote(Left(left, v), stream[n..]);
    Rejoin(consumed, stream, n);
    assert values + ([v] + rest.values) == values + [v] + rest.values;
  }

  // ----- the context between reads -----

  /** The operation has decided, on octets already taken. */
  predicate Settled(op: ReadOperation, ctx: ReadContext)
  {
    match op
    case ReadStaticOctets(contents) => |contents| > 0 && |ctx.buffer| == |contents|
    case ReadOctetsUntilTerminator(_, _) => ctx.ready
    case ReadIntFromAscii => ctx.ready && ctx.buffer != []
    case TerminateListIfReadAhead(terminator) => terminator <= ctx.buffer
    case TransitionLookahead(_) => false
  }

  /** An operation that has taken nothing may have looked at the front of the stream. */
  ghost predicate Looking(op: ReadOperation, ctx: ReadContext, stream: Bytes)
  {
    match op
    case ReadStaticOctets(_) => ctx == FreshInputOutput
    case ReadOctetsUntilTerminator(_, _) => ctx == FreshInputOutput
    case ReadIntFromAscii =>
      ctx == FreshInputOutput || (ctx == FreshInputOutput.(ready := true) && stream != [] && LowDigits(stream) == 0)
    case TerminateListIfReadAhead(_) => !ctx.eof && ctx.buffer <= stream
    case TransitionLookahead(_) => !ctx.eof && ctx.buffer <= stream
  }

  /** The value of an operation that took nothing is what it decides on the stream. */
  lemma LookingDecides(op: ReadOperation, ctx: ReadContext, stream: Bytes)
    requires Streams(op) && Looking(op, ctx, stream) && !Settled(op, ctx) && Evaluate(op, ctx).Some?
    ensures Decide(op, stream) == Some((Evaluate(op, ctx).value, 0))
  {
    match op
    case ReadStaticOctets(contents) =>
      assert contents == [] && stream[..0] == [];
    case ReadOctetsUntilTerminator(_, _) =>
    case ReadIntFromAscii =>
      assert stream[..0] == [];
    case TerminateListIfReadAhead(terminator) =>
      assert !(ctx.buffer <= terminator);
      DecisionExtends(op, ctx.buffer, stream);
    case TransitionLookahead(_) =>
      DecisionExtends(op, ctx.buffer, stream);
  }

  /** Feeding a looking operation either decides on the input, or takes nothing and goes on looking. */
  lemma FeedDecides(op: ReadOperation, ctx: ReadContext, input: Bytes, stream: Bytes)
    requires Streams(op) && (op.ReadStaticOctets? ==> op.contents != [])
    requires Looking(op, ctx, stream) && !Settled(op, ctx) && input <= stream
    ensures Feed(op, ctx, input).Took?
    ensures var Took(n, next) := Feed(op, ctx, input);
            if n == 0 then
              && !Settled(op, next) && Looking(op, next, stream)
              && (Evaluate(op, next).None? ==> Decide(op, input).None?)
            else
              && Settled(op, next) && Evaluate(op, next).Some?
              && Decide(op, input) == Some((Evaluate(op, next).value, n))
  {
    match op
    case ReadStaticOctets(contents) =>
      assert |input| >= |contents| ==> |input[..|contents|]| == |contents|;
    case ReadOctetsUntilTerminator(_, _) =>
    case ReadIntFromAscii =>
      if LowDigits(input) == 0 < |input| { LowDigitsExtend(input, stream); }
    case TerminateListIfReadAhead(terminator) =>
      assert |input| >= |terminator| ==> (input[..|terminator|] == terminator <==> terminator <= input);
    case TransitionLookahead(_) =>
  }

  // ----- all chunks delivered -----

  /** What is left of the first chunk goes back to the front. */
  lemma TakenOff(held: Bytes, queue: seq<Bytes>, n: nat)
    requires n <= |held|
    ensures Concat(if n < |held| then [held[n..]] + queue else queue) == (held + Concat(queue))[n..]
  {
    assert ([held[n..]] + queue)[1..] == queue;
    assert (held + Concat(queue))[n..] == held[n..] + Concat(queue);
  }

  lemma JoinedOn(held: Bytes, queue: seq<Bytes>)
    requires queue != []
    ensures held + queue[0] + Concat(queue[1..]) == held + Concat(queue)
  {}

  /** What a blocked read comes to is what it decides on the octets delivered, however they were cut. */
  lemma {:induction false} JoiningDecides(op: ReadOperation, ctx: ReadContext, held: Bytes, queue: seq<Bytes>)
    requires Streams(op) && (op.ReadStaticOctets? ==> op.contents != [])
    requires Looking(op, ctx, held + Concat(queue)) && !Settled(op, ctx)
    ensures var stream := held + Concat(queue);
            match JoinChunks(op, ctx, held, queue)
            case Resumed(next, rest) =>
              && Evaluate(op, next).Some? && Decide(op, stream).Some?
                 && Decide(op, stream).value.0 == Evaluate(op, next).value
              && Concat(rest) == stream[Decide(op, stream).value.1..]
            case Starving => Decide(op, stream).None?
            case Spinning => false
    decreases |queue|
  {
    var stream := held + Concat(queue);
    FeedDecides(op, ctx, held, stream);
    hide Decide, Looking, Feed, Evaluate, Settled;
    var Took(n, next) := Feed(op, ctx, held);
    if n > 0 {
      DecisionExtends(op, held, stream);
      TakenOff(held, queue, n);
    } else if queue != [] {
      JoinedOn(held, queue);
      JoiningDecides(op, next, held + queue[0], queue[1..]);
    } else {
      ConcatOne(held);
      assert stream == held && stream[0..] == stream;
      if Evaluate(op, next).Some? {
        LookingDecides(op, next, stream);
      }
    }
  }
}
