/** The read operations: their values, what a read does to their context, and the runner feeding them from the queue. */
module ReadOperations {
  import opened Options
  import opened Octets
  import opened Escape
  import opened Values
  import opened Contexts
  import Integers
  import Lookahead

  type ReadOperation = op: Operation | Reads(op) witness ReadIntFromAscii

  type ReadContext = ctx: Context | ctx.InputOutputContext? witness FreshInputOutput

  /** `strtol` on the digits read, and the checks around it. */
  function IntegerOf(buffer: Bytes): Value {
    var converted := match Integers.StrTo(buffer) case None => 0 case Some(n) => n;
    if buffer == [48] then Int(0)
    else if converted == 0 || converted > 0x7FFF_FFFF || converted < -0x8000_0000 then Error(ProtocolMismatchError)
    else Int(converted)
  }

  /** `operator()`; `None` waits for a read. */
  function Evaluate(op: Operation, ctx: Context): Option<Value>
    requires Reads(op) && ctx.InputOutputContext?
  {
    match op
    case ReadStaticOctets(contents) =>
      if |ctx.buffer| < |contents| then (if ctx.eof then Some(Error(ProtocolMismatchError)) else None)
      else if SameUpToNul(ctx.buffer, contents, |contents|) then Some(Bool(true))
      else Some(Error(ProtocolMismatchError))
    case ReadOctetsUntilTerminator(_, _) =>
      if ctx.ready then Some(Text(ctx.buffer)) else if ctx.eof then Some(Error(ProtocolMismatchError)) else None
    case ReadIntFromAscii =>
      if ctx.ready then Some(IntegerOf(ctx.buffer)) else if ctx.eof then Some(Error(ProtocolMismatchError)) else None
    case TerminateListIfReadAhead(terminator) =>
      if |ctx.buffer| == 0 || (|ctx.buffer| < |terminator| && ctx.buffer == terminator[..|ctx.buffer|])
      then (if ctx.eof then Some(Error(ProtocolMismatchError)) else None)
      else if |ctx.buffer| >= |terminator| && ctx.buffer[..|terminator|] == terminator then Some(InterruptGenerator)
      else Some(Bool(false))
    case TransitionLookahead(rules) =>
      match Lookahead.Decision(rules, ctx.buffer, ctx.eof)
      case Chosen(message) => Some(Text(OctetsOf(message)))
      case ProtocolMismatch => Some(Error(ProtocolMismatchError))
      case WaitingForRead => None
  }

  /** `ready_to_evaluate` says exactly whether the operation has a value. */
  predicate ReadyToEvaluate(op: Operation, ctx: Context)
    requires Reads(op) && ctx.InputOutputContext?
    ensures ReadyToEvaluate(op, ctx) <==> Evaluate(op, ctx).Some?
  {
    match op
    case ReadStaticOctets(contents) => |ctx.buffer| >= |contents| || ctx.eof
    case ReadOctetsUntilTerminator(_, _) => ctx.ready || ctx.eof
    case ReadIntFromAscii => ctx.ready || ctx.eof
    case TerminateListIfReadAhead(terminator) =>
      if |ctx.buffer| == 0 then ctx.eof
      else if |ctx.buffer| < |terminator| then ctx.buffer != terminator[..|ctx.buffer|] || ctx.eof
      else true
    case TransitionLookahead(rules) => Lookahead.Decision(rules, ctx.buffer, ctx.eof) != Lookahead.WaitingForRead
  }

  /** The digits that `ReadIntFromAscii` takes; nine is not one of them. */
  function LowDigits(input: Bytes): (n: nat)
    ensures n <= |input|
  {
    if input != [] && 48 <= input[0] < 57 then 1 + LowDigits(input[1..]) else 0
  }

  /** What `handle_read` comes to: the octets consumed and the context, or a loop without end. */
  datatype Fed = Took(consumed: nat, ctx: Context) | NeverReturns

  function Feed(op: Operation, ctx: Context, input: Bytes): (r: Fed)
    requires Reads(op) && ctx.InputOutputContext?
    ensures r.Took? ==> r.consumed <= |input| && r.ctx.InputOutputContext?
  {
    match op
    case ReadStaticOctets(contents) =>
      if |input| < |contents| then Took(0, ctx) else Took(|contents|, ctx.(buffer := input[..|contents|]))
    case ReadOctetsUntilTerminator(terminator, escape) =>
      if escape.Some? then
        match ReadEscaped(input, 0, ctx.buffer, terminator, escape.value)
        case Found(text, taken) => Took(taken, ctx.(buffer := text, ready := true))
        case Gathered(text) => Took(0, ctx.(buffer := text))
        case NeverEnds => NeverReturns
      else
        (match Find(input, terminator, 0)
         case None => Took(0, ctx)
         case Some(pos) => Took(pos + |terminator|, ctx.(buffer := input[..pos], ready := true)))
    case ReadIntFromAscii =>
      var n := LowDigits(input);
      if n < |input| then Took(n, ctx.(buffer := input[..n], ready := true)) else Took(0, ctx)
    case TerminateListIfReadAhead(terminator) =>
      Took(if |input| >= |terminator| && input[..|terminator|] == terminator then |terminator| else 0,
           ctx.(buffer := input))
    case TransitionLookahead(_) => Took(0, ctx.(buffer := input))
  }

  /** What the runner's `handle_read` makes of a blocked read when no more chunks arrive. */
  datatype Handled = Resumed(ctx: Context, queue: seq<Bytes>) | Starving | Spinning

  /** The first chunk, then one more at a time until the operation takes some; what is left goes back to the front. */
  function JoinChunks(op: Operation, ctx: Context, held: Bytes, queue: seq<Bytes>): (r: Handled)
    requires Reads(op) && ctx.InputOutputContext?
    ensures r.Resumed? ==> r.ctx.InputOutputContext?
    decreases |queue|
  {
    match Feed(op, ctx, held)
    case NeverReturns => Spinning
    case Took(n, next) =>
      if n > 0 then Resumed(next, if n < |held| then [held[n..]] + queue else queue)
      else if queue != [] then JoinChunks(op, next, held + queue[0], queue[1..])
      else if ReadyToEvaluate(op, next) then Resumed(next, [held])
      else Starving
  }

  /** `handle_read` with all chunks delivered; the end of file is looked at only when there is none. */
  function HandleRead(op: Operation, ctx: Context, queue: seq<Bytes>, eof: bool): (r: Handled)
    requires Reads(op) && ctx.InputOutputContext?
    ensures r.Resumed? ==> r.ctx.InputOutputContext?
  {
    if queue != [] then JoinChunks(op, ctx, queue[0], queue[1..])
    else if eof then Resumed(ctx.(eof := true), [])
    else Starving
  }

  /** Taking octets settles the value. */
  lemma TakingSettles(op: Operation, ctx: Context, input: Bytes)
    requires Reads(op) && ctx.InputOutputContext?
    requires Feed(op, ctx, input).Took? && Feed(op, ctx, input).consumed > 0
    ensures Evaluate(op, Feed(op, ctx, input).ctx).Some?
  {}

  lemma {:induction false} JoiningSettles(op: Operation, ctx: Context, held: Bytes, queue: seq<Bytes>)
    requires Reads(op) && ctx.InputOutputContext? && JoinChunks(op, ctx, held, queue).Resumed?
    ensures Evaluate(op, JoinChunks(op, ctx, held, queue).ctx).Some?
    decreases |queue|
  {
    var fed := Feed(op, ctx, held);
    if fed.consumed > 0 {
      TakingSettles(op, ctx, held);
    } else if queue != [] {
      JoiningSettles(op, fed.ctx, held + queue[0], queue[1..]);
    }
  }

  /** At the end of file every rule of a lookahead holds or is dead. */
  lemma EndSettlesLookahead(rules: seq<Lookahead.Rule>)
    ensures Lookahead.Decision(rules, [], true) != Lookahead.WaitingForRead
  {
    forall i | 0 <= i < |rules| ensures Lookahead.Holds(rules[i], [], true) || Lookahead.Dead(rules[i], [], true) {}
  }

  /** A read that is unblocked has a value. */
  lemma ResumedSettles(op: Operation, queue: seq<Bytes>, eof: bool)
    requires Reads(op)
    ensures var r := HandleRead(op, FreshInputOutput, queue, eof);
            r.Resumed? ==> Evaluate(op, r.ctx).Some?
  {
    var r := HandleRead(op, FreshInputOutput, queue, eof);
    if r.Resumed? {
      if queue != [] {
        JoiningSettles(op, FreshInputOutput, queue[0], queue[1..]);
      } else if op.TransitionLookahead? {
        EndSettlesLookahead(op.rules);
      }
    }
  }
}
