/**
 One interpreter reading from its input queue while the network thread goes on
 filling it: the joining of chunks, the push-back of what is left, the signal.
 */
module Runner {
  import opened Options
  import opened Octets
  import opened Values
  import opened Contexts
  import opened ReadOperations
  import opened Reading

  datatype HandleBlockedResult = StillBlocked | Unblocked | NeedsRetry

  /** Octets held by the reader, queued and under way. */
  function Ahead(held: Bytes, queue: seq<Bytes>, incoming: seq<Bytes>): Bytes {
    held + Concat(queue) + Concat(incoming)
  }

  lemma Delivery(held: Bytes, queue: seq<Bytes>, incoming: seq<Bytes>, n: nat)
    requires n <= |incoming|
    ensures Ahead(held, queue + incoming[..n], incoming[n..]) == Ahead(held, queue, incoming)
  {
    ConcatAppend(queue, incoming[..n]);
    ConcatAppend(incoming[..n], incoming[n..]);
    assert incoming == incoming[..n] + incoming[n..];
    Regroup(held, Concat(queue), Concat(incoming[..n]), Concat(incoming[n..]));
  }

  lemma Regroup(a: Bytes, b: Bytes, c: Bytes, d: Bytes)
    ensures a + (b + c) + d == a + b + (c + d)
  {}

  /** Popping a chunk adds it to what is held; pushing what is held back to the front empties the hands. */
  lemma HandOver(held: Bytes, queue: seq<Bytes>, incoming: seq<Bytes>)
    ensures queue != [] ==> Ahead(held + queue[0], queue[1..], incoming) == Ahead(held, queue, incoming)
    ensures Ahead([], [held] + queue, incoming) == Ahead(held, queue, incoming)
    ensures held == [] ==> Ahead([], queue, incoming) == Ahead(held, queue, incoming)
    ensures held <= Ahead(held, queue, incoming)
  {
    assert ([held] + queue)[1..] == queue;
    assert [] + (held + Concat(queue)) == held + Concat(queue);
    if queue != [] {
      assert held + (queue[0] + Concat(queue[1..])) == held + queue[0] + Concat(queue[1..]);
    }
  }

  lemma Remainder(held: Bytes, queue: seq<Bytes>, incoming: seq<Bytes>, n: nat)
    requires n <= |held|
    ensures Ahead(held, queue, incoming)[n..] == Ahead(held[n..], queue, incoming)
  {}

  /** Where the script stands: the operation on top, what was produced and consumed, and the octets still to come. */
  datatype Progress = Progress(left: seq<ReadOperation>, ctx: ReadContext, values: seq<Value>, consumed: Bytes,
                               unread: Bytes)

  ghost predicate Sound(script: seq<ReadOperation>, p: Progress) {
    && Script(script) && Script(p.left)
    && if p.left != [] && Settled(p.left[0], p.ctx) then
         Evaluate(p.left[0], p.ctx).Some?
         && var v := Evaluate(p.left[0], p.ctx).value;
            Continues(script, p.values + [v], p.consumed, Left(p.left, v), p.unread)
       else
         Continues(script, p.values, p.consumed, p.left, p.unread)
         && (p.left != [] ==> Looking(p.left[0], p.ctx, p.unread))
  }

  lemma SoundAtFirst(script: seq<ReadOperation>, stream: Bytes)
    requires Script(script)
    ensures Sound(script, Progress(script, FreshInputOutput, [], [], stream))
  {
    ContinuesAtFirst(script, stream);
  }

  /** The operation on top has a value: it is delivered and the next operation starts. */
  lemma SoundStep(script: seq<ReadOperation>, p: Progress)
    requires Sound(script, p) && p.left != [] && Evaluate(p.left[0], p.ctx).Some?
    ensures var v := Evaluate(p.left[0], p.ctx).value;
            Sound(script, p.(left := Left(p.left, v), ctx := FreshInputOutput, values := p.values + [v]))
  {
    var v := Evaluate(p.left[0], p.ctx).value;
    var next := Left(p.left, v);
    assert Streams(p.left[0]);
    if !Settled(p.left[0], p.ctx) {
      LookingDecides(p.left[0], p.ctx, p.unread);
      ContinuesDecided(script, p.values, p.consumed, p.left, p.unread, p.unread);
      assert p.unread[0..] == p.unread && p.consumed + p.unread[..0] == p.consumed;
    }
    if next != [] {
      assert Streams(next[0]);
    }
  }

  /** A read that takes nothing. */
  lemma SoundLook(script: seq<ReadOperation>, p: Progress, input: Bytes)
    requires Sound(script, p) && p.left != [] && !Settled(p.left[0], p.ctx) && input <= p.unread
    requires p.left[0].ReadStaticOctets? ==> p.left[0].contents != []
    requires Feed(p.left[0], p.ctx, input).Took? && Feed(p.left[0], p.ctx, input).consumed == 0
    ensures var next := Feed(p.left[0], p.ctx, input).ctx;
            Sound(script, p.(ctx := next)) && !Settled(p.left[0], next)
            && (Evaluate(p.left[0], next).None? ==> Decide(p.left[0], input).None?)
  {
    assert Streams(p.left[0]);
    FeedDecides(p.left[0], p.ctx, input, p.unread);
  }

  /** A read that takes octets settles the operation's value. */
  lemma SoundTake(script: seq<ReadOperation>, p: Progress, input: Bytes)
    requires Sound(script, p) && p.left != [] && !Settled(p.left[0], p.ctx) && input <= p.unread
    requires p.left[0].ReadStaticOctets? ==> p.left[0].contents != []
    requires Feed(p.left[0], p.ctx, input).Took? && Feed(p.left[0], p.ctx, input).consumed > 0
    ensures var Took(n, next) := Feed(p.left[0], p.ctx, input);
            Sound(script, p.(ctx := next, consumed := p.consumed + input[..n], unread := p.unread[n..]))
            && Evaluate(p.left[0], next).Some?
            && p.consumed + p.unread == p.consumed + input[..n] + p.unread[n..]
  {
    assert Streams(p.left[0]);
    var Took(n, next) := Feed(p.left[0], p.ctx, input);
    FeedDecides(p.left[0], p.ctx, input, p.unread);
    ContinuesDecided(script, p.values, p.consumed, p.left, input, p.unread);
    assert p.unread[..n] == input[..n];
  }

  /** A blocked operation that decides nothing on all there is has no meaning beyond what was produced. */
  lemma SoundEnd(script: seq<ReadOperation>, p: Progress)
    requires Sound(script, p)
    requires p.left == [] || (!Settled(p.left[0], p.ctx) && Decide(p.left[0], p.unread).None?)
    ensures Denote(script, p.consumed + p.unread) == Meaning(p.values, |p.consumed|)
  {
    assert p.values + [] == p.values;
  }

  /** `InterpreterContext`, with the chunks the network thread has yet to deliver and the runner's signal. */
  class InterpreterContext {
    ghost const script: seq<ReadOperation>
    ghost const stream: Bytes
    var left: seq<ReadOperation>
    var ctx: ReadContext
    var values: seq<Value>
    var inputBuffer: seq<Bytes>
    var incoming: seq<Bytes>
    var notified: bool
    ghost var consumed: Bytes

    /** What no operation has consumed: the octets held by the reader, the queue, and the chunks under way. */
    ghost function Unread(held: Bytes): Bytes
      reads this
    {
      Ahead(held, inputBuffer, incoming)
    }

    ghost function View(held: Bytes): Progress
      reads this
    {
      Progress(left, ctx, values, consumed, Unread(held))
    }

    /** Nothing is lost or repeated, and the run agrees with the meaning of the script. */
    ghost predicate Valid(held: Bytes)
      reads this
    {
      consumed + Unread(held) == stream && Sound(script, View(held))
    }

    constructor (script: seq<ReadOperation>, chunks: seq<Bytes>)
      requires Script(script)
      ensures this.script == script && left == script && stream == Concat(chunks)
      ensures Valid([])
    {
      this.script := script;
      stream := Concat(chunks);
      left, ctx, values := script, FreshInputOutput, [];
      inputBuffer, incoming, notified, consumed := [], chunks, false, [];
      new;
      SoundAtFirst(script, stream);
      assert [] + stream == stream;
    }

    /** The network thread delivers any number of chunks, and notifies the signal after each. */
    method Arrivals(ghost held: Bytes)
      requires Valid(held)
      modifies this`inputBuffer, this`incoming, this`notified
      ensures Valid(held)
      ensures |incoming| <= |old(incoming)| && |inputBuffer| + |incoming| == |old(inputBuffer)| + |old(incoming)|
      ensures if |incoming| < |old(incoming)| then notified
              else notified == old(notified) && inputBuffer == old(inputBuffer) && incoming == old(incoming)
      ensures old(inputBuffer) <= inputBuffer
    {
      var n: nat :| n <= |incoming|;
      Delivery(held, inputBuffer, incoming, n);
      inputBuffer := inputBuffer + incoming[..n];
      incoming := incoming[n..];
      notified := notified || n > 0;
    }

    /** `pop`: the front chunk passes from the queue to the reader. */
    method Pop(ghost held: Bytes) returns (chunk: Option<Bytes>)
      requires Valid(held)
      modifies this`inputBuffer
      ensures Valid(held + if chunk.Some? then chunk.value else [])
      ensures if old(inputBuffer) == [] then chunk.None? && inputBuffer == []
              else chunk == Some(old(inputBuffer)[0]) && inputBuffer == old(inputBuffer)[1..]
    {
      assert held + [] == held;
      if inputBuffer == [] {
        return None;
      }
      HandOver(held, inputBuffer, incoming);
      chunk := Some(inputBuffer[0]);
      inputBuffer := inputBuffer[1..];
    }

    /** `push_front`: what the reader holds passes to the front of the queue. */
    method PushFront(held: Bytes)
      requires Valid(held)
      modifies this`inputBuffer
      ensures Valid([]) && inputBuffer == [held] + old(inputBuffer)
    {
      HandOver(held, inputBuffer, incoming);
      inputBuffer := [held] + inputBuffer;
    }

    /** `Interpreter::handle_read` on the octets held: the operation on top looks at them, and may take some. */
    method FeedTop(held: Bytes) returns (taken: nat)
      requires Valid(held) && Blocked()
      modifies this`ctx, this`consumed
      ensures taken <= |held| && Valid(held[taken..])
      ensures taken > 0 ==> Evaluate(left[0], ctx).Some?
      ensures taken == 0 ==> Blocked() && (Evaluate(left[0], ctx).None? ==> Decide(left[0], held).None?)
    {
      HandOver(held, inputBuffer, incoming);
      var Took(n, next) := Feed(left[0], ctx, held);
      if n == 0 {
        SoundLook(script, View(held), held);
        assert held[0..] == held;
      } else {
        SoundTake(script, View(held), held);
        Remainder(held, inputBuffer, incoming, n);
        consumed := consumed + held[..n];
      }
      ctx := next;
      return n;
    }

    /** The operation on top has taken nothing yet. */
    ghost predicate Blocked()
      reads this
    {
      left != [] && !Settled(left[0], ctx) && (left[0].ReadStaticOctets? ==> left[0].contents != [])
    }

    /** A waiting operation without a value has taken nothing. */
    lemma WaitingIsBlocked()
      requires Valid([]) && left != [] && Evaluate(left[0], ctx).None?
      ensures Blocked() && Decide(left[0], []).None?
    {
      assert Streams(left[0]);
    }

    /** `handle_read`, with the network thread delivering chunks between any two operations on the queue. */
    method HandleRead() returns (r: HandleBlockedResult)
      requires Valid([]) && left != [] && Evaluate(left[0], ctx).None?
      modifies this`inputBuffer, this`incoming, this`notified, this`ctx, this`consumed
      ensures Valid([])
      ensures r == Unblocked <==> Evaluate(left[0], ctx).Some?
      ensures r == NeedsRetry ==> Backlog() < old(Backlog())
      ensures r == StillBlocked ==> Backlog() == old(Backlog())
      ensures |incoming| <= old(|incoming|)
      ensures |incoming| < old(|incoming|) ==> notified
      ensures |incoming| == old(|incoming|) ==> notified == old(notified)
      ensures r == StillBlocked && !notified ==> Decide(left[0], Concat(inputBuffer)).None?
    {
      hide Evaluate, Decide, Sound, Settled;
      WaitingIsBlocked();
      Arrivals([]);
      var buffer := Pop([]);
      if buffer.None? {
        assert Concat(inputBuffer) == [];
        return StillBlocked;
      }
      assert [] + buffer.value == buffer.value;
      Arrivals(buffer.value);
      var taken := FeedTop(buffer.value);
      if taken == 0 {
        assert buffer.value[0..] == buffer.value;
        r := JoinChunks(buffer.value);
      } else {
        PutBack(buffer.value[taken..]);
        r := Unblocked;
      }
    }

    /** What is left of a chunk goes back to the front of the queue. */
    method PutBack(rest: Bytes)
      requires Valid(rest)
      modifies this`inputBuffer, this`incoming, this`notified
      ensures Valid([])
      ensures |incoming| <= old(|incoming|)
      ensures |incoming| < old(|incoming|) ==> notified
      ensures |incoming| == old(|incoming|) ==> notified == old(notified)
    {
      if rest != [] {
        Arrivals(rest);
        PushFront(rest);
      }
    }

    /** No chunk is left to join: all that is held goes back, unless the operation can decide by looking at it. */
    method GiveBack(joined: Bytes, didJoin: bool) returns (r: HandleBlockedResult)
      requires Valid(joined) && Blocked() && inputBuffer == []
      requires Evaluate(left[0], ctx).None? ==> Decide(left[0], joined).None?
      modifies this`inputBuffer, this`incoming, this`notified
      ensures Valid([]) && Backlog() == old(Backlog()) + 1
      ensures r == if Evaluate(left[0], ctx).Some? then Unblocked else if didJoin then NeedsRetry else StillBlocked
      ensures |incoming| <= old(|incoming|)
      ensures |incoming| < old(|incoming|) ==> notified
      ensures |incoming| == old(|incoming|) ==> notified == old(notified)
      ensures r == StillBlocked && !notified ==> Decide(left[0], Concat(inputBuffer)).None?
    {
      Arrivals(joined);
      PushFront(joined);
      ConcatOne(joined);
      if ReadyToEvaluate(left[0], ctx) {
        return Unblocked;
      }
      return if didJoin then NeedsRetry else StillBlocked;
    }

    /** The joining loop of `handle_read`: nothing was taken of the first chunk. */
    method JoinChunks(first: Bytes) returns (r: HandleBlockedResult)
      requires Valid(first) && Blocked()
      requires Evaluate(left[0], ctx).None? ==> Decide(left[0], first).None?
      modifies this`inputBuffer, this`incoming, this`notified, this`ctx, this`consumed
      ensures Valid([])
      ensures r == Unblocked <==> Evaluate(left[0], ctx).Some?
      ensures r == NeedsRetry ==> Backlog() <= old(Backlog())
      ensures r == StillBlocked ==> Backlog() == old(Backlog()) + 1
      ensures |incoming| <= old(|incoming|)
      ensures |incoming| < old(|incoming|) ==> notified
      ensures |incoming| == old(|incoming|) ==> notified == old(notified)
      ensures r == StillBlocked && !notified ==> Decide(left[0], Concat(inputBuffer)).None?
    {
      hide Evaluate, Decide, Sound, Settled;
      var joined, didJoin := first, false;
      var taken: nat := 0;
      assert joined[0..] == joined;
      while taken == 0
        invariant taken <= |joined| && Valid(joined[taken..])
        invariant if taken > 0 then Evaluate(left[0], ctx).Some?
                  else Blocked() && (Evaluate(left[0], ctx).None? ==> Decide(left[0], joined).None?)
        invariant if didJoin then Backlog() < old(Backlog()) else Backlog() == old(Backlog())
        invariant |incoming| <= old(|incoming|)
        invariant |incoming| < old(|incoming|) ==> notified
        invariant |incoming| == old(|incoming|) ==> notified == old(notified)
        decreases taken == 0, Backlog()
      {
        assert joined[0..] == joined;
        Arrivals(joined);
        var next := Pop(joined);
        if next.None? {
          assert joined + [] == joined;
          r := GiveBack(joined, didJoin);
          return;
        }
        didJoin := true;
        joined := joined + next.value;
        taken := FeedTop(joined);
        assert joined[0..] == joined;
      }
      PutBack(joined[taken..]);
      return Unblocked;
    }

    /** The chunks queued and under way. */
    ghost function Backlog(): nat
      reads this
    {
      |inputBuffer| + |incoming|
    }

    /** `wake_up_interpreter.wait()`: true when no chunk will ever wake the interpreter again. */
    method Wait() returns (asleep: bool)
      requires Valid([])
      modifies this`inputBuffer, this`incoming, this`notified
      ensures Valid([]) && Backlog() == old(Backlog()) && |incoming| <= old(|incoming|)
      ensures asleep <==> !old(notified) && old(incoming) == []
      ensures asleep ==> inputBuffer == old(inputBuffer)
      ensures !asleep ==> !notified && (!old(notified) ==> |incoming| < old(|incoming|))
    {
      if !notified {
        if incoming == [] {
          return true;
        }
        Delivery([], inputBuffer, incoming, 1);
        inputBuffer := inputBuffer + incoming[..1];
        incoming := incoming[1..];
      }
      notified := false;
      return false;
    }

    /** The operation on top delivers its value and makes way for the next. */
    method NextOperation(v: Value)
      requires Valid([]) && left != [] && Evaluate(left[0], ctx) == Some(v)
      modifies this`values, this`left, this`ctx
      ensures Valid([]) && |left| < |old(left)|
    {
      SoundStep(script, View([]));
      values := values + [v];
      left := Left(left, v);
      ctx := FreshInputOutput;
    }

    /**
     The interpreter loop until the script is done or nothing can wake it. The
     values and the octets left over are those the script means on the whole
     stream, however it was cut and whenever the chunks arrived.
     */
    method InterpreterLoop() returns (ghost unread: Bytes)
      requires Valid([])
      modifies this
      ensures Valid([]) && unread == Unread([])
      ensures Meaning(values, |stream| - |unread|) == Denote(script, stream)
      ensures unread == stream[Denote(script, stream).taken..]
    {
      hide Evaluate, Decide, Sound, Denote;
      while left != []
        invariant Valid([])
        decreases |left|, left != [] && Evaluate(left[0], ctx).None?, Backlog(), |incoming|, notified
      {
        var v := Evaluate(left[0], ctx);
        if v.Some? {
          NextOperation(v.value);
        } else {
          var r := HandleRead();
          if r == StillBlocked {
            WaitingIsBlocked();
            var asleep := Wait();
            if asleep {
              assert [] + Concat(inputBuffer) + [] == Concat(inputBuffer);
              break;
            }
          }
        }
      }
      unread := Unread([]);
      SoundEnd(script, View([]));
      assert stream[|consumed|..] == unread;
    }
  }

  /** Chunk independence: two ways of cutting one stream give the same values and leave the same octets. */
  method ReadInChunks(script: seq<ReadOperation>, chunks: seq<Bytes>) returns (values: seq<Value>, ghost unread: Bytes)
    requires Script(script)
    ensures values == Denote(script, Concat(chunks)).values
    ensures unread == Concat(chunks)[Denote(script, Concat(chunks)).taken..]
  {
    var context := new InterpreterContext(script, chunks);
    unread := context.InterpreterLoop();
    values := context.values;
  }
}
