/** Write operations handing their octets to the output queue while the network thread empties it. */
module Output {
  import opened Octets

  /** Queueing the rest of a buffer. */
  lemma QueueRest(sent: Bytes, queue: seq<Bytes>, done: Bytes, buffer: Bytes, it: nat)
    requires it <= |buffer| && sent + Concat(queue) == done + buffer[..it]
    ensures sent + Concat(queue + [buffer[it..]]) == done + buffer[..|buffer|]
  {
    ConcatAppend(queue, [buffer[it..]]);
    ConcatOne(buffer[it..]);
    assert buffer[..|buffer|] == buffer[..it] + buffer[it..];
    Associate(sent, Concat(queue), buffer[it..]);
    Associate(done, buffer[..it], buffer[it..]);
  }

  lemma Associate(a: Bytes, b: Bytes, c: Bytes)
    ensures a + b + c == a + (b + c)
  {}

  class InterpreterContext {
    /** What each write operation, in the order they are reached, puts on the wire. */
    const encodings: seq<Bytes>
    var current: nat
    var buffer: Bytes
    var it: nat
    var outputBuffer: seq<Bytes>
    var eof: bool
    ghost var sent: Bytes
    /** How much of the buffer has been queued; the cursor follows. */
    ghost var handed: nat

    /** What was sent and what is queued are the completed writes and the part of the current one handed over. */
    ghost predicate Valid()
      reads this
    {
      && current <= |encodings| && it <= handed <= |buffer|
      && (buffer != [] ==> current < |encodings| && buffer == encodings[current])
      && sent + Concat(outputBuffer) == Concat(encodings[..current]) + buffer[..handed]
    }

    /** The cursor has caught up, with nothing or with everything handed over. */
    ghost predicate Settled()
      reads this
    {
      it == handed && (it == 0 || it == |buffer|)
    }

    constructor (encodings: seq<Bytes>)
      ensures this.encodings == encodings && Valid() && Settled() && current == 0 && buffer == []
    {
      this.encodings := encodings;
      current, buffer, it, outputBuffer, eof, sent, handed := 0, [], 0, [], false, [], 0;
    }

    /**
     The network thread takes any number of chunks off the queue and sends them, and
     may find the connection closed.
     */
    method Network()
      requires Valid()
      modifies this`outputBuffer, this`sent, this`eof
      ensures Valid() && (old(eof) ==> eof)
    {
      var n: nat :| n <= |outputBuffer|;
      ChunksSent(sent, outputBuffer, n);
      sent := sent + Concat(outputBuffer[..n]);
      outputBuffer := outputBuffer[n..];
      var closed: bool := *;
      eof := eof || closed;
    }

    /** `operator()`: whether the operation waits for a write; a finished one makes way for the next. */
    method Execute() returns (waiting: bool)
      requires Valid() && Settled() && current < |encodings|
      modifies this`current, this`buffer, this`it, this`handed
      ensures Valid() && Settled()
      ensures waiting ==> current == old(current) && buffer != [] && it < |buffer|
      ensures !waiting ==> current == old(current) + 1 && buffer == []
      ensures old(buffer) != [] ==> (waiting <==> old(it) < |old(buffer)|)
    {
      if buffer == [] {
        buffer := encodings[current];
        it, handed := 0, 0;
      }
      if it != |buffer| {
        return true;
      }
      Completed(encodings, current, buffer);
      current, buffer, it, handed := current + 1, [], 0, 0;
      return false;
    }

    /** The operation's own `handle_write`: the cursor moves by at most `size`. */
    method Advance(size: nat) returns (consumed: nat)
      requires it <= |buffer|
      modifies this`it
      ensures consumed == (if size < |buffer| - old(it) then size else |buffer| - old(it))
      ensures it == old(it) + consumed
    {
      var s: nat := size;
      consumed := 0;
      while s > 0 && it != |buffer|
        invariant buffer == old(buffer) && it <= |buffer| && it == old(it) + consumed && s + consumed == size
      {
        s := s - 1;
        consumed := consumed + 1;
        it := it + 1;
      }
    }

    /**
     The runner's `handle_write`, with the network thread at work before, between
     and after its steps: nothing at the end of file, otherwise all that is left is
     copied to the queue and then counted as written.
     */
    method HandleWrite() returns (written: bool)
      requires Valid() && Settled() && buffer != []
      modifies this`it, this`handed, this`outputBuffer, this`sent, this`eof
      ensures Valid() && Settled()
      ensures if written then it == |buffer| else eof && it == old(it)
    {
      Network();
      if eof {
        return false;
      }
      var copy := buffer[it..];
      QueueRest(sent, outputBuffer, Concat(encodings[..current]), buffer, it);
      outputBuffer := outputBuffer + [copy];
      handed := |buffer|;
      Network();
      var consumed := Advance(|copy|);
      Network();
      return true;
    }

    /**
     Conservation: what reached the network and what is still queued are the
     encodings, once each and in order: all of them, or those before the first write
     that found the connection closed, which gives an error instead.
     */
    method InterpreterLoop() returns (mismatch: bool)
      requires Valid() && Settled()
      modifies this
      ensures Valid() && (mismatch ==> eof && current < |encodings| && handed < |buffer|)
      ensures !mismatch ==> current == |encodings|
      ensures sent + Concat(outputBuffer) == Concat(encodings[..current])
    {
      while current < |encodings|
        invariant Valid() && Settled()
        decreases |encodings| - current, if buffer == [] then 2 else if it < |buffer| then 1 else 0
      {
        Network();
        var waiting := Execute();
        if waiting {
          var written := HandleWrite();
          if !written {
            assert Concat(encodings[..current]) + [] == Concat(encodings[..current]);
            return true;
          }
        }
      }
      assert Concat(encodings[..current]) + [] == Concat(encodings[..current]);
      return false;
    }
  }

  /** Chunks taken off the front of the queue and sent. */
  lemma ChunksSent(sent: Bytes, queue: seq<Bytes>, n: nat)
    requires n <= |queue|
    ensures sent + Concat(queue[..n]) + Concat(queue[n..]) == sent + Concat(queue)
  {
    hide Concat;
    var front, back := queue[..n], queue[n..];
    assert front + back == queue;
    ConcatAppend(front, back);
    Associate(sent, Concat(front), Concat(back));
  }

  /** A write handed over completely is one more completed write. */
  lemma Completed(encodings: seq<Bytes>, current: nat, buffer: Bytes)
    requires current < |encodings| && buffer == encodings[current]
    ensures Concat(encodings[..current + 1]) + [] == Concat(encodings[..current]) + buffer[..|buffer|]
  {
    assert encodings[..current + 1] == encodings[..current] + [encodings[current]];
    ConcatAppend(encodings[..current], [encodings[current]]);
    ConcatOne(encodings[current]);
    assert buffer[..|buffer|] == buffer;
  }
}
