/** The emitted message classes, parameterised by the loop-free action list they were emitted for. */
module Emitted {
  import opened Options
  import opened Octets
  import opened Escape
  import opened Integers
  import opened Translate

  datatype FieldType = Text | Number(integer: IntegerType)

  datatype FieldValue = TextValue(text: Bytes) | NumberValue(number: int)

  type Data = map<string, FieldValue>

  predicate Holds(t: FieldType, v: FieldValue) {
    match t
    case Text => v.TextValue?
    case Number(integer) => v.NumberValue? && Fits(integer, v.number)
  }

  predicate WellTyped(types: map<string, FieldType>, data: Data) {
    data.Keys == types.Keys && forall name :: name in types ==> Holds(types[name], data[name])
  }

  // ----- serializer -----

  /** A string literal assigned to a `std::string` ends at its first NUL. */
  function CString(octets: Bytes): (r: Bytes)
    ensures r <= octets && 0 !in r
    ensures |r| < |octets| ==> octets[|r|] == 0
  {
    if octets == [] || octets[0] == 0 then [] else [octets[0]] + CString(octets[1..])
  }

  /** The actions the emitted serializer handles outside loops. */
  predicate Writes(a: Action, types: map<string, FieldType>) {
    match a
    case WriteStaticOctets(_) => true
    case WriteFromIdentifier(id, e) => id.name in types && (e.Some? ==> |e.value.character| > 0)
    case _ => false
  }

  predicate Writable(actions: seq<Action>, types: map<string, FieldType>) {
    forall i :: 0 <= i < |actions| ==> Writes(actions[i], types)
  }

  function Rendered(v: FieldValue): Bytes {
    match v
    case TextValue(text) => text
    case NumberValue(number) => Decimal(number)
  }

  /** The value as it stands on the wire. */
  function OnWire(v: Bytes, e: Option<EscapeInfo>): Bytes
    requires e.Some? ==> |e.value.character| > 0
  {
    if e.Some? then Escaped(v, e.value.character, e.value.sequence) else v
  }

  function Chunk(a: Action, types: map<string, FieldType>, data: Data): Bytes
    requires Writes(a, types) && WellTyped(types, data)
  {
    match a
    case WriteStaticOctets(octets) => CString(octets)
    case WriteFromIdentifier(id, e) => OnWire(Rendered(data[id.name]), e)
  }

  /** What `next_chunk` gives in stage `k`. */
  function ChunkAt(actions: seq<Action>, k: nat, types: map<string, FieldType>, data: Data): Bytes
    requires Writable(actions, types) && WellTyped(types, data)
  {
    if k < |actions| then Chunk(actions[k], types, data) else []
  }

  class MessageSerializer {
    const actions: seq<Action>
    const types: map<string, FieldType>
    var data: Data
    var complete: bool
    var hasData: bool
    var stage: nat
    var currentChunk: Bytes

    ghost predicate Valid()
      reads this
    {
      Writable(actions, types) && (hasData ==> WellTyped(types, data)) && (!complete ==> hasData)
    }

    constructor (actions: seq<Action>, types: map<string, FieldType>)
      requires Writable(actions, types)
      ensures this.actions == actions && this.types == types
      ensures Valid() && complete && !hasData && stage == 0
    {
      this.actions := actions;
      this.types := types;
      data, complete, hasData, stage, currentChunk := map[], true, false, 0, [];
    }

    method SetData(data: Data)
      requires Writable(actions, types) && WellTyped(types, data)
      modifies this
      ensures Valid() && this.data == data && hasData && !complete && stage == 0
    {
      this.data, hasData, complete, stage := data, true, false, 0;
    }

    method Reset()
      requires Writable(actions, types)
      modifies this
      ensures Valid() && data == map[] && !hasData && complete && stage == 0 && currentChunk == []
    {
      data, hasData, complete, stage, currentChunk := map[], false, true, 0, [];
    }

    /** The write expression of one action. */
    method Write(a: Action) returns (chunk: Bytes)
      requires Writes(a, types) && WellTyped(types, data)
      ensures chunk == Chunk(a, types, data)
    {
      match a
      case WriteStaticOctets(octets) =>
        chunk := CString(octets);
      case WriteFromIdentifier(id, e) =>
        assert Holds(types[id.name], data[id.name]);
        if types[id.name].Number? {
          chunk := Decimal(data[id.name].number);
        } else {
          chunk := data[id.name].text;
        }
        if e.Some? {
          chunk := EmittedEscape(chunk, e.value.character, e.value.sequence);
        }
    }

    method NextChunk() returns (chunk: Bytes)
      requires Valid()
      modifies this`currentChunk, this`complete
      ensures Valid()
      ensures old(complete) ==> chunk == [] && complete
      ensures !old(complete) ==> chunk == ChunkAt(actions, stage, types, data) && complete == (stage >= |actions|)
    {
      if complete || !hasData {
        return [];
      }
      currentChunk := [];
      if stage < |actions| {
        currentChunk := Write(actions[stage]);
      } else {
        complete := true;
        return [];
      }
      return currentChunk;
    }

    method Advance()
      requires Valid()
      modifies this`stage, this`complete
      ensures Valid()
      ensures stage == if old(complete) then old(stage) else old(stage) + 1
      ensures complete == (old(complete) || stage >= |actions|)
    {
      if complete {
        return;
      }
      stage := stage + 1;
      if stage >= |actions| {
        complete := true;
      }
    }
  }

  // ----- the part of the emitted state machine that sends -----

  function Encoding(actions: seq<Action>, types: map<string, FieldType>, data: Data): Bytes
    requires Writable(actions, types) && WellTyped(types, data)
  {
    if actions == [] then [] else Chunk(actions[0], types, data) + Encoding(actions[1..], types, data)
  }

  /** What the send loop appends from stage `k` on: it gives up at the first empty chunk. */
  function Sent(actions: seq<Action>, k: nat, types: map<string, FieldType>, data: Data): Bytes
    requires Writable(actions, types) && WellTyped(types, data)
    decreases |actions| - k
  {
    if k >= |actions| || Chunk(actions[k], types, data) == [] then []
    else Chunk(actions[k], types, data) + Sent(actions, k + 1, types, data)
  }

  /** `sent` and what stages `k` and later still give make up the whole. */
  ghost predicate Sending(all: Bytes, sent: Bytes, k: nat, actions: seq<Action>, types: map<string, FieldType>,
                          data: Data)
  {
    Writable(actions, types) && WellTyped(types, data) && all == sent + Sent(actions, k, types, data)
  }

  lemma SendTurn(all: Bytes, sent: Bytes, k: nat, actions: seq<Action>, types: map<string, FieldType>, data: Data)
    requires Sending(all, sent, k, actions, types, data)
    ensures var chunk := ChunkAt(actions, k, types, data);
            if chunk == [] then all == sent else Sending(all, sent + chunk, k + 1, actions, types, data)
  {
    if k < |actions| {
      var chunk, more := Chunk(actions[k], types, data), Sent(actions, k + 1, types, data);
      assert sent + (chunk + more) == sent + chunk + more;
    }
    assert sent + [] == sent;
  }

  class Sender {
    const serializer: MessageSerializer
    const thenState: string
    var outputBuffer: Bytes
    var currentState: string

    constructor (serializer: MessageSerializer, thenState: string, state: string)
      ensures this.serializer == serializer && this.thenState == thenState
      ensures outputBuffer == [] && currentState == state
    {
      this.serializer, this.thenState := serializer, thenState;
      outputBuffer, currentState := [], state;
    }

    /** What is queued and what the serializer still has to give make up `all`. */
    ghost predicate OnTheWay(all: Bytes)
      reads this, serializer
    {
      && serializer.Valid() && serializer.hasData
      && (serializer.complete ==> serializer.stage >= |serializer.actions|)
      && Sending(all, outputBuffer, serializer.stage, serializer.actions, serializer.types, serializer.data)
    }

    /** The body of the send loop; false when it breaks off. */
    method SendChunk(ghost all: Bytes) returns (more: bool)
      requires OnTheWay(all) && !serializer.complete
      modifies this`outputBuffer, serializer
      ensures if more then OnTheWay(all) && old(serializer.stage) < serializer.stage <= |serializer.actions|
              else serializer.Valid() && outputBuffer == all
    {
      hide Sent, Chunk, Writable, WellTyped;
      ghost var k, actions, types, data, sent := serializer.stage, serializer.actions, serializer.types,
        serializer.data, outputBuffer;
      SendTurn(all, sent, k, actions, types, data);
      var chunk := serializer.NextChunk();
      more := chunk != [];
      if more {
        outputBuffer := outputBuffer + chunk;
        serializer.Advance();
        assert Sending(all, outputBuffer, k + 1, actions, types, data);
      }
    }

    method Send(data: Data)
      requires serializer.Valid() && WellTyped(serializer.types, data)
      modifies this, serializer
      ensures serializer.Valid()
      ensures outputBuffer == old(outputBuffer) + Sent(serializer.actions, 0, serializer.types, data)
      ensures currentState == thenState
    {
      ghost var all := outputBuffer + Sent(serializer.actions, 0, serializer.types, data);
      serializer.SetData(data);
      while !serializer.complete
        invariant OnTheWay(all)
        decreases !serializer.complete, |serializer.actions| - serializer.stage
      {
        var more := SendChunk(all);
        if !more {
          currentState := thenState;
          return;
        }
      }
      SendTurn(all, outputBuffer, serializer.stage, serializer.actions, serializer.types, serializer.data);
      currentState := thenState;
    }

    method BytesWritten(count: nat)
      modifies this`outputBuffer
      ensures outputBuffer == old(outputBuffer)[if count < |old(outputBuffer)| then count else |old(outputBuffer)|..]
    {
      if count >= |outputBuffer| {
        outputBuffer := [];
      } else {
        outputBuffer := outputBuffer[count..];
      }
    }
  }

  // ----- parser -----

  datatype Status = NeedMoreData | Complete | Error

  /** The actions the emitted parser handles outside loops. */
  predicate Reads(a: Action) {
    match a
    case ReadStaticOctets(_) => true
    case ReadOctetsUntilTerminator(t, _, e) => e.Some? ==> |t| > 0 && |e.value.sequence| > 0
    case _ => false
  }

  predicate Readable(actions: seq<Action>) {
    forall i :: 0 <= i < |actions| ==> Reads(actions[i])
  }

  /** One attempt at a field: the text it adds to the buffer and the octets it takes. */
  datatype Attempt = Attempt(found: bool, text: Bytes, taken: nat)

  function ReadField(input: Bytes, t: Bytes, e: Option<EscapeInfo>): (r: Attempt)
    requires e.Some? ==> |t| > 0 && |e.value.sequence| > 0
    ensures r.taken <= |input|
  {
    if e.None? then
      match Find(input, t, 0)
      case Some(pos) => Attempt(true, input[..pos], pos + |t|)
      case None => Attempt(false, input, |input|)
    else
      match Scan(input, t, e.value)
      case Some((text, taken)) => Attempt(true, text, taken)
      case None => Attempt(false, Kept(input, 0, [], t, e.value), |input|)
  }

  type Buffers = map<string, Bytes>

  function Append(buffers: Buffers, name: string, text: Bytes): Buffers {
    buffers[name := (if name in buffers then buffers[name] else []) + text]
  }

  datatype Progress = Progress(status: Status, consumed: nat, stage: nat, buffers: Buffers)

  /** One stage: the status to return with, if any, and the octets taken. */
  datatype Turn = Turn(status: Option<Status>, taken: nat, buffers: Buffers)

  function TurnOf(a: Action, rest: Bytes, buffers: Buffers): (r: Turn)
    requires Reads(a)
    ensures r.taken <= |rest| && r.status != Some(Complete)
  {
    match a
    case ReadStaticOctets(octets) =>
      if |rest| < |octets| then Turn(Some(NeedMoreData), 0, buffers)
      else if rest[..|octets|] != octets then Turn(Some(Error), 0, buffers)
      else Turn(None, |octets|, buffers)
    case ReadOctetsUntilTerminator(t, id, e) =>
      var r := ReadField(rest, t, e);
      Turn(if r.found then None else Some(NeedMoreData), r.taken, Append(buffers, id.name, r.text))
  }

  /** One call of `parse`, from stage `stage` with `pos` octets of `input` already taken. */
  function Parsing(actions: seq<Action>, stage: nat, input: Bytes, pos: nat, buffers: Buffers): Progress
    requires Readable(actions) && pos <= |input|
    decreases |actions| - stage
  {
    if stage >= |actions| then Progress(Complete, pos, stage, buffers)
    else
      var turn := TurnOf(actions[stage], input[pos..], buffers);
      if turn.status.None? then Parsing(actions, stage + 1, input, pos + turn.taken, turn.buffers)
      else Progress(turn.status.value, pos + turn.taken, stage, turn.buffers)
  }

  function Rest(input: Bytes, pos: nat): Bytes {
    if pos <= |input| then input[pos..] else []
  }

  /** The call that gives `all` goes on from here. */
  ghost predicate Continues(all: Progress, actions: seq<Action>, stage: nat, input: Bytes, pos: nat, buffers: Buffers) {
    Readable(actions) && pos <= |input| && all == Parsing(actions, stage, input, pos, buffers)
  }

  lemma ParseStage(all: Progress, actions: seq<Action>, stage: nat, input: Bytes, pos: nat, buffers: Buffers)
    requires Continues(all, actions, stage, input, pos, buffers) && stage < |actions|
    ensures Reads(actions[stage])
    ensures var rest := Rest(input, pos);
            var turn := TurnOf(actions[stage], rest, buffers);
            Rest(input, pos + turn.taken) == rest[turn.taken..]
            && if turn.status.None? then Continues(all, actions, stage + 1, input, pos + turn.taken, turn.buffers)
               else all == Progress(turn.status.value, pos + turn.taken, stage, turn.buffers)
                    && turn.status != Some(Complete)
  {
    hide TurnOf;
    LaterRest(input, pos, TurnOf(actions[stage], input[pos..], buffers).taken);
  }

  lemma LaterRest(input: Bytes, pos: nat, n: nat)
    requires pos + n <= |input|
    ensures Rest(input, pos) == input[pos..] && input[pos..][n..] == input[pos + n..] == Rest(input, pos + n)
  {}

  lemma ParseEnd(all: Progress, actions: seq<Action>, stage: nat, input: Bytes, pos: nat, buffers: Buffers)
    requires Continues(all, actions, stage, input, pos, buffers) && stage >= |actions|
    ensures all == Progress(Complete, pos, stage, buffers)
  {}

  /** What `take_data` puts into the message from action `k` on; `None` when a conversion throws. */
  function Taken(actions: seq<Action>, k: nat, types: map<string, FieldType>, buffers: Buffers,
                 data: Data): Option<Data>
    decreases |actions| - k
  {
    if k >= |actions| then Some(data)
    else match actions[k]
      case ReadOctetsUntilTerminator(_, id, _) =>
        var text := if id.name in buffers then buffers[id.name] else [];
        if id.name in types && types[id.name].Number? then
          match FromText(types[id.name].integer, text)
          case None => None
          case Some(n) => Taken(actions, k + 1, types, buffers, data[id.name := NumberValue(n)])
        else Taken(actions, k + 1, types, buffers[id.name := []], data[id.name := TextValue(text)])
      case _ => Taken(actions, k + 1, types, buffers, data)
  }

  class MessageParser {
    const actions: seq<Action>
    const types: map<string, FieldType>
    var complete: bool
    var eofReceived: bool
    var stage: nat
    var buffers: Buffers

    constructor (actions: seq<Action>, types: map<string, FieldType>)
      requires Readable(actions)
      ensures this.actions == actions && this.types == types
      ensures !complete && !eofReceived && stage == 0 && buffers == map[]
    {
      this.actions, this.types := actions, types;
      complete, eofReceived, stage, buffers := false, false, 0, map[];
    }

    method Reset()
      modifies this
      ensures !complete && !eofReceived && stage == 0 && buffers == map[]
    {
      complete, eofReceived, stage, buffers := false, false, 0, map[];
    }

    /** The search loop without escapes. */
    static method Search(input: Bytes, t: Bytes) returns (pos: nat, found: bool)
      ensures match Find(input, t, 0)
              case Some(p) => found && pos == p
              case None => !found
    {
      pos, found := 0, false;
      while pos + |t| <= |input|
        invariant Find(input, t, 0) == Find(input, t, pos)
        invariant !found
        decreases |input| - pos
      {
        if input[pos..pos + |t|] == t {
          found := true;
          return;
        }
        pos := pos + 1;
      }
    }

    /** One field, whichever way it ends. */
    static method Field(input: Bytes, t: Bytes, e: Option<EscapeInfo>) returns (r: Attempt)
      requires e.Some? ==> |t| > 0 && |e.value.sequence| > 0
      ensures r == ReadField(input, t, e)
    {
      if e.Some? {
        var text, taken, found := EmittedUntilTerminator(input, t, e.value);
        r := Attempt(found, text, taken);
      } else {
        var pos, found := Search(input, t);
        r := if found then Attempt(true, input[..pos], pos + |t|) else Attempt(false, input, |input|);
      }
    }

    /** The case of `parse` for the current stage; a status is returned at once. */
    method Stage(rest: Bytes, ghost all: Progress, ghost input: Bytes, ghost consumed: nat)
      returns (status: Option<Status>, taken: nat)
      requires stage < |actions| && Continues(all, actions, stage, input, consumed, buffers)
               && rest == Rest(input, consumed)
      modifies this`stage, this`buffers
      ensures taken <= |rest| && Rest(input, consumed + taken) == rest[taken..]
      ensures status.None? ==>
              stage == old(stage) + 1 && Continues(all, actions, stage, input, consumed + taken, buffers)
      ensures status.Some? ==>
              all == Progress(status.value, consumed + taken, stage, buffers) && status != Some(Complete)
    {
      ParseStage(all, actions, stage, input, consumed, buffers);
      hide Continues, Rest, Parsing, ReadField;
      match actions[stage]
      case ReadStaticOctets(octets) =>
        if |rest| < |octets| {
          return Some(NeedMoreData), 0;
        }
        if rest[..|octets|] != octets {
          return Some(Error), 0;
        }
        stage := stage + 1;
        return None, |octets|;
      case ReadOctetsUntilTerminator(t, id, e) =>
        var r := Field(rest, t, e);
        buffers := Append(buffers, id.name, r.text);
        if r.found {
          stage := stage + 1;
        }
        return if r.found then None else Some(NeedMoreData), r.taken;
    }

    method Parse(input: Bytes) returns (status: Status, consumed: nat)
      requires Readable(actions)
      modifies this
      ensures eofReceived == old(eofReceived)
      ensures Progress(status, consumed, stage, buffers)
              == if old(complete) then Progress(Complete, 0, old(stage), old(buffers))
                 else Parsing(actions, old(stage), input, 0, old(buffers))
      ensures complete == (status == Complete)
    {
      var rest := input;
      consumed := 0;
      ghost var all := if complete then Progress(Complete, 0, stage, buffers)
        else Parsing(actions, stage, input, 0, buffers);
      while !complete
        invariant rest == Rest(input, consumed) && eofReceived == old(eofReceived)
        invariant complete ==> all == Progress(Complete, consumed, stage, buffers)
        invariant !complete ==> Continues(all, actions, stage, input, consumed, buffers)
        decreases !complete, |actions| - stage
      {
        if stage >= |actions| {
          ParseEnd(all, actions, stage, input, consumed, buffers);
          complete := true;
        } else {
          var result, taken := Stage(rest, all, input, consumed);
          rest := rest[taken..];
          consumed := consumed + taken;
          if result.Some? {
            return result.value, consumed;
          }
        }
      }
      return Complete, consumed;
    }

    /** The parsed message, or nothing when a conversion throws; only then is the parser not reset. */
    method TakeData() returns (result: Option<Data>)
      modifies this
      ensures result == Taken(actions, 0, types, old(buffers), map[])
      ensures result.Some? ==> !complete && !eofReceived && stage == 0 && buffers == map[]
    {
      var data: Data := map[];
      for k := 0 to |actions|
        invariant Taken(actions, 0, types, old(buffers), map[]) == Taken(actions, k, types, buffers, data)
      {
        if actions[k].ReadOctetsUntilTerminator? {
          var name := actions[k].identifier.name;
          var text := if name in buffers then buffers[name] else [];
          if name in types && types[name].Number? {
            var n := FromText(types[name].integer, text);
            if n.None? {
              return None;
            }
            data := data[name := NumberValue(n.value)];
          } else {
            data := data[name := TextValue(text)];
            buffers := buffers[name := []];
          }
        }
      }
      Reset();
      return Some(data);
    }
  }
}
