/** What the emitted serializer sends, the emitted parser gives back. */
module RoundTrip {
  import opened Options
  import opened Octets
  import opened Escape
  import opened Integers
  import opened Translate
  import opened Emitted

  // ----- the send loop -----

  /** No chunk comes after an empty one, where the send loop stops. */
  ghost predicate NothingAfterEmpty(actions: seq<Action>, k: nat, types: map<string, FieldType>, data: Data)
    requires Writable(actions, types) && WellTyped(types, data)
  {
    forall i, j :: k <= i < j < |actions| && Chunk(actions[i], types, data) == [] ==>
      Chunk(actions[j], types, data) == []
  }

  /** An encoding is empty when all its chunks are. */
  lemma {:induction false} EmptyEncoding(actions: seq<Action>, types: map<string, FieldType>, data: Data)
    requires Writable(actions, types) && WellTyped(types, data)
    ensures Encoding(actions, types, data) == [] <==> forall i :: 0 <= i < |actions| ==>
            Chunk(actions[i], types, data) == []
    decreases |actions|
  {
    if actions != [] {
      EmptyEncoding(actions[1..], types, data);
      assert actions == [actions[0]] + actions[1..];
      assert forall i :: 0 <= i < |actions| - 1 ==> actions[1..][i] == actions[i + 1];
      if forall i :: 0 <= i < |actions| - 1 ==> Chunk(actions[1..][i], types, data) == [] {
        forall i | 1 <= i < |actions| ensures Chunk(actions[i], types, data) == [] {
          assert actions[1..][i - 1] == actions[i];
        }
      }
    }
  }

  lemma TailEmpty(actions: seq<Action>, k: nat, types: map<string, FieldType>, data: Data)
    requires Writable(actions, types) && WellTyped(types, data) && k <= |actions|
    ensures Encoding(actions[k..], types, data) == []
            <==> forall j :: k <= j < |actions| ==> Chunk(actions[j], types, data) == []
  {
    EmptyEncoding(actions[k..], types, data);
    assert forall j :: k <= j < |actions| ==> actions[j] == actions[k..][j - k];
    assert forall i :: 0 <= i < |actions| - k ==> actions[k..][i] == actions[k + i];
    if Encoding(actions[k..], types, data) == [] {
      forall j | k <= j < |actions| ensures Chunk(actions[j], types, data) == [] {
        assert actions[j] == actions[k..][j - k];
      }
    }
  }

  lemma NothingAfterFirst(actions: seq<Action>, k: nat, types: map<string, FieldType>, data: Data)
    requires Writable(actions, types) && WellTyped(types, data) && k < |actions|
    ensures NothingAfterEmpty(actions, k, types, data)
            <==> if Chunk(actions[k], types, data) == [] then Encoding(actions[k + 1..], types, data) == []
                 else NothingAfterEmpty(actions, k + 1, types, data)
  {
    TailEmpty(actions, k + 1, types, data);
  }

  lemma SameSent(chunk: Bytes, sent: Bytes, encoding: Bytes)
    ensures (if chunk == [] then [] else chunk + sent) == chunk + encoding
            <==> if chunk == [] then encoding == [] else sent == encoding
  {
    assert (chunk + sent)[|chunk|..] == sent && (chunk + encoding)[|chunk|..] == encoding;
  }

  lemma SentStep(actions: seq<Action>, k: nat, types: map<string, FieldType>, data: Data)
    requires Writable(actions, types) && WellTyped(types, data) && k < |actions|
    ensures Sent(actions, k, types, data) == Encoding(actions[k..], types, data)
            <==> if Chunk(actions[k], types, data) == [] then Encoding(actions[k + 1..], types, data) == []
                 else Sent(actions, k + 1, types, data) == Encoding(actions[k + 1..], types, data)
  {
    assert actions[k..][1..] == actions[k + 1..];
    SameSent(Chunk(actions[k], types, data), Sent(actions, k + 1, types, data),
             Encoding(actions[k + 1..], types, data));
  }

  /** The send loop appends the whole encoding exactly when nothing is left behind an empty chunk. */
  lemma {:induction false} SentIsEncoding(actions: seq<Action>, k: nat, types: map<string, FieldType>, data: Data)
    requires Writable(actions, types) && WellTyped(types, data) && k <= |actions|
    ensures Sent(actions, k, types, data) == Encoding(actions[k..], types, data)
            <==> NothingAfterEmpty(actions, k, types, data)
    decreases |actions| - k
  {
    if k < |actions| {
      SentIsEncoding(actions, k + 1, types, data);
      NothingAfterFirst(actions, k, types, data);
      SentStep(actions, k, types, data);
    }
  }

  // ----- one action -----

  /** Encoding and reading back one reader's action, with `following` behind it on the wire. */
  ghost predicate Clear(a: Action, types: map<string, FieldType>, data: Data, following: Bytes)
    requires WellTyped(types, data)
  {
    match a
    case ReadStaticOctets(octets) => 0 !in octets
    case ReadOctetsUntilTerminator(t, id, e) =>
      && id.name in types && 0 !in t
      && if e.None? then Find(Rendered(data[id.name]) + t, t, 0) == Some(|Rendered(data[id.name])|)
         else (exists k: nat :: Folding(t, e.value, k)) && !At(t + following, e.value.sequence, 0)
    case _ => false
  }

  lemma ClearReadsAndWrites(a: Action, types: map<string, FieldType>, data: Data, following: Bytes)
    requires WellTyped(types, data) && Clear(a, types, data, following)
    ensures Reads(a) && Writable(ExpandOne(a), types)
  {}

  lemma {:induction false} NoNul(octets: Bytes)
    requires 0 !in octets
    ensures CString(octets) == octets
    decreases |octets|
  {
    if octets != [] {
      NoNul(octets[1..]);
    }
  }

  /** Only what overlaps the value and the terminator decides where the terminator is found. */
  lemma FindBefore(v: Bytes, t: Bytes, following: Bytes)
    requires Find(v + t, t, 0) == Some(|v|)
    ensures Find(v + t + following, t, 0) == Some(|v|)
  {
    var w := v + t + following;
    assert w[|v|..|v| + |t|] == t;
    forall i | 0 <= i < |v| ensures !At(w, t, i) {
      assert !At(v + t, t, i);
      assert i + |t| <= |v + t|;
      assert w[i..i + |t|] == (v + t)[i..i + |t|];
    }
    FindIs(w, t, 0, |v|);
  }

  lemma FieldReadsBack(v: Bytes, t: Bytes, e: Option<EscapeInfo>, following: Bytes)
    requires if e.None? then Find(v + t, t, 0) == Some(|v|)
             else (exists k: nat :: Folding(t, e.value, k)) && !At(t + following, e.value.sequence, 0)
    ensures ReadField(OnWire(v, e) + t + following, t, e) == Attempt(true, v, |OnWire(v, e)| + |t|)
  {
    if e.None? {
      FindBefore(v, t, following);
      assert (v + t + following)[..|v|] == v;
    } else {
      var k: nat :| Folding(t, e.value, k);
      EscapeRoundTrip(v, t, e.value, k, following);
      var encoded := Escaped(v, e.value.character, e.value.sequence);
      assert encoded + (t + following) == encoded + t + following;
    }
  }

  lemma LiteralWire(octets: Bytes, types: map<string, FieldType>, data: Data)
    requires WellTyped(types, data) && 0 !in octets
    ensures Writable([WriteStaticOctets(octets)], types)
    ensures Encoding([WriteStaticOctets(octets)], types, data) == octets
  {
    NoNul(octets);
    var actions := [WriteStaticOctets(octets)];
    assert actions[1..] == [];
    assert Encoding(actions, types, data) == octets + [] == octets;
  }

  lemma FieldWire(t: Bytes, id: Identifier, e: Option<EscapeInfo>, types: map<string, FieldType>, data: Data)
    requires WellTyped(types, data) && 0 !in t && id.name in types && (e.Some? ==> |e.value.character| > 0)
    ensures Writable([WriteFromIdentifier(id, e), WriteStaticOctets(t)], types)
    ensures Encoding([WriteFromIdentifier(id, e), WriteStaticOctets(t)], types, data)
            == OnWire(Rendered(data[id.name]), e) + t
  {
    var actions := [WriteFromIdentifier(id, e), WriteStaticOctets(t)];
    assert actions[1..] == [WriteStaticOctets(t)];
    LiteralWire(t, types, data);
  }

  /** A clear action's own encoding is exactly what its stage takes. */
  lemma StageReadsBack(a: Action, types: map<string, FieldType>, data: Data, following: Bytes, buffers: Buffers)
    requires WellTyped(types, data) && Clear(a, types, data, following)
    ensures Reads(a) && Writable(ExpandOne(a), types)
    ensures var wire := Encoding(ExpandOne(a), types, data);
            TurnOf(a, wire + following, buffers) == Turn(None, |wire|, FilledBy(a, data, buffers))
  {
    match a
    case ReadStaticOctets(octets) =>
      LiteralWire(octets, types, data);
      assert (octets + following)[..|octets|] == octets;
    case ReadOctetsUntilTerminator(t, id, e) =>
      FieldWire(t, id, e, types, data);
      FieldReadsBack(Rendered(data[id.name]), t, e, following);
  }

  // ----- whole messages -----

  function FilledBy(a: Action, data: Data, buffers: Buffers): Buffers {
    if a.ReadOctetsUntilTerminator? && a.identifier.name in data
    then Append(buffers, a.identifier.name, Rendered(data[a.identifier.name])) else buffers
  }

  function Filled(actions: seq<Action>, k: nat, data: Data, buffers: Buffers): Buffers
    decreases |actions| - k
  {
    if k >= |actions| then buffers else Filled(actions, k + 1, data, FilledBy(actions[k], data, buffers))
  }

  lemma EncodingConcat(a: seq<Action>, b: seq<Action>, types: map<string, FieldType>, data: Data)
    requires Writable(a, types) && Writable(b, types) && WellTyped(types, data)
    ensures Writable(a + b, types)
    ensures Encoding(a + b, types, data) == Encoding(a, types, data) + Encoding(b, types, data)
    decreases |a|
  {
    if a == [] {
      assert a + b == b;
    } else {
      assert (a + b)[1..] == a[1..] + b;
      EncodingConcat(a[1..], b, types, data);
    }
  }

  /** The wire form of a reader's actions, followed by `rest`, is clear action by action. */
  ghost predicate AllClear(actions: seq<Action>, types: map<string, FieldType>, data: Data, rest: Bytes)
    requires WellTyped(types, data)
    decreases |actions|
  {
    actions != [] ==>
      && AllClear(actions[1..], types, data, rest)
      && Writable(Expand(actions[1..]), types)
      && Clear(actions[0], types, data, Encoding(Expand(actions[1..]), types, data) + rest)
  }

  lemma {:induction false} AllClearWrites(actions: seq<Action>, types: map<string, FieldType>, data: Data, rest: Bytes)
    requires WellTyped(types, data) && AllClear(actions, types, data, rest)
    ensures Readable(actions) && Writable(Expand(actions), types)
    ensures actions != [] ==>
              Writable(ExpandOne(actions[0]), types)
              && Encoding(Expand(actions), types, data)
                 == Encoding(ExpandOne(actions[0]), types, data) + Encoding(Expand(actions[1..]), types, data)
    decreases |actions|
  {
    if actions != [] {
      AllClearWrites(actions[1..], types, data, rest);
      ClearReadsAndWrites(actions[0], types, data, Encoding(Expand(actions[1..]), types, data) + rest);
      EncodingConcat(ExpandOne(actions[0]), Expand(actions[1..]), types, data);
      forall i | 0 <= i < |actions| ensures Reads(actions[i]) {
        assert i > 0 ==> actions[i] == actions[1..][i - 1];
      }
    }
  }

  /** A stage that found what it wanted leads to the next. */
  lemma StageDone(actions: seq<Action>, k: nat, input: Bytes, pos: nat, buffers: Buffers, taken: nat, next: Buffers)
    requires Readable(actions) && k < |actions| && pos <= |input|
    requires TurnOf(actions[k], input[pos..], buffers) == Turn(None, taken, next)
    ensures pos + taken <= |input|
    ensures Parsing(actions, k, input, pos, buffers) == Parsing(actions, k + 1, input, pos + taken, next)
  {
  }

  lemma Regroup(before: Bytes, first: Bytes, more: Bytes, rest: Bytes)
    ensures before + (first + more + rest) == before + first + (more + rest)
  {}

  lemma DropBefore(before: Bytes, first: Bytes, following: Bytes)
    ensures (before + first + following)[|before|..] == first + following
  {}

  lemma StagePasses(actions: seq<Action>, k: nat, before: Bytes, types: map<string, FieldType>,
                    data: Data, following: Bytes, buffers: Buffers)
    requires WellTyped(types, data) && k < |actions| && Readable(actions)
    requires Clear(actions[k], types, data, following)
    ensures Writable(ExpandOne(actions[k]), types)
    ensures var first := Encoding(ExpandOne(actions[k]), types, data);
            Parsing(actions, k, before + first + following, |before|, buffers)
            == Parsing(actions, k + 1, before + first + following, |before + first|,
                       FilledBy(actions[k], data, buffers))
  {
    hide Parsing, TurnOf, FilledBy, Encoding, Clear, ExpandOne, WellTyped;
    StageReadsBack(actions[k], types, data, following, buffers);
    var first := Encoding(ExpandOne(actions[k]), types, data);
    var input := before + first + following;
    DropBefore(before, first, following);
    StageDone(actions, k, input, |before|, buffers, |first|, FilledBy(actions[k], data, buffers));
  }

  /** The parser, `|before|` octets into its input, takes exactly the encoding of the stages left. */
  lemma {:induction false} ParsesEncoding(actions: seq<Action>, k: nat, before: Bytes, types: map<string, FieldType>,
                                          data: Data, rest: Bytes, buffers: Buffers)
    requires WellTyped(types, data) && k <= |actions| && Readable(actions)
    requires AllClear(actions[k..], types, data, rest) && Writable(Expand(actions[k..]), types)
    ensures var wire := Encoding(Expand(actions[k..]), types, data);
            Parsing(actions, k, before + (wire + rest), |before|, buffers)
            == Progress(Complete, |before| + |wire|, |actions|, Filled(actions, k, data, buffers))
    decreases |actions| - k
  {
    if k < |actions| {
      var tail := actions[k + 1..];
      assert actions[k..][0] == actions[k] && actions[k..][1..] == tail;
      AllClearWrites(actions[k..], types, data, rest);
      AllClearWrites(tail, types, data, rest);
      var first, more := Encoding(ExpandOne(actions[k]), types, data), Encoding(Expand(tail), types, data);
      StagePasses(actions, k, before, types, data, more + rest, buffers);
      Regroup(before, first, more, rest);
      ParsesEncoding(actions, k + 1, before + first, types, data, rest, FilledBy(actions[k], data, buffers));
    }
  }

  // ----- the fields -----

  predicate IsField(actions: seq<Action>, i: nat) {
    i < |actions| && actions[i].ReadOctetsUntilTerminator?
  }

  function NameOf(actions: seq<Action>, i: nat): string
    requires IsField(actions, i)
  {
    actions[i].identifier.name
  }

  ghost predicate Distinct(actions: seq<Action>) {
    forall i, j :: i < j && IsField(actions, i) && IsField(actions, j) ==> NameOf(actions, i) != NameOf(actions, j)
  }

  /** The names of the fields read from action `k` on. */
  function FieldNames(actions: seq<Action>, k: nat): (names: set<string>)
    ensures forall i :: k <= i && IsField(actions, i) ==> NameOf(actions, i) in names
    ensures forall name :: name in names ==> exists i :: k <= i && IsField(actions, i) && NameOf(actions, i) == name
    decreases |actions| - k
  {
    if k >= |actions| then {}
    else if IsField(actions, k) then {NameOf(actions, k)} + FieldNames(actions, k + 1)
    else FieldNames(actions, k + 1)
  }

  /** Each field's buffer ends up with that field's text, and no other buffer changes. */
  lemma {:induction false} FieldsFilled(actions: seq<Action>, k: nat, data: Data, buffers: Buffers)
    requires Distinct(actions) && FieldNames(actions, k) <= data.Keys && FieldNames(actions, k) !! buffers.Keys
    ensures var all := Filled(actions, k, data, buffers);
            (forall name :: name in FieldNames(actions, k) ==> name in all && all[name] == Rendered(data[name]))
            && (forall name :: name in buffers ==> name in all && all[name] == buffers[name])
    decreases |actions| - k
  {
    if k < |actions| {
      var next := FilledBy(actions[k], data, buffers);
      if IsField(actions, k) {
        var name := NameOf(actions, k);
        assert name !in FieldNames(actions, k + 1);
        assert next == buffers[name := [] + Rendered(data[name])];
        assert [] + Rendered(data[name]) == Rendered(data[name]);
      }
      assert forall name :: name in buffers ==> name in next && next[name] == buffers[name];
      FieldsFilled(actions, k + 1, data, next);
    }
  }

  function Restricted(data: Data, names: set<string>): Data {
    map name | name in names && name in data :: data[name]
  }

  lemma FieldTaken(actions: seq<Action>, k: nat, types: map<string, FieldType>, buffers: Buffers, data: Data, got: Data)
    requires IsField(actions, k) && WellTyped(types, data) && NameOf(actions, k) in data
    requires NameOf(actions, k) in buffers && buffers[NameOf(actions, k)] == Rendered(data[NameOf(actions, k)])
    ensures var name := NameOf(actions, k);
            var left := if types[name].Number? then buffers else buffers[name := []];
            Taken(actions, k, types, buffers, got) == Taken(actions, k + 1, types, left, got[name := data[name]])
  {
    var name := NameOf(actions, k);
    assert Holds(types[name], data[name]);
    if types[name].Number? {
      IntegerRoundTrip(types[name].integer, data[name].number);
    }
  }

  lemma RestrictedStep(data: Data, got: Data, name: string, names: set<string>)
    requires name in data
    ensures got[name := data[name]] + Restricted(data, names) == got + Restricted(data, {name} + names)
  {}

  /** `take_data` turns those buffers back into the fields. */
  lemma {:induction false} FieldsTaken(actions: seq<Action>, k: nat, types: map<string, FieldType>, buffers: Buffers,
                                       data: Data, got: Data)
    requires Distinct(actions) && WellTyped(types, data) && FieldNames(actions, k) <= data.Keys
    requires forall name :: name in FieldNames(actions, k) ==> name in buffers && buffers[name] == Rendered(data[name])
    ensures Taken(actions, k, types, buffers, got) == Some(got + Restricted(data, FieldNames(actions, k)))
    decreases |actions| - k
  {
    if k >= |actions| {
      assert got + Restricted(data, {}) == got;
    } else if IsField(actions, k) {
      var name := NameOf(actions, k);
      assert name !in FieldNames(actions, k + 1);
      FieldTaken(actions, k, types, buffers, data, got);
      var left := if types[name].Number? then buffers else buffers[name := []];
      FieldsTaken(actions, k + 1, types, left, data, got[name := data[name]]);
      RestrictedStep(data, got, name, FieldNames(actions, k + 1));
    } else {
      FieldsTaken(actions, k + 1, types, buffers, data, got);
    }
  }

  /**
   Round trip through the emitted code: run once on the encoding and anything
   behind it, the parser completes, takes exactly the encoding, and hands back
   every field it reads.
   */
  lemma MessageRoundTrip(actions: seq<Action>, types: map<string, FieldType>, data: Data, rest: Bytes)
    requires WellTyped(types, data) && Distinct(actions) && FieldNames(actions, 0) <= types.Keys
    requires AllClear(actions, types, data, rest)
    ensures Readable(actions) && Writable(Expand(actions), types)
    ensures var wire := Encoding(Expand(actions), types, data);
            var p := Parsing(actions, 0, wire + rest, 0, map[]);
            && p.status == Complete && p.consumed == |wire|
            && Taken(actions, 0, types, p.buffers, map[]) == Some(Restricted(data, FieldNames(actions, 0)))
  {
    hide AllClear, Encoding, Taken, Parsing, FieldNames, Distinct, Filled;
    AllClearWrites(actions, types, data, rest);
    assert actions[0..] == actions;
    var wire := Encoding(Expand(actions), types, data);
    ParsesEncoding(actions, 0, [], types, data, rest, map[]);
    assert [] + (wire + rest) == wire + rest;
    FieldsFilled(actions, 0, data, map[]);
    FieldsTaken(actions, 0, types, Filled(actions, 0, data, map[]), data, map[]);
    assert map[] + Restricted(data, FieldNames(actions, 0)) == Restricted(data, FieldNames(actions, 0));
  }

  /** The same, from the description: what one side's send loop appends, the other side's parser takes. */
  lemma DescriptionRoundTrip(parts: seq<MessagePart>, types: map<string, FieldType>, data: Data, rest: Bytes)
    requires ReadActions(parts).Some? && WriteActions(parts).Some?
    requires WellTyped(types, data) && Distinct(ReadActions(parts).value)
    requires FieldNames(ReadActions(parts).value, 0) == types.Keys
    requires AllClear(ReadActions(parts).value, types, data, rest)
    requires Writable(WriteActions(parts).value, types) && NothingAfterEmpty(WriteActions(parts).value, 0, types, data)
    ensures Readable(ReadActions(parts).value)
    ensures var sent := Sent(WriteActions(parts).value, 0, types, data);
            var p := Parsing(ReadActions(parts).value, 0, sent + rest, 0, map[]);
            && p.status == Complete && p.consumed == |sent|
            && Taken(ReadActions(parts).value, 0, types, p.buffers, map[]) == Some(data)
  {
    var read, write := ReadActions(parts).value, WriteActions(parts).value;
    ReadWriteDual(parts);
    SentIsEncoding(write, 0, types, data);
    assert write[0..] == write;
    MessageRoundTrip(read, types, data, rest);
    assert Restricted(data, FieldNames(read, 0)) == data;
  }
}
