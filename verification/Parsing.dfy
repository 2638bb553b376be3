/** How one call of the emitted parser ends, said of the octets it was given. */
module Parsing {
  import opened Options
  import opened Octets
  import opened Translate
  import E = Emitted
  import Reading
  import RoundTrip

  /** Literals and fields without escapes. */
  predicate Plain(actions: seq<Action>) {
    E.Readable(actions) && forall i :: 0 <= i < |actions| && actions[i].ReadOctetsUntilTerminator? ==>
      actions[i].escape.None?
  }

  /** The piece is what the action reads: its literal, or a text up to and with its first terminator. */
  predicate Piece(a: Action, piece: Bytes) {
    match a
    case ReadStaticOctets(octets) => piece == octets
    case ReadOctetsUntilTerminator(t, _, _) => |t| <= |piece| && Find(piece, t, 0) == Some(|piece| - |t|)
    case _ => false
  }

  /** The octets cannot be a piece of the action, whatever follows; or they are not yet one. */
  predicate Wrong(a: Action, more: Bytes) {
    a.ReadStaticOctets? && |a.octets| <= |more| && !(a.octets <= more)
  }

  predicate Short(a: Action, more: Bytes) {
    match a
    case ReadStaticOctets(octets) => |more| < |octets|
    case ReadOctetsUntilTerminator(t, _, _) => Find(more, t, 0).None?
    case _ => false
  }

  ghost predicate Pieces(actions: seq<Action>, k: nat, pieces: seq<Bytes>) {
    k + |pieces| <= |actions| && forall i :: 0 <= i < |pieces| ==> Piece(actions[k + i], pieces[i])
  }

  /**
   The call has gone on for some whole pieces, and ended because they were all, because
   what follows is wrong, or because it is too short; it takes the pieces, and what is
   too short for a field as well.
   */
  ghost predicate Ended(p: E.Progress, actions: seq<Action>, k: nat, rest: Bytes, pos: nat, pieces: seq<Bytes>) {
    && Pieces(actions, k, pieces) && p.stage == k + |pieces| && Concat(pieces) <= rest
    && var more := rest[|Concat(pieces)|..];
    match p.status
    case Complete => p.stage == |actions| && p.consumed == pos + |Concat(pieces)|
    case Error => p.stage < |actions| && Wrong(actions[p.stage], more) && p.consumed == pos + |Concat(pieces)|
    case NeedMoreData =>
      p.stage < |actions| && Short(actions[p.stage], more)
      && p.consumed == pos + |Concat(pieces)| + if actions[p.stage].ReadStaticOctets? then 0 else |more|
  }

  lemma AtPrefix(piece: Bytes, rest: Bytes, t: Bytes, i: nat)
    requires piece <= rest && i + |t| <= |piece|
    ensures At(piece, t, i) <==> At(rest, t, i)
  {
    assert piece[i..i + |t|] == rest[i..i + |t|];
  }

  lemma PieceFound(t: Bytes, rest: Bytes, piece: Bytes, p: nat)
    requires Find(rest, t, 0) == Some(p) && piece <= rest && |piece| == p + |t|
    ensures Find(piece, t, 0) == Some(p)
  {
    hide At, Find;
    AtPrefix(piece, rest, t, p);
    forall i | 0 <= i < p ensures !At(piece, t, i) {
      AtPrefix(piece, rest, t, i);
    }
    FindIs(piece, t, 0, p);
  }

  lemma OneMorePiece(piece: Bytes, pieces: seq<Bytes>, rest: Bytes)
    requires piece <= rest && Concat(pieces) <= rest[|piece|..]
    ensures Concat([piece] + pieces) == piece + Concat(pieces) && Concat([piece] + pieces) <= rest
    ensures rest[|Concat([piece] + pieces)|..] == rest[|piece|..][|Concat(pieces)|..]
  {
    assert ([piece] + pieces)[1..] == pieces;
    assert rest == piece + rest[|piece|..];
  }

  lemma PiecesOn(actions: seq<Action>, k: nat, piece: Bytes, pieces: seq<Bytes>)
    requires k < |actions| && Piece(actions[k], piece) && Pieces(actions, k + 1, pieces)
    ensures Pieces(actions, k, [piece] + pieces)
  {
    var all := [piece] + pieces;
    forall i | 0 <= i < |all| ensures Piece(actions[k + i], all[i]) {
      if i > 0 { assert Piece(actions[k + 1 + (i - 1)], pieces[i - 1]); }
    }
  }

  /** One stage that found its piece. */
  lemma StageFound(a: Action, rest: Bytes, buffers: E.Buffers)
    requires E.Reads(a) && (a.ReadOctetsUntilTerminator? ==> a.escape.None?)
    ensures var turn := E.TurnOf(a, rest, buffers);
            match turn.status
            case None => turn.taken <= |rest| && Piece(a, rest[..turn.taken])
            case Some(Error) => Wrong(a, rest) && turn.taken == 0
            case Some(NeedMoreData) => Short(a, rest) && turn.taken == if a.ReadStaticOctets? then 0 else |rest|
            case Some(Complete) => false
  {
    if a.ReadOctetsUntilTerminator? && Find(rest, a.terminator, 0).Some? {
      var p := Find(rest, a.terminator, 0).value;
      PieceFound(a.terminator, rest, rest[..p + |a.terminator|], p);
    }
  }

  /** What the later stages come to, behind a piece. */
  lemma EndsBehind(p: E.Progress, actions: seq<Action>, k: nat, rest: Bytes, pos: nat, taken: nat,
                   pieces: seq<Bytes>)
    requires k < |actions| && taken <= |rest| && Piece(actions[k], rest[..taken])
    requires Ended(p, actions, k + 1, rest[taken..], pos + taken, pieces)
    ensures Ended(p, actions, k, rest, pos, [rest[..taken]] + pieces)
  {
    hide Piece, Wrong, Short, Pieces, Concat;
    var piece := rest[..taken];
    OneMorePiece(piece, pieces, rest);
    PiecesOn(actions, k, piece, pieces);
  }

  /** Every call ends in one of these ways. */
  lemma {:induction false} ParseEnds(actions: seq<Action>, k: nat, input: Bytes, pos: nat, buffers: E.Buffers)
    returns (pieces: seq<Bytes>)
    requires Plain(actions) && k <= |actions| && pos <= |input|
    ensures Ended(E.Parsing(actions, k, input, pos, buffers), actions, k, input[pos..], pos, pieces)
    decreases |actions| - k
  {
    hide Piece, Wrong, Short, E.TurnOf, Concat;
    pieces := [];
    var rest := input[pos..];
    NoPieces(rest);
    if k < |actions| {
      var turn := E.TurnOf(actions[k], rest, buffers);
      StageFound(actions[k], rest, buffers);
      if turn.status.None? {
        var later := ParseEnds(actions, k + 1, input, pos + turn.taken, turn.buffers);
        assert input[pos + turn.taken..] == rest[turn.taken..];
        EndsBehind(E.Parsing(actions, k, input, pos, buffers), actions, k, rest, pos, turn.taken, later);
        pieces := [rest[..turn.taken]] + later;
      }
    }
  }

  lemma NoPieces(rest: Bytes)
    ensures Concat([]) == [] && rest[|Concat([])|..] == rest && Concat([]) <= rest
  {}

  // ----- input in two parts -----

  /** The same progress, with more octets before. */
  function Shifted(p: E.Progress, n: nat): E.Progress {
    p.(consumed := n + p.consumed)
  }

  /** A call looks only at what is left of its input. */
  lemma {:induction false} ParseShift(actions: seq<Action>, k: nat, input: Bytes, pos: nat, buffers: E.Buffers)
    requires E.Readable(actions) && pos <= |input|
    ensures E.Parsing(actions, k, input, pos, buffers) == Shifted(E.Parsing(actions, k, input[pos..], 0, buffers), pos)
    decreases |actions| - k
  {
    hide E.TurnOf;
    var rest := input[pos..];
    assert rest[0..] == rest;
    if k < |actions| {
      var turn := E.TurnOf(actions[k], rest, buffers);
      if turn.status.None? {
        assert input[pos + turn.taken..] == rest[turn.taken..];
        ParseShift(actions, k + 1, input, pos + turn.taken, turn.buffers);
        ParseShift(actions, k + 1, rest, turn.taken, turn.buffers);
      }
    }
  }

  /** One stage, and the rest on what it left. */
  lemma ParseStep(actions: seq<Action>, k: nat, input: Bytes, buffers: E.Buffers)
    requires E.Readable(actions) && k < |actions|
    ensures var turn := E.TurnOf(actions[k], input, buffers);
            E.Parsing(actions, k, input, 0, buffers)
            == if turn.status.None?
               then Shifted(E.Parsing(actions, k + 1, input[turn.taken..], 0, turn.buffers), turn.taken)
               else E.Progress(turn.status.value, turn.taken, k, turn.buffers)
  {
    hide E.TurnOf;
    assert input[0..] == input;
    var turn := E.TurnOf(actions[k], input, buffers);
    if turn.status.None? {
      ParseShift(actions, k + 1, input, turn.taken, turn.buffers);
    }
  }

  /** Where the stage that ends the call begins. */
  function Start(actions: seq<Action>, k: nat, input: Bytes, buffers: E.Buffers): nat
    requires E.Readable(actions)
    decreases |actions| - k
  {
    if k >= |actions| then 0
    else
      var turn := E.TurnOf(actions[k], input, buffers);
      if turn.status.None? then turn.taken + Start(actions, k + 1, input[turn.taken..], turn.buffers) else 0
  }

  /** A terminator of the field begins in `m` and ends behind it. */
  predicate Cut(a: Action, m: Bytes, b: Bytes) {
    && a.ReadOctetsUntilTerminator?
    && match Find(m + b, a.terminator, 0) case Some(p) => p < |m| case None => false
  }

  /** A second call, on what the first did not take and `b` behind it. */
  function SecondCall(actions: seq<Action>, p: E.Progress, a: Bytes, b: Bytes): E.Progress
    requires E.Readable(actions) && p.consumed <= |a|
  {
    Shifted(E.Parsing(actions, p.stage, a[p.consumed..] + b, 0, p.buffers), p.consumed)
  }

  /** More octets do not change a stage that found its piece. */
  lemma FoundStays(a: Action, input: Bytes, more: Bytes, buffers: E.Buffers)
    requires E.Reads(a) && (a.ReadOctetsUntilTerminator? ==> a.escape.None?)
    requires input <= more && E.TurnOf(a, input, buffers).status.None?
    ensures E.TurnOf(a, more, buffers) == E.TurnOf(a, input, buffers)
  {
    match a
    case ReadStaticOctets(octets) =>
      assert more[..|octets|] == input[..|octets|];
    case ReadOctetsUntilTerminator(t, _, _) =>
      Reading.FindExtends(input, more, t);
  }

  lemma AppendTwice(buffers: E.Buffers, name: string, x: Bytes, y: Bytes)
    ensures E.Append(E.Append(buffers, name, x), name, y) == E.Append(buffers, name, x + y)
  {
    var old_ := if name in buffers then buffers[name] else [];
    assert old_ + x + y == old_ + (x + y);
  }

  /** A terminator behind the first part is found in the second. */
  lemma FoundBehind(t: Bytes, m: Bytes, b: Bytes)
    requires Find(m, t, 0).None? && (Find(m + b, t, 0).Some? ==> Find(m + b, t, 0).value >= |m|)
    ensures Find(b, t, 0) == match Find(m + b, t, 0) case Some(p) => Some(p - |m|) case None => None
  {
    hide Find;
    var all := m + b;
    forall i: nat ensures At(b, t, i) <==> At(all, t, |m| + i) {
      assert i + |t| <= |b| ==> all[|m| + i..|m| + i + |t|] == b[i..i + |t|];
    }
    match Find(all, t, 0)
    case Some(p) =>
      FindIs(b, t, 0, p - |m|);
    case None =>
      NotFound(b, t);
  }

  lemma NotFound(b: Bytes, t: Bytes)
    requires forall i: nat :: !At(b, t, i)
    ensures Find(b, t, 0).None?
  {}

  lemma Behind(m: Bytes, b: Bytes, p: nat, n: nat)
    requires |m| <= p && p + n <= |m| + |b|
    ensures (m + b)[..p] == m + b[..p - |m|] && (m + b)[p + n..] == b[p - |m| + n..]
  {}

  /** A field that begins in the first part, when no terminator is cut. */
  lemma FieldResumes(actions: seq<Action>, k: nat, m: Bytes, b: Bytes, buffers: E.Buffers)
    requires Plain(actions) && k < |actions| && actions[k].ReadOctetsUntilTerminator?
    requires Find(m, actions[k].terminator, 0).None? && !Cut(actions[k], m, b)
    ensures var name := actions[k].identifier.name;
            E.Parsing(actions, k, m + b, 0, buffers)
            == Shifted(E.Parsing(actions, k, b, 0, E.Append(buffers, name, m)), |m|)
  {
    hide Find, At, E.Append, E.Parsing;
    var name, t, all := actions[k].identifier.name, actions[k].terminator, m + b;
    FoundBehind(t, m, b);
    ParseStep(actions, k, all, buffers);
    ParseStep(actions, k, b, E.Append(buffers, name, m));
    match Find(all, t, 0)
    case Some(p) =>
      Behind(m, b, p, |t|);
      AppendTwice(buffers, name, m, b[..p - |m|]);
    case None =>
      AppendTwice(buffers, name, m, b);
  }

  /**
   Input in two parts: when a call has asked for more, a second call on what it left
   and what has come since gets as far as one call on all of it, with the same
   fields, if the terminator of the field at hand was not cut in two.
   */
  lemma {:induction false} ParseResumes(actions: seq<Action>, k: nat, a: Bytes, b: Bytes, buffers: E.Buffers)
    requires Plain(actions) && E.Parsing(actions, k, a, 0, buffers).status.NeedMoreData?
    requires var p := E.Parsing(actions, k, a, 0, buffers);
             p.stage < |actions| && p.consumed <= |a| && Start(actions, k, a, buffers) <= |a|
             && !Cut(actions[p.stage], a[Start(actions, k, a, buffers)..], b)
    ensures E.Parsing(actions, k, a + b, 0, buffers)
         == SecondCall(actions, E.Parsing(actions, k, a, 0, buffers), a, b)
    decreases |actions| - k
  {
    hide E.TurnOf, Cut, Plain, E.Append;
    assert E.Readable(actions) && (k < |actions| && actions[k].ReadOctetsUntilTerminator? ==> actions[k].escape.None?)
      by { PlainAt(actions, k); }
    if k < |actions| {
      var turn := E.TurnOf(actions[k], a, buffers);
      ParseStep(actions, k, a, buffers);
      ParseStep(actions, k, a + b, buffers);
      if turn.status.None? {
        FoundStays(actions[k], a, a + b, buffers);
        assert (a + b)[turn.taken..] == a[turn.taken..] + b;
        var later := E.Parsing(actions, k + 1, a[turn.taken..], 0, turn.buffers);
        StartLater(a, turn.taken, Start(actions, k + 1, a[turn.taken..], turn.buffers), later.consumed);
        ParseResumes(actions, k + 1, a[turn.taken..], b, turn.buffers);
      } else {
        StoppedHere(actions, k, a, b, buffers);
      }
    }
  }

  lemma PlainAt(actions: seq<Action>, k: nat)
    requires Plain(actions)
    ensures E.Readable(actions)
    ensures k < |actions| && actions[k].ReadOctetsUntilTerminator? ==> actions[k].escape.None?
  {}

  lemma StartLater(a: Bytes, taken: nat, start: nat, consumed: nat)
    requires taken <= |a| && taken + start <= |a| && taken + consumed <= |a|
    ensures a[taken..][start..] == a[taken + start..] && a[taken..][consumed..] == a[taken + consumed..]
  {}

  /** The stage that asked for more. */
  lemma StoppedHere(actions: seq<Action>, k: nat, a: Bytes, b: Bytes, buffers: E.Buffers)
    requires Plain(actions) && k < |actions| && E.TurnOf(actions[k], a, buffers).status == Some(E.NeedMoreData)
    requires !Cut(actions[k], a, b)
    ensures var turn := E.TurnOf(actions[k], a, buffers);
            && turn.taken <= |a|
            && E.Parsing(actions, k, a + b, 0, buffers)
               == Shifted(E.Parsing(actions, k, a[turn.taken..] + b, 0, turn.buffers), turn.taken)
    ensures a[0..] == a
  {
    hide Cut, E.Append, E.Parsing;
    if actions[k].ReadOctetsUntilTerminator? {
      FieldResumes(actions, k, a, b, buffers);
      assert a[|a|..] + b == b;
    }
  }

  // ----- a terminator cut in two -----

  function Held(buffers: E.Buffers, name: string): Bytes {
    if name in buffers then buffers[name] else []
  }

  /** No field from stage `k` on has the name. */
  predicate Absent(actions: seq<Action>, k: nat, name: string) {
    forall i :: k <= i < |actions| && actions[i].ReadOctetsUntilTerminator? ==> actions[i].identifier.name != name
  }

  lemma {:induction false} LaterKeeps(actions: seq<Action>, k: nat, input: Bytes, buffers: E.Buffers, name: string)
    requires E.Readable(actions) && Absent(actions, k, name)
    ensures Held(E.Parsing(actions, k, input, 0, buffers).buffers, name) == Held(buffers, name)
    decreases |actions| - k
  {
    if k < |actions| {
      TurnKeeps(actions[k], input, buffers, name);
      hide E.TurnOf, Held, E.Parsing;
      ParseStep(actions, k, input, buffers);
      var turn := E.TurnOf(actions[k], input, buffers);
      if turn.status.None? {
        LaterKeeps(actions, k + 1, input[turn.taken..], turn.buffers, name);
      }
    }
  }

  lemma TurnKeeps(a: Action, input: Bytes, buffers: E.Buffers, name: string)
    requires E.Reads(a) && (a.ReadOctetsUntilTerminator? ==> a.identifier.name != name)
    ensures Held(E.TurnOf(a, input, buffers).buffers, name) == Held(buffers, name)
  {
    hide E.ReadField;
  }

  /** What a field's buffer holds in the end is what it held and the text of its stage. */
  lemma FieldHolds(actions: seq<Action>, k: nat, input: Bytes, buffers: E.Buffers)
    requires Plain(actions) && k < |actions| && actions[k].ReadOctetsUntilTerminator?
    requires Absent(actions, k + 1, actions[k].identifier.name)
    ensures var name := actions[k].identifier.name;
            Held(E.Parsing(actions, k, input, 0, buffers).buffers, name)
            == Held(buffers, name) + E.ReadField(input, actions[k].terminator, None).text
  {
    hide E.Parsing, Find;
    var name := actions[k].identifier.name;
    ParseStep(actions, k, input, buffers);
    var turn := E.TurnOf(actions[k], input, buffers);
    if turn.status.None? {
      LaterKeeps(actions, k + 1, input[turn.taken..], turn.buffers, name);
    }
  }

  /** A cut terminator: the one call finds it, and the two calls keep more octets in the field. */
  lemma FieldLoses(actions: seq<Action>, k: nat, m: Bytes, b: Bytes, buffers: E.Buffers)
    requires Plain(actions) && k < |actions| && actions[k].ReadOctetsUntilTerminator?
    requires Absent(actions, k + 1, actions[k].identifier.name) && Cut(actions[k], m, b)
    ensures E.Parsing(actions, k, m + b, 0, buffers)
         != Shifted(E.Parsing(actions, k, b, 0, E.Append(buffers, actions[k].identifier.name, m)), |m|)
  {
    hide E.Parsing, Find;
    var name, t := actions[k].identifier.name, actions[k].terminator;
    FieldHolds(actions, k, m + b, buffers);
    FieldHolds(actions, k, b, E.Append(buffers, name, m));
    assert |Held(E.Append(buffers, name, m), name)| == |Held(buffers, name)| + |m|;
  }

  /** So when a terminator is cut, the two calls do not get what the one call gets. */
  lemma {:induction false} CutLoses(actions: seq<Action>, k: nat, a: Bytes, b: Bytes, buffers: E.Buffers)
    requires Plain(actions) && RoundTrip.Distinct(actions)
    requires E.Parsing(actions, k, a, 0, buffers).status.NeedMoreData?
    requires var p := E.Parsing(actions, k, a, 0, buffers);
             p.stage < |actions| && p.consumed <= |a| && Start(actions, k, a, buffers) <= |a|
             && Cut(actions[p.stage], a[Start(actions, k, a, buffers)..], b)
    ensures E.Parsing(actions, k, a + b, 0, buffers)
         != SecondCall(actions, E.Parsing(actions, k, a, 0, buffers), a, b)
    decreases |actions| - k
  {
    hide E.TurnOf, Cut, Plain, E.Append, RoundTrip.Distinct;
    PlainAt(actions, k);
    if k < |actions| {
      var turn := E.TurnOf(actions[k], a, buffers);
      ParseStep(actions, k, a, buffers);
      ParseStep(actions, k, a + b, buffers);
      if turn.status.None? {
        FoundStays(actions[k], a, a + b, buffers);
        assert (a + b)[turn.taken..] == a[turn.taken..] + b;
        var later := E.Parsing(actions, k + 1, a[turn.taken..], 0, turn.buffers);
        StartLater(a, turn.taken, Start(actions, k + 1, a[turn.taken..], turn.buffers), later.consumed);
        CutLoses(actions, k + 1, a[turn.taken..], b, turn.buffers);
      } else {
        LostHere(actions, k, a, b, buffers);
      }
    }
  }

  lemma LostHere(actions: seq<Action>, k: nat, a: Bytes, b: Bytes, buffers: E.Buffers)
    requires Plain(actions) && RoundTrip.Distinct(actions) && k < |actions|
    requires E.TurnOf(actions[k], a, buffers).status == Some(E.NeedMoreData) && Cut(actions[k], a, b)
    ensures var turn := E.TurnOf(actions[k], a, buffers);
            && turn.taken <= |a|
            && E.Parsing(actions, k, a + b, 0, buffers)
               != Shifted(E.Parsing(actions, k, a[turn.taken..] + b, 0, turn.buffers), turn.taken)
    ensures a[0..] == a
  {
    AbsentLater(actions, k);
    hide E.Parsing, Find, RoundTrip.Distinct, Absent;
    FieldLoses(actions, k, a, b, buffers);
    assert a[|a|..] + b == b;
  }

  lemma AbsentLater(actions: seq<Action>, k: nat)
    requires RoundTrip.Distinct(actions) && k < |actions| && actions[k].ReadOctetsUntilTerminator?
    ensures Absent(actions, k + 1, actions[k].identifier.name)
  {
    forall i | k < i < |actions| && actions[i].ReadOctetsUntilTerminator?
      ensures actions[i].identifier.name != actions[k].identifier.name
    {
      assert RoundTrip.IsField(actions, k) && RoundTrip.IsField(actions, i);
      assert RoundTrip.NameOf(actions, k) != RoundTrip.NameOf(actions, i);
    }
  }

  lemma {:induction false} StartWithin(actions: seq<Action>, k: nat, a: Bytes, buffers: E.Buffers)
    requires Plain(actions) && k <= |actions|
    ensures var p := E.Parsing(actions, k, a, 0, buffers);
            p.consumed <= |a| && Start(actions, k, a, buffers) <= |a|
            && (!p.status.Complete? ==> p.stage < |actions|)
    decreases |actions| - k
  {
    hide E.TurnOf, Plain;
    PlainAt(actions, k);
    if k < |actions| {
      var turn := E.TurnOf(actions[k], a, buffers);
      ParseStep(actions, k, a, buffers);
      if turn.status.None? { StartWithin(actions, k + 1, a[turn.taken..], turn.buffers); }
    }
  }

  /**
   The emitted parser on input in two parts, for messages without escapes and with
   distinct fields: a second call gets exactly what one call on all of it gets if and
   only if the terminator of the field at hand does not begin in the first part and
   end in the second.
   */
  lemma TwoCallsIffNotCut(actions: seq<Action>, k: nat, a: Bytes, b: Bytes, buffers: E.Buffers)
    requires Plain(actions) && RoundTrip.Distinct(actions) && k <= |actions|
    requires E.Parsing(actions, k, a, 0, buffers).status.NeedMoreData?
    ensures var p, start := E.Parsing(actions, k, a, 0, buffers), Start(actions, k, a, buffers);
            && p.consumed <= |a| && p.stage < |actions| && start <= |a|
            && (E.Parsing(actions, k, a + b, 0, buffers) == SecondCall(actions, p, a, b)
                <==> !Cut(actions[p.stage], a[start..], b))
  {
    hide E.Parsing, Start, Cut, Plain;
    PlainAt(actions, k);
    StartWithin(actions, k, a, buffers);
    var p, start := E.Parsing(actions, k, a, 0, buffers), Start(actions, k, a, buffers);
    if Cut(actions[p.stage], a[start..], b) {
      CutLoses(actions, k, a, b, buffers);
    } else {
      ParseResumes(actions, k, a, b, buffers);
    }
  }

  /** CR LF cut in two: the field `x` of "a" CR and LF "b" CR LF is a CR LF b, and not a. */
  lemma CutTerminator(name: string)
    ensures var actions := [ReadOctetsUntilTerminator([13, 10], Identifier(name, None), None)];
            var first := E.Parsing(actions, 0, [97, 13], 0, map[]);
            && first == E.Progress(E.NeedMoreData, 2, 0, map[name := [97, 13]])
            && SecondCall(actions, first, [97, 13], [10, 98, 13, 10])
               == E.Progress(E.Complete, 6, 1, map[name := [97, 13, 10, 98]])
            && E.Parsing(actions, 0, [97, 13, 10, 98, 13, 10], 0, map[])
               == E.Progress(E.Complete, 3, 1, map[name := [97]])
  {
    hide Find, At;
    var t: Bytes := [13, 10];
    var actions := [ReadOctetsUntilTerminator(t, Identifier(name, None), None)];
    NoTerminator();
    var a: Bytes, b: Bytes, all: Bytes := [97, 13], [10, 98, 13, 10], [97, 13, 10, 98, 13, 10];
    ParseStep(actions, 0, a, map[]);
    ParseStep(actions, 0, all, map[]);
    ParseStep(actions, 0, b, map[name := a]);
    assert a[2..] + b == b && b[..2] == [10, 98] && all[..1] == [97];
    assert a + [10, 98] == [97, 13, 10, 98];
    assert [] + a == a && [] + all[..1] == [97];
  }

  lemma NoTerminator()
    ensures Find([97, 13], [13, 10], 0).None?
    ensures Find([10, 98, 13, 10], [13, 10], 0) == Some(2)
    ensures Find([97, 13, 10, 98, 13, 10], [13, 10], 0) == Some(1)
  {
    var t: Bytes := [13, 10];
    var a: Bytes, b: Bytes, all: Bytes := [97, 13], [10, 98, 13, 10], [97, 13, 10, 98, 13, 10];
    assert a[0..2] == a && b[0..2] == [10, 98] && b[1..3] == [98, 13] && b[2..4] == t;
    assert all[0..2] == [97, 13] && all[1..3] == t;
    assert !At(a, t, 0) && !At(b, t, 0) && !At(b, t, 1) && At(b, t, 2) && !At(all, t, 0) && At(all, t, 1);
    FindIs(b, t, 0, 2);
    FindIs(all, t, 0, 1);
  }
}
