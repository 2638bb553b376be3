/**
 The escape-replacement codec, in its two implementations: the find-based loops
 of the interpreted operations and the byte loops of the emitted code.
 */
module Escape {
  import opened Options
  import opened Octets

  /** `character` stands in the value for `sequence` on the wire. */
  datatype EscapeInfo = EscapeInfo(character: Bytes, sequence: Bytes)

  /** Leftmost, non-overlapping replacement of `c` by `s`. */
  function Escaped(v: Bytes, c: Bytes, s: Bytes): Bytes
    requires |c| > 0
    decreases |v|
  {
    if v == [] then []
    else if At(v, c, 0) then s + Escaped(v[|c|..], c, s)
    else [v[0]] + Escaped(v[1..], c, s)
  }

  /** `At` of a suffix is `At` of the whole, shifted. */
  lemma AtSuffix(v: Bytes, c: Bytes, n: nat, i: nat)
    requires n <= |v|
    ensures At(v[n..], c, i) <==> At(v, c, n + i)
  {
    if n + i + |c| <= |v| {
      assert v[n..][i..i + |c|] == v[n + i..n + i + |c|];
    }
  }

  /** Text without `c` is copied. */
  lemma {:induction false} EscapedSkips(v: Bytes, c: Bytes, s: Bytes, n: nat)
    requires |c| > 0 && n <= |v|
    requires forall i :: 0 <= i < n ==> !At(v, c, i)
    ensures Escaped(v, c, s) == v[..n] + Escaped(v[n..], c, s)
    decreases n
  {
    if n == 0 {
      assert v[n..] == v;
    } else {
      assert !At(v, c, 0);
      forall i | 0 <= i < n - 1 ensures !At(v[1..], c, i) {
        assert !At(v, c, 1 + i);
        AtSuffix(v, c, 1, i);
      }
      EscapedSkips(v[1..], c, s, n - 1);
      assert v[1..][n - 1..] == v[n..];
      assert v[..n] == [v[0]] + v[1..][..n - 1];
    }
  }

  /** `EscapedSkips` between two places of one input. */
  lemma EscapedFrom(input: Bytes, c: Bytes, s: Bytes, pos: nat, stop: nat)
    requires |c| > 0 && pos <= stop <= |input|
    requires forall i :: pos <= i < stop ==> !At(input, c, i)
    ensures Escaped(input[pos..], c, s) == input[pos..stop] + Escaped(input[stop..], c, s)
  {
    forall i | 0 <= i < stop - pos ensures !At(input[pos..], c, i) {
      AtSuffix(input, c, pos, i);
      assert !At(input, c, pos + i);
    }
    EscapedSkips(input[pos..], c, s, stop - pos);
    assert input[pos..][..stop - pos] == input[pos..stop];
    assert input[pos..][stop - pos..] == input[stop..];
  }

  /** `result` and the encoding of what is left make up the whole encoding. */
  ghost predicate Written(result: Bytes, input: Bytes, pos: nat, c: Bytes, s: Bytes)
    requires |c| > 0
  {
    pos <= |input| && Escaped(input, c, s) == result + Escaped(input[pos..], c, s)
  }

  lemma WriteStart(input: Bytes, c: Bytes, s: Bytes)
    requires |c| > 0
    ensures Written([], input, 0, c, s)
  {
    assert input[0..] == input;
  }

  lemma WriteEnd(result: Bytes, input: Bytes, c: Bytes, s: Bytes)
    requires |c| > 0 && Written(result, input, |input|, c, s)
    ensures result == Escaped(input, c, s)
  {
    assert input[|input|..] == [];
  }

  lemma WriteText(result: Bytes, input: Bytes, pos: nat, stop: nat, c: Bytes, s: Bytes)
    requires |c| > 0 && Written(result, input, pos, c, s) && pos <= stop <= |input|
    requires forall i :: pos <= i < stop ==> !At(input, c, i)
    ensures Written(result + input[pos..stop], input, stop, c, s)
  {
    EscapedFrom(input, c, s, pos, stop);
  }

  lemma WriteMatch(result: Bytes, input: Bytes, pos: nat, c: Bytes, s: Bytes)
    requires |c| > 0 && Written(result, input, pos, c, s) && At(input, c, pos)
    ensures Written(result + s, input, pos + |c|, c, s)
  {
    EscapedMatch(input, c, s, pos);
  }

  /** One match is one replacement. */
  lemma EscapedMatch(input: Bytes, c: Bytes, s: Bytes, pos: nat)
    requires |c| > 0 && At(input, c, pos)
    ensures Escaped(input[pos..], c, s) == s + Escaped(input[pos + |c|..], c, s)
  {
    AtSuffix(input, c, pos, 0);
    assert input[pos..][|c|..] == input[pos + |c|..];
  }

  /** The writer of the interpreted operation: jump from match to match. */
  method ApplyEscapeReplacement(input: Bytes, c: Bytes, s: Bytes) returns (result: Bytes)
    requires |c| > 0
    ensures result == Escaped(input, c, s)
  {
    hide Written, Escaped;
    result := [];
    var pos: nat := 0;
    WriteStart(input, c, s);
    while pos < |input|
      invariant pos <= |input| && Written(result, input, pos, c, s)
    {
      var found := Find(input, c, pos);
      var stop := if found.Some? then found.value else |input|;
      WriteText(result, input, pos, stop, c, s);
      result := result + input[pos..stop];
      if found.None? {
        pos := |input|;
        break;
      }
      WriteMatch(result, input, stop, c, s);
      result := result + s;
      pos := stop + |c|;
    }
    WriteEnd(result, input, c, s);
  }

  /** The writer of the emitted serializer: one byte, or one match, at a time. */
  method EmittedEscape(temp: Bytes, c: Bytes, s: Bytes) returns (result: Bytes)
    requires |c| > 0
    ensures result == Escaped(temp, c, s)
  {
    hide Written, Escaped;
    result := [];
    var pos: nat := 0;
    WriteStart(temp, c, s);
    while pos < |temp|
      invariant pos <= |temp| && Written(result, temp, pos, c, s)
    {
      if pos + |c| <= |temp| && temp[pos..pos + |c|] == c {
        WriteMatch(result, temp, pos, c, s);
        result := result + s;
        pos := pos + |c|;
      } else {
        WriteText(result, temp, pos, pos + 1, c, s);
        assert temp[pos..pos + 1] == [temp[pos]];
        result := result + [temp[pos]];
        pos := pos + 1;
      }
    }
    WriteEnd(result, temp, c, s);
  }

  /**
   What both readers are for: the text before the first terminator that is not
   the start of an escape sequence, escapes undone, and the octets it took.
   */
  function Scan(input: Bytes, t: Bytes, e: EscapeInfo): (r: Option<(Bytes, nat)>)
    requires |t| > 0 && |e.sequence| > 0
    ensures r.Some? ==> |t| <= r.value.1 <= |input|
    decreases |input|
  {
    if At(input, e.sequence, 0) then Prefixed(e.character, |e.sequence|, Scan(input[|e.sequence|..], t, e))
    else if At(input, t, 0) then Some(([], |t|))
    else if input == [] then None
    else Prefixed(input[..1], 1, Scan(input[1..], t, e))
  }

  function Prefixed(text: Bytes, taken: nat, r: Option<(Bytes, nat)>): Option<(Bytes, nat)> {
    match r
    case None => None
    case Some((more, n)) => Some((text + more, taken + n))
  }

  lemma PrefixedTwice(a: Bytes, n: nat, b: Bytes, m: nat, r: Option<(Bytes, nat)>)
    ensures Prefixed(a, n, Prefixed(b, m, r)) == Prefixed(a + b, n + m, r)
    ensures Prefixed([], 0, r) == r
  {
    if r.Some? {
      assert a + (b + r.value.0) == (a + b) + r.value.0;
      assert [] + r.value.0 == r.value.0;
    }
  }

  /** The scan of `input` from `pos` on, with `text` collected so far. */
  function Resume(input: Bytes, pos: nat, text: Bytes, t: Bytes, e: EscapeInfo): Option<(Bytes, nat)>
    requires |t| > 0 && |e.sequence| > 0
    decreases |input| - pos
  {
    if At(input, e.sequence, pos) then Resume(input, pos + |e.sequence|, text + e.character, t, e)
    else if At(input, t, pos) then Some((text, pos + |t|))
    else if pos >= |input| then None
    else Resume(input, pos + 1, text + [input[pos]], t, e)
  }

  /** `Scan` of what is left, in terms of the whole input. */
  lemma ScanStep(input: Bytes, pos: nat, t: Bytes, e: EscapeInfo)
    requires |t| > 0 && |e.sequence| > 0 && pos <= |input|
    ensures Scan(input[pos..], t, e) ==
            if At(input, e.sequence, pos) then
              Prefixed(e.character, |e.sequence|, Scan(input[pos + |e.sequence|..], t, e))
            else if At(input, t, pos) then Some(([], |t|))
            else if pos == |input| then None
            else Prefixed([input[pos]], 1, Scan(input[pos + 1..], t, e))
  {
    var rest := input[pos..];
    AtSuffix(input, e.sequence, pos, 0);
    AtSuffix(input, t, pos, 0);
    if At(input, e.sequence, pos) {
      assert rest[|e.sequence|..] == input[pos + |e.sequence|..];
    } else if rest != [] {
      assert rest[1..] == input[pos + 1..] && rest[..1] == [input[pos]];
    }
  }

  /** `Scan` of what is left of the input from `pos` on. */
  function ScanFrom(input: Bytes, pos: nat, t: Bytes, e: EscapeInfo): Option<(Bytes, nat)>
    requires |t| > 0 && |e.sequence| > 0
    decreases |input| - pos
  {
    if At(input, e.sequence, pos) then Prefixed(e.character, |e.sequence|, ScanFrom(input, pos + |e.sequence|, t, e))
    else if At(input, t, pos) then Some(([], |t|))
    else if pos >= |input| then None
    else Prefixed([input[pos]], 1, ScanFrom(input, pos + 1, t, e))
  }

  type SuffixScan = nat -> Option<(Bytes, nat)>

  /** `scan` takes one step of the scan at `pos`. */
  ghost predicate StepsAt(scan: SuffixScan, input: Bytes, pos: nat, t: Bytes, e: EscapeInfo)
    requires pos <= |input|
  {
    scan(pos) ==
      if At(input, e.sequence, pos) then Prefixed(e.character, |e.sequence|, scan(pos + |e.sequence|))
      else if At(input, t, pos) then Some(([], |t|))
      else if pos == |input| then None
      else Prefixed([input[pos]], 1, scan(pos + 1))
  }

  lemma {:induction false} ScanFromSteps(scan: SuffixScan, input: Bytes, pos: nat, t: Bytes, e: EscapeInfo)
    requires |t| > 0 && |e.sequence| > 0 && pos <= |input|
    requires forall i: nat :: i <= |input| ==> StepsAt(scan, input, i, t, e)
    ensures ScanFrom(input, pos, t, e) == scan(pos)
    decreases |input| - pos
  {
    assert StepsAt(scan, input, pos, t, e);
    if At(input, e.sequence, pos) {
      ScanFromSteps(scan, input, pos + |e.sequence|, t, e);
    } else if !At(input, t, pos) && pos < |input| {
      ScanFromSteps(scan, input, pos + 1, t, e);
    }
  }

  /** The scan of every suffix. */
  function OfSuffixes(input: Bytes, t: Bytes, e: EscapeInfo): SuffixScan
    requires |t| > 0 && |e.sequence| > 0
  {
    (pos: nat) => if pos <= |input| then Scan(input[pos..], t, e) else None
  }

  lemma SuffixesStep(input: Bytes, pos: nat, t: Bytes, e: EscapeInfo)
    requires |t| > 0 && |e.sequence| > 0 && pos <= |input|
    ensures StepsAt(OfSuffixes(input, t, e), input, pos, t, e)
  {
    hide Scan;
    ScanStep(input, pos, t, e);
  }

  lemma ScanFromScans(input: Bytes, t: Bytes, e: EscapeInfo)
    requires |t| > 0 && |e.sequence| > 0
    ensures ScanFrom(input, 0, t, e) == Scan(input, t, e)
  {
    forall i: nat | i <= |input| {
      SuffixesStep(input, i, t, e);
    }
    ScanFromSteps(OfSuffixes(input, t, e), input, 0, t, e);
    assert input[0..] == input;
  }

  /** Resuming is scanning what is left. */
  lemma {:induction false} ResumeScans(input: Bytes, pos: nat, text: Bytes, t: Bytes, e: EscapeInfo)
    requires |t| > 0 && |e.sequence| > 0
    ensures Resume(input, pos, text, t, e) == Prefixed(text, pos, ScanFrom(input, pos, t, e))
    decreases |input| - pos
  {
    if At(input, e.sequence, pos) {
      var next := pos + |e.sequence|;
      ResumeScans(input, next, text + e.character, t, e);
      PrefixedTwice(text, pos, e.character, |e.sequence|, ScanFrom(input, next, t, e));
    } else if At(input, t, pos) {
      assert text + [] == text;
    } else if pos < |input| {
      ResumeScans(input, pos + 1, text + [input[pos]], t, e);
      PrefixedTwice(text, pos, [input[pos]], 1, ScanFrom(input, pos + 1, t, e));
    }
  }

  lemma ScanIsResume(input: Bytes, text: Bytes, t: Bytes, e: EscapeInfo)
    requires |t| > 0 && |e.sequence| > 0
    ensures Resume(input, 0, text, t, e) == Prefixed(text, 0, Scan(input, t, e))
  {
    ResumeScans(input, 0, text, t, e);
    ScanFromScans(input, t, e);
  }

  /** Octets at which neither pattern starts are copied. */
  lemma {:induction false} ResumeSkips(input: Bytes, pos: nat, stop: nat, text: Bytes, t: Bytes, e: EscapeInfo)
    requires |t| > 0 && |e.sequence| > 0 && pos <= stop <= |input|
    requires forall i :: pos <= i < stop ==> !At(input, t, i) && !At(input, e.sequence, i)
    ensures Resume(input, pos, text, t, e) == Resume(input, stop, text + input[pos..stop], t, e)
    decreases stop - pos
  {
    if pos == stop {
      assert text + input[pos..stop] == text;
    } else {
      assert !At(input, t, pos) && !At(input, e.sequence, pos);
      ResumeSkips(input, pos + 1, stop, text + [input[pos]], t, e);
      assert text + [input[pos]] + input[pos + 1..stop] == text + input[pos..stop];
    }
  }

  /** Without a terminator ahead there is nothing to deliver. */
  lemma {:induction false} ResumeFails(input: Bytes, pos: nat, text: Bytes, t: Bytes, e: EscapeInfo)
    requires |t| > 0 && |e.sequence| > 0
    requires forall i: nat :: pos <= i ==> !At(input, t, i)
    ensures Resume(input, pos, text, t, e).None?
    decreases |input| - pos
  {
    assert !At(input, t, pos);
    if At(input, e.sequence, pos) {
      ResumeFails(input, pos + |e.sequence|, text + e.character, t, e);
    } else if pos < |input| {
      ResumeFails(input, pos + 1, text + [input[pos]], t, e);
    }
  }

  predicate PreferEscape(termPos: Option<nat>, escPos: Option<nat>) {
    escPos.Some? && (termPos.None? || escPos.value <= termPos.value)
  }

  /** How one escape-aware read ends: with the text up to a terminator, with what it gathered, or never. */
  datatype EscapedRead = Found(text: Bytes, taken: nat) | Gathered(text: Bytes) | NeverEnds

  /** What the loop comes to next. */
  datatype NextMatch = NoMatch | TerminatorAt(place: nat) | SequenceAt(place: nat)

  function MatchFrom(input: Bytes, pos: nat, t: Bytes, e: EscapeInfo): (m: NextMatch)
    ensures m.SequenceAt? ==> pos <= m.place && m.place + |e.sequence| <= |input|
    ensures m.TerminatorAt? ==> pos <= m.place && m.place + |t| <= |input|
  {
    var termPos, escPos := Find(input, t, pos), Find(input, e.sequence, pos);
    if pos >= |input| || (termPos.None? && escPos.None?) then NoMatch
    else if PreferEscape(termPos, escPos) then SequenceAt(escPos.value)
    else TerminatorAt(termPos.value)
  }

  /** The loop of `handle_read` from `pos` on, `text` in the buffer; an empty sequence makes it turn in place. */
  function ReadEscaped(input: Bytes, pos: nat, text: Bytes, t: Bytes, e: EscapeInfo): (r: EscapedRead)
    ensures r.Found? ==> r.taken <= |input|
    decreases |input| - pos
  {
    match MatchFrom(input, pos, t, e)
    case NoMatch => Gathered(text)
    case TerminatorAt(place) => Found(text + input[pos..place], place + |t|)
    case SequenceAt(place) =>
      if e.sequence == [] then NeverEnds
      else ReadEscaped(input, place + |e.sequence|, text + input[pos..place] + e.character, t, e)
  }

  /** Between here and the next match nothing starts. */
  lemma MatchIsNext(input: Bytes, pos: nat, t: Bytes, e: EscapeInfo)
    requires |t| > 0 && |e.sequence| > 0
    ensures match MatchFrom(input, pos, t, e)
            case NoMatch => forall i: nat :: pos <= i ==> !At(input, t, i)
            case TerminatorAt(place) =>
              && At(input, t, place) && !At(input, e.sequence, place)
              && forall i :: pos <= i < place ==> !At(input, t, i) && !At(input, e.sequence, i)
            case SequenceAt(place) =>
              && At(input, e.sequence, place)
              && forall i :: pos <= i < place ==> !At(input, t, i) && !At(input, e.sequence, i)
  {}

  /** One turn of the scan: copy up to the next match, then take the escape sequence or stop at the terminator. */
  lemma ResumeTurn(input: Bytes, pos: nat, stop: nat, text: Bytes, t: Bytes, e: EscapeInfo)
    requires |t| > 0 && |e.sequence| > 0 && pos <= stop <= |input|
    requires forall i :: pos <= i < stop ==> !At(input, t, i) && !At(input, e.sequence, i)
    ensures var copied := text + input[pos..stop];
            if At(input, e.sequence, stop) then
              Resume(input, pos, text, t, e) == Resume(input, stop + |e.sequence|, copied + e.character, t, e)
            else At(input, t, stop) ==> Resume(input, pos, text, t, e) == Some((copied, stop + |t|))
  {
    ResumeSkips(input, pos, stop, text, t, e);
  }

  /** The loop's end, in the scan's terms. */
  ghost predicate SameEnd(r: EscapedRead, all: Option<(Bytes, nat)>) {
    match r
    case Found(text, taken) => all == Some((text, taken))
    case Gathered(_) => all.None?
    case NeverEnds => false
  }

  /** The rest of a read, as a function of the place reached and the buffer. */
  type LoopFrom = (nat, Bytes) -> EscapedRead

  /** `rest` is the loop; the trigger keeps `ReadEscaped` folded where it is not named. */
  ghost predicate IsLoop(rest: LoopFrom, input: Bytes, t: Bytes, e: EscapeInfo) {
    forall pos, text {:trigger ReadEscaped(input, pos, text, t, e)} ::
      rest(pos, text) == ReadEscaped(input, pos, text, t, e)
  }

  /** The buffer after the text before a match, and the character for a sequence. */
  function AfterMatch(input: Bytes, pos: nat, text: Bytes, m: NextMatch, e: EscapeInfo): Bytes
    requires !m.NoMatch? && pos <= m.place <= |input|
  {
    if m.SequenceAt? then text + input[pos..m.place] + e.character else text + input[pos..m.place]
  }

  lemma ReadTurn(rest: LoopFrom, input: Bytes, pos: nat, text: Bytes, t: Bytes, e: EscapeInfo, m: NextMatch,
                 after: Bytes)
    requires IsLoop(rest, input, t, e) && |e.sequence| > 0 && m == MatchFrom(input, pos, t, e)
    requires m.NoMatch? || after == AfterMatch(input, pos, text, m, e)
    ensures m.NoMatch? ==> rest(pos, text) == Gathered(text)
    ensures m.TerminatorAt? ==> rest(pos, text) == Found(after, m.place + |t|)
    ensures m.SequenceAt? ==> rest(pos, text) == rest(m.place + |e.sequence|, after)
  {
    assert rest(pos, text) == ReadEscaped(input, pos, text, t, e);
    if m.SequenceAt? {
      var next := m.place + |e.sequence|;
      assert rest(next, after) == ReadEscaped(input, next, after, t, e);
    }
  }

  type Scanning = (nat, Bytes) -> Option<(Bytes, nat)>

  ghost predicate IsScan(scan: Scanning, input: Bytes, t: Bytes, e: EscapeInfo)
    requires |t| > 0 && |e.sequence| > 0
  {
    forall pos, text {:trigger Resume(input, pos, text, t, e)} :: scan(pos, text) == Resume(input, pos, text, t, e)
  }

  /** The turn of `ReadTurn`, in the scan's terms. */
  lemma ScanTurn(scan: Scanning, input: Bytes, pos: nat, text: Bytes, t: Bytes, e: EscapeInfo, m: NextMatch,
                 after: Bytes)
    requires |t| > 0 && |e.sequence| > 0 && IsScan(scan, input, t, e) && m == MatchFrom(input, pos, t, e)
    requires m.NoMatch? || after == AfterMatch(input, pos, text, m, e)
    ensures m.NoMatch? ==> scan(pos, text).None?
    ensures m.TerminatorAt? ==> scan(pos, text) == Some((after, m.place + |t|))
    ensures m.SequenceAt? ==> scan(pos, text) == scan(m.place + |e.sequence|, after)
  {
    assert scan(pos, text) == Resume(input, pos, text, t, e);
    MatchIsNext(input, pos, t, e);
    if m.NoMatch? {
      ResumeFails(input, pos, text, t, e);
    } else {
      ResumeTurn(input, pos, m.place, text, t, e);
      if m.SequenceAt? {
        var next := m.place + |e.sequence|;
        assert scan(next, after) == Resume(input, next, after, t, e);
      }
    }
  }

  /** With a terminator and a sequence, the loop finds what the scan finds. */
  lemma {:induction false} LoopScans(rest: LoopFrom, scan: Scanning, input: Bytes, pos: nat, text: Bytes, t: Bytes,
                                     e: EscapeInfo)
    requires |t| > 0 && |e.sequence| > 0 && IsLoop(rest, input, t, e) && IsScan(scan, input, t, e)
    ensures SameEnd(rest(pos, text), scan(pos, text))
    decreases |input| - pos
  {
    var m := MatchFrom(input, pos, t, e);
    var after := if m.NoMatch? then [] else AfterMatch(input, pos, text, m, e);
    ReadTurn(rest, input, pos, text, t, e, m, after);
    ScanTurn(scan, input, pos, text, t, e, m, after);
    if m.SequenceAt? {
      LoopScans(rest, scan, input, m.place + |e.sequence|, after, t, e);
    }
  }

  /** The loop, from an empty buffer or a filled one, against the scan. */
  lemma ReadEscapedScans(input: Bytes, text: Bytes, t: Bytes, e: EscapeInfo)
    requires |t| > 0 && |e.sequence| > 0
    ensures var scanned := Scan(input, t, e);
            if scanned.Some? then ReadEscaped(input, 0, text, t, e) == Found(text + scanned.value.0, scanned.value.1)
            else ReadEscaped(input, 0, text, t, e).Gathered?
  {
    var rest: LoopFrom := (p: nat, x: Bytes) => ReadEscaped(input, p, x, t, e);
    var scan: Scanning := (p: nat, x: Bytes) => Resume(input, p, x, t, e);
    LoopScans(rest, scan, input, 0, text, t, e);
    ScanIsResume(input, text, t, e);
  }

  /** The operation together with its input/output context. */
  class ReadOctetsUntilTerminator {
    const terminator: Bytes
    const escape: Option<EscapeInfo>
    var buffer: Bytes
    var ready: bool
    var eof: bool

    constructor (terminator: Bytes, escape: Option<EscapeInfo>)
      ensures this.terminator == terminator && this.escape == escape
      ensures buffer == [] && !ready && !eof
    {
      this.terminator := terminator;
      this.escape := escape;
      buffer, ready, eof := [], false, false;
    }

    /** The reader of the interpreted operation: jump from match to match. */
    method HandleReadEscaped(input: Bytes) returns (consumed: nat)
      requires escape.Some? && |terminator| > 0 && |escape.value.sequence| > 0
      modifies this
      ensures eof == old(eof)
      ensures match ReadEscaped(input, 0, old(buffer), terminator, escape.value)
              case Found(text, taken) => ready && consumed == taken && buffer == text
              case Gathered(text) => ready == old(ready) && consumed == 0 && buffer == text
              case NeverEnds => false
      ensures match Scan(input, terminator, escape.value)
              case Some((text, n)) => ready && consumed == n && buffer == old(buffer) + text
              case None => ready == old(ready) && consumed == 0
    {
      ReadEscapedScans(input, buffer, terminator, escape.value);
      ghost var t, e := terminator, escape.value;
      consumed := ReadLoop(input, (pos: nat, text: Bytes) => ReadEscaped(input, pos, text, t, e));
    }

    method ReadLoop(input: Bytes, ghost rest: LoopFrom) returns (consumed: nat)
      requires escape.Some? && |escape.value.sequence| > 0 && IsLoop(rest, input, terminator, escape.value)
      modifies this
      ensures eof == old(eof)
      ensures match rest(0, old(buffer))
              case Found(text, taken) => ready && consumed == taken && buffer == text
              case Gathered(text) => ready == old(ready) && consumed == 0 && buffer == text
              case NeverEnds => false
    {
      var pos: nat := 0;
      var m := SearchBoth(input, pos);
      while !m.NoMatch?
        invariant ready == old(ready) && eof == old(eof)
        invariant m == MatchFrom(input, pos, terminator, escape.value) && rest(0, old(buffer)) == rest(pos, buffer)
        decreases |input| - pos
      {
        ghost var text, from := buffer, pos;
        pos := AppendMatch(input, pos, m);
        ReadTurn(rest, input, from, text, terminator, escape.value, m, buffer);
        if m.TerminatorAt? {
          ready := true;
          return pos;
        }
        m := SearchBoth(input, pos);
      }
      ReadTurn(rest, input, pos, buffer, terminator, escape.value, m, buffer);
      return 0;
    }

    /** The text before a match goes to the buffer, and the character for a sequence; the place behind the match. */
    method AppendMatch(input: Bytes, pos: nat, m: NextMatch) returns (next: nat)
      requires escape.Some? && !m.NoMatch? && pos <= m.place <= |input|
      modifies this`buffer
      ensures buffer == AfterMatch(input, pos, old(buffer), m, escape.value)
      ensures next == m.place + if m.SequenceAt? then |escape.value.sequence| else |terminator|
    {
      buffer := buffer + input[pos..m.place];
      next := m.place + |terminator|;
      if m.SequenceAt? {
        buffer := buffer + escape.value.character;
        next := m.place + |escape.value.sequence|;
      }
    }

    /** The two searches of one turn; none past the end of the input. */
    method SearchBoth(input: Bytes, pos: nat) returns (m: NextMatch)
      requires escape.Some?
      ensures m == MatchFrom(input, pos, terminator, escape.value)
    {
      if pos >= |input| {
        return NoMatch;
      }
      var termPos := Find(input, terminator, pos);
      var escPos := Find(input, escape.value.sequence, pos);
      if termPos.None? && escPos.None? {
        return NoMatch;
      }
      return if PreferEscape(termPos, escPos) then SequenceAt(escPos.value) else TerminatorAt(termPos.value);
    }

    /** The same operation without escape information. */
    method HandleReadPlain(input: Bytes) returns (consumed: nat)
      requires escape.None?
      modifies this
      ensures eof == old(eof)
      ensures match Find(input, terminator, 0)
              case Some(pos) => ready && consumed == pos + |terminator| && buffer == input[..pos]
              case None => ready == old(ready) && consumed == 0 && buffer == old(buffer)
    {
      var pos := Find(input, terminator, 0);
      if pos.None? {
        return 0;
      }
      buffer := input[..pos.value];
      ready := true;
      return pos.value + |terminator|;
    }
  }

  /** The scan as the emitted reader keeps it: `pos` octets of what is left looked at, none of them buffered. */
  function Pending(input: Bytes, consumed: nat, pos: nat, buffered: Bytes, t: Bytes, e: EscapeInfo)
    : Option<(Bytes, nat)>
    requires |t| > 0 && |e.sequence| > 0 && consumed + pos <= |input|
  {
    Resume(input, consumed + pos, buffered + input[consumed..consumed + pos], t, e)
  }

  /** What one turn of the emitted loop does to the scan. */
  lemma PendingStep(input: Bytes, consumed: nat, pos: nat, buffered: Bytes, t: Bytes, e: EscapeInfo)
    requires |t| > 0 && |e.sequence| > 0 && consumed + pos <= |input|
    ensures var at, text := consumed + pos, buffered + input[consumed..consumed + pos];
            if At(input, e.sequence, at) then
              Pending(input, consumed, pos, buffered, t, e)
              == Pending(input, at + |e.sequence|, 0, text + e.character, t, e)
            else if At(input, t, at) then Pending(input, consumed, pos, buffered, t, e) == Some((text, at + |t|))
            else at < |input| ==> Pending(input, consumed, pos, buffered, t, e)
                                  == Pending(input, consumed, pos + 1, buffered, t, e)
  {
    var at, text := consumed + pos, buffered + input[consumed..consumed + pos];
    if At(input, e.sequence, at) {
      var next := at + |e.sequence|;
      assert text + e.character + input[next..next] == text + e.character;
    } else if !At(input, t, at) && at < |input| {
      assert text + [input[at]] == buffered + input[consumed..at + 1];
    }
  }

  lemma PendingStart(input: Bytes, t: Bytes, e: EscapeInfo)
    requires |t| > 0 && |e.sequence| > 0
    ensures Pending(input, 0, 0, [], t, e) == Scan(input, t, e)
  {
    ScanIsResume(input, [], t, e);
    PrefixedTwice([], 0, [], 0, Scan(input, t, e));
    assert [] + input[0..0] == [];
  }

  lemma PendingFails(input: Bytes, consumed: nat, pos: nat, buffered: Bytes, t: Bytes, e: EscapeInfo)
    requires |t| > 0 && |e.sequence| > 0 && consumed + pos <= |input|
    requires |input| < consumed + pos + |t|
    ensures Pending(input, consumed, pos, buffered, t, e).None?
  {
    ResumeFails(input, consumed + pos, buffered + input[consumed..consumed + pos], t, e);
  }

  /** What the emitted reader has buffered when it runs out of input, from place `at` with `text` buffered. */
  function Kept(input: Bytes, at: nat, text: Bytes, t: Bytes, e: EscapeInfo): Bytes
    requires |t| > 0 && |e.sequence| > 0 && at <= |input|
    decreases |input| - at
  {
    if |input| < at + |t| then text + input[at..]
    else if At(input, e.sequence, at) then Kept(input, at + |e.sequence|, text + e.character, t, e)
    else if At(input, t, at) then text
    else Kept(input, at + 1, text + [input[at]], t, e)
  }

  /** `Kept`, with `pos` octets looked at and not yet buffered. */
  function Keeping(input: Bytes, consumed: nat, pos: nat, buffered: Bytes, t: Bytes, e: EscapeInfo): Bytes
    requires |t| > 0 && |e.sequence| > 0 && consumed + pos <= |input|
  {
    Kept(input, consumed + pos, buffered + input[consumed..consumed + pos], t, e)
  }

  /** What one turn of the emitted loop does to it. */
  lemma KeepingStep(input: Bytes, consumed: nat, pos: nat, buffered: Bytes, t: Bytes, e: EscapeInfo)
    requires |t| > 0 && |e.sequence| > 0 && consumed + pos + |t| <= |input|
    ensures var at, text := consumed + pos, buffered + input[consumed..consumed + pos];
            if At(input, e.sequence, at) then
              Keeping(input, consumed, pos, buffered, t, e)
              == Keeping(input, at + |e.sequence|, 0, text + e.character, t, e)
            else !At(input, t, at) ==> Keeping(input, consumed, pos, buffered, t, e)
                                       == Keeping(input, consumed, pos + 1, buffered, t, e)
  {
    var at, text := consumed + pos, buffered + input[consumed..consumed + pos];
    if At(input, e.sequence, at) {
      var next := at + |e.sequence|;
      assert text + e.character + input[next..next] == text + e.character;
    } else if !At(input, t, at) {
      assert text + [input[at]] == buffered + input[consumed..at + 1];
    }
  }

  lemma KeepingEnds(input: Bytes, consumed: nat, pos: nat, buffered: Bytes, t: Bytes, e: EscapeInfo)
    requires |t| > 0 && |e.sequence| > 0 && consumed + pos <= |input| < consumed + pos + |t|
    ensures Keeping(input, consumed, pos, buffered, t, e) == buffered + input[consumed..]
  {
    assert input[consumed..] == input[consumed..consumed + pos] + input[consumed + pos..];
    assert buffered + input[consumed..consumed + pos] + input[consumed + pos..] == buffered + input[consumed..];
  }

  /**
   The emitted loop, `rest` left of the input and `pos` octets of it looked at, is
   on its way to `scanned` or `kept`.
   */
  ghost predicate Searching(scanned: Option<(Bytes, nat)>, kept: Bytes, input: Bytes, consumed: nat, rest: Bytes,
                            pos: nat,
                            buffered: Bytes, t: Bytes, e: EscapeInfo)
  {
    && |t| > 0 && |e.sequence| > 0 && consumed <= |input| && rest == input[consumed..] && pos <= |rest|
    && scanned == Pending(input, consumed, pos, buffered, t, e)
    && kept == Keeping(input, consumed, pos, buffered, t, e)
  }

  lemma SearchingStart(input: Bytes, t: Bytes, e: EscapeInfo)
    requires |t| > 0 && |e.sequence| > 0
    ensures Searching(Scan(input, t, e), Kept(input, 0, [], t, e), input, 0, input, 0, [], t, e)
  {
    assert [] + input[0..0] == [];
    PendingStart(input, t, e);
  }

  lemma SearchingTurn(scanned: Option<(Bytes, nat)>, kept: Bytes, input: Bytes, consumed: nat, rest: Bytes, pos: nat,
                      buffered: Bytes, t: Bytes, e: EscapeInfo)
    requires Searching(scanned, kept, input, consumed, rest, pos, buffered, t, e) && pos + |t| <= |rest|
    ensures var next := pos + |e.sequence|;
            if At(rest, e.sequence, pos) then
              Searching(scanned, kept, input, consumed + next, rest[next..], 0, buffered + rest[..pos] + e.character, t,
                        e)
            else if At(rest, t, pos) then scanned == Some((buffered + rest[..pos], consumed + pos + |t|))
            else Searching(scanned, kept, input, consumed, rest, pos + 1, buffered, t, e)
  {
    PendingStep(input, consumed, pos, buffered, t, e);
    KeepingStep(input, consumed, pos, buffered, t, e);
    AtSuffix(input, e.sequence, consumed, pos);
    AtSuffix(input, t, consumed, pos);
    assert rest[..pos] == input[consumed..consumed + pos];
  }

  lemma SearchingEnd(scanned: Option<(Bytes, nat)>, kept: Bytes, input: Bytes, consumed: nat, rest: Bytes, pos: nat,
                     buffered: Bytes, t: Bytes, e: EscapeInfo)
    requires Searching(scanned, kept, input, consumed, rest, pos, buffered, t, e) && pos + |t| > |rest|
    ensures scanned.None? && kept == buffered + rest && consumed + |rest| == |input|
  {
    PendingFails(input, consumed, pos, buffered, t, e);
    KeepingEnds(input, consumed, pos, buffered, t, e);
  }

  /** The reader of the emitted parser: what it appends, what it takes, whether it found the terminator. */
  method EmittedUntilTerminator(input: Bytes, t: Bytes, e: EscapeInfo)
    returns (buffered: Bytes, consumed: nat, found: bool)
    requires |t| > 0 && |e.sequence| > 0
    ensures match Scan(input, t, e)
            case Some((text, n)) => found && buffered == text && consumed == n
            case None => !found && buffered == Kept(input, 0, [], t, e) && consumed == |input|
  {
    SearchingStart(input, t, e);
    ghost var scanned, kept := Scan(input, t, e), Kept(input, 0, [], t, e);
    var rest := input;
    buffered, consumed, found := [], 0, false;
    var pos := 0;
    while pos + |t| <= |rest|
      invariant Searching(scanned, kept, input, consumed, rest, pos, buffered, t, e)
      invariant !found
      decreases |rest| - pos
    {
      SearchingTurn(scanned, kept, input, consumed, rest, pos, buffered, t, e);
      if pos + |e.sequence| <= |rest| && rest[pos..pos + |e.sequence|] == e.sequence {
        buffered := buffered + rest[..pos] + e.character;
        consumed := consumed + pos + |e.sequence|;
        rest := rest[pos + |e.sequence|..];
        pos := 0;
      } else if rest[pos..pos + |t|] == t {
        buffered := buffered + rest[..pos];
        consumed := consumed + pos + |t|;
        found := true;
        return;
      } else {
        pos := pos + 1;
      }
    }
    SearchingEnd(scanned, kept, input, consumed, rest, pos, buffered, t, e);
    buffered := buffered + rest;
    consumed := consumed + |rest|;
  }

  /** One octet that sits at the same single place in `t` and in `s`, and `t` a proper prefix of `s`. */
  ghost predicate Folding(t: Bytes, e: EscapeInfo, k: nat) {
    var s := e.sequence;
    && |e.character| == 1
    && |t| < |s| && s[..|t|] == t
    && k < |t|
    && (forall i :: 0 <= i < |s| ==> (s[i] == e.character[0] <==> i == k))
  }

  /** What a reader of the encoded value sees. */
  function Wire(v: Bytes, t: Bytes, e: EscapeInfo, rest: Bytes): (w: Bytes)
    requires |e.character| > 0
    ensures |w| == |Escaped(v, e.character, e.sequence)| + |t| + |rest|
  {
    Escaped(v, e.character, e.sequence) + (t + rest)
  }

  lemma WireStep(v: Bytes, t: Bytes, e: EscapeInfo, rest: Bytes)
    requires |e.character| == 1 && v != []
    ensures v[0] == e.character[0] <==> At(v, e.character, 0)
    ensures v[0] == e.character[0] ==> Wire(v, t, e, rest) == e.sequence + Wire(v[1..], t, e, rest)
    ensures v[0] != e.character[0] ==> Wire(v, t, e, rest) == [v[0]] + Wire(v[1..], t, e, rest)
  {
    assert v[0..1] == [v[0]] && e.character == [e.character[0]];
  }

  /** Encoded text followed by the terminator shows no escaped octet before place `k`. */
  lemma {:induction false} FirstPlace(v: Bytes, t: Bytes, e: EscapeInfo, k: nat, rest: Bytes)
    requires Folding(t, e, k)
    ensures k < |Wire(v, t, e, rest)|
    ensures forall i :: 0 <= i < k ==> Wire(v, t, e, rest)[i] != e.character[0]
    decreases |v|
  {
    if v == [] {
      assert Wire(v, t, e, rest) == t + rest;
      assert forall i :: 0 <= i < k ==> (t + rest)[i] == e.sequence[..|t|][i];
    } else {
      WireStep(v, t, e, rest);
      FirstPlace(v[1..], t, e, k, rest);
    }
  }

  /** A copied octet never starts a terminator or an escape sequence. */
  lemma CopiedOctet(v: Bytes, t: Bytes, e: EscapeInfo, k: nat, rest: Bytes)
    requires Folding(t, e, k) && v != [] && v[0] != e.character[0]
    ensures !At(Wire(v, t, e, rest), t, 0) && !At(Wire(v, t, e, rest), e.sequence, 0)
  {
    var s, wire := e.sequence, Wire(v, t, e, rest);
    FirstPlace(v[1..], t, e, k, rest);
    WireStep(v, t, e, rest);
    assert k < |wire| && wire[k] != e.character[0];
    assert s[..|t|][k] == s[k];
    assert |t| <= |wire| ==> wire[..|t|][k] == wire[k];
    assert |s| <= |wire| ==> wire[..|s|][k] == wire[k];
  }

  lemma PrefixedIs(v: Bytes, whole: Option<(Bytes, nat)>, taken: nat, part: Option<(Bytes, nat)>, n: nat)
    requires v != [] && whole == Prefixed([v[0]], taken, part)
    ensures whole == Some((v, taken + n)) <==> part == Some((v[1..], n))
  {
    assert v == [v[0]] + v[1..];
    if part.Some? {
      assert ([v[0]] + part.value.0)[1..] == part.value.0;
    }
  }

  /** The reader stores exactly the value, and takes exactly its encoding and the terminator. */
  ghost predicate ReadsBack(v: Bytes, t: Bytes, e: EscapeInfo, rest: Bytes)
    requires |t| > 0 && |e.sequence| > 0 && |e.character| > 0
  {
    Scan(Wire(v, t, e, rest), t, e) == Some((v, |Escaped(v, e.character, e.sequence)| + |t|))
  }

  /** The reader undoes the encoding of the character. */
  lemma CharacterReadsBack(v: Bytes, t: Bytes, e: EscapeInfo, k: nat, rest: Bytes)
    requires Folding(t, e, k) && v != [] && v[0] == e.character[0]
    ensures ReadsBack(v, t, e, rest) <==> ReadsBack(v[1..], t, e, rest)
  {
    var s, wire, more := e.sequence, Wire(v, t, e, rest), Wire(v[1..], t, e, rest);
    WireStep(v, t, e, rest);
    assert e.character == [v[0]];
    assert wire[..|s|] == s && wire[|s|..] == more;
    PrefixedIs(v, Scan(wire, t, e), |s|, Scan(more, t, e), |Escaped(v[1..], e.character, s)| + |t|);
  }

  /** The reader takes over any other octet. */
  lemma OctetReadsBack(v: Bytes, t: Bytes, e: EscapeInfo, k: nat, rest: Bytes)
    requires Folding(t, e, k) && v != [] && v[0] != e.character[0]
    ensures ReadsBack(v, t, e, rest) <==> ReadsBack(v[1..], t, e, rest)
  {
    var wire, more := Wire(v, t, e, rest), Wire(v[1..], t, e, rest);
    WireStep(v, t, e, rest);
    CopiedOctet(v, t, e, k, rest);
    assert wire[..1] == [v[0]] && wire[1..] == more;
    PrefixedIs(v, Scan(wire, t, e), 1, Scan(more, t, e), |Escaped(v[1..], e.character, e.sequence)| + |t|);
  }

  /**
   Round trip through the escape codec: the reader gives back the value and takes
   exactly the encoding and the terminator, unless what follows turns the
   terminator into an escape sequence, and then it does not.
   */
  lemma {:induction false} EscapeRoundTrip(v: Bytes, t: Bytes, e: EscapeInfo, k: nat, rest: Bytes)
    requires Folding(t, e, k)
    ensures ReadsBack(v, t, e, rest) <==> !At(t + rest, e.sequence, 0)
    decreases |v|
  {
    if v == [] {
      EmptyRoundTrip(t, e, k, rest);
    } else {
      EscapeRoundTrip(v[1..], t, e, k, rest);
      if v[0] == e.character[0] {
        CharacterReadsBack(v, t, e, k, rest);
      } else {
        OctetReadsBack(v, t, e, k, rest);
      }
    }
  }

  lemma EmptyRoundTrip(t: Bytes, e: EscapeInfo, k: nat, rest: Bytes)
    requires Folding(t, e, k)
    ensures ReadsBack([], t, e, rest) <==> !At(t + rest, e.sequence, 0)
  {
    var wire := Wire([], t, e, rest);
    assert wire == t + rest;
    assert wire[..|t|] == t;
    assert At(wire, e.sequence, 0) && Scan(wire, t, e).Some? ==> |Scan(wire, t, e).value.0| > 0 by {
      if At(wire, e.sequence, 0) {
        assert Scan(wire, t, e) == Prefixed(e.character, |e.sequence|, Scan(wire[|e.sequence|..], t, e));
      }
    }
  }

  /** HTTP line folding (RFC 9112, section 5.2): LF for CR LF SP, ended by CR LF. */
  lemma LineFolding(v: Bytes, rest: Bytes)
    ensures var e := EscapeInfo([10], [13, 10, 32]);
            Scan(Escaped(v, [10], [13, 10, 32]) + ([13, 10] + rest), [13, 10], e)
              == Some((v, |Escaped(v, [10], [13, 10, 32])| + 2))
            <==> (rest == [] || rest[0] != 32)
  {
    var t: Bytes := [13, 10];
    var e := EscapeInfo([10], [13, 10, 32]);
    assert e.sequence[..2] == t;
    EscapeRoundTrip(v, t, e, 1, rest);
    if rest != [] {
      assert (t + rest)[..3] == [13, 10, rest[0]];
    }
  }

  /**
   A witness that the condition on the sequence is not idle: with LF for LF SP, ended
   by CR LF, which does not start the sequence, the value CR LF is cut at its own octets.
   */
  lemma PrefixNeeded(rest: Bytes)
    ensures var e := EscapeInfo([10], [10, 32]);
            Scan(Wire([13, 10], [13, 10], e, rest), [13, 10], e) == Some(([], 2))
  {
    var e := EscapeInfo([10], [10, 32]);
    var v: Bytes := [13, 10];
    assert v[1..] == [10] && v[0..1] == [13];
    var feed: Bytes := [10];
    assert feed[1..] == [];
    assert Escaped([10], [10], [10, 32]) == [10, 32] + Escaped([], [10], [10, 32]);
    var wire := Wire(v, v, e, rest);
    assert wire == [13, 10, 32] + (v + rest);
    assert wire[..2] == v;
  }
}
