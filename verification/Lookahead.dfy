/** Choosing the message to read from the octets ahead, without taking any. */
module Lookahead {
  import opened Options
  import opened Octets

  datatype Condition = EndOfFile | UntilTerminator(terminator: Bytes) | StaticString(octets: Bytes)

  datatype Rule = Rule(condition: Condition, message: string)

  /** Whether a condition holds, and whether it can still come to hold. */
  datatype Match = Match(valid: bool, permanentlyInvalid: bool)

  function MatchCondition(c: Condition, buffer: Bytes, eof: bool): Match {
    match c
    case EndOfFile =>
      if buffer == [] then (if eof then Match(true, true) else Match(false, false)) else Match(false, true)
    case UntilTerminator(terminator) =>
      if Find(buffer, terminator, 0).Some? then Match(true, false) else Match(false, eof)
    case StaticString(octets) =>
      if |buffer| <= |octets|
      then (if buffer != octets[..|buffer|] then Match(false, true) else Match(false, eof))
      else (if buffer[..|octets|] == octets then Match(true, false) else Match(false, true))
  }

  datatype Result = Chosen(message: string) | ProtocolMismatch | WaitingForRead

  predicate Holds(r: Rule, buffer: Bytes, eof: bool) {
    MatchCondition(r.condition, buffer, eof).valid
  }

  predicate Dead(r: Rule, buffer: Bytes, eof: bool) {
    MatchCondition(r.condition, buffer, eof).permanentlyInvalid
  }

  /**
   What the conditions mean: nothing left at the end of file, the terminator somewhere
   in the buffer, a literal with at least one octet behind it.
   */
  lemma ConditionMeans(r: Rule, buffer: Bytes, eof: bool)
    ensures Holds(r, buffer, eof) <==>
            match r.condition
            case EndOfFile => buffer == [] && eof
            case UntilTerminator(terminator) => exists i: nat :: At(buffer, terminator, i)
            case StaticString(octets) => octets < buffer
  {
    if r.condition.StaticString? && |r.condition.octets| < |buffer| {
      assert buffer[..|r.condition.octets|] == r.condition.octets <==> r.condition.octets <= buffer;
    }
  }

  /** It can come to hold, with more octets or at the end of file. */
  ghost predicate MayHold(r: Rule, buffer: Bytes) {
    exists more: Bytes, eof: bool :: Holds(r, buffer + more, eof)
  }

  /**
   Before the end of file a condition is dead exactly when it can never come to hold;
   at the end of file, when it does not hold, or holds because the end has come.
   */
  lemma DeadMeans(r: Rule, buffer: Bytes)
    ensures Dead(r, buffer, false) <==> !MayHold(r, buffer)
    ensures Dead(r, buffer, true) <==> !Holds(r, buffer, true) || r.condition.EndOfFile?
  {
    ConditionMeans(r, buffer, true);
    if Dead(r, buffer, false) {
      forall more: Bytes, eof: bool ensures !Holds(r, buffer + more, eof) {
        DeadStays(r, buffer, more, eof);
      }
    } else {
      var more := StillMissing(r.condition, buffer);
      Completed(r, buffer, more);
    }
  }

  /** What would make a condition that is not dead hold. */
  function StillMissing(c: Condition, buffer: Bytes): Bytes {
    match c
    case EndOfFile => []
    case UntilTerminator(terminator) => terminator
    case StaticString(octets) => if |buffer| <= |octets| then octets[|buffer|..] + [0] else []
  }

  lemma Completed(r: Rule, buffer: Bytes, more: Bytes)
    requires !Dead(r, buffer, false) && more == StillMissing(r.condition, buffer)
    ensures Holds(r, buffer + more, true)
  {
    var all := buffer + more;
    ConditionMeans(r, all, true);
    match r.condition
    case EndOfFile =>
    case UntilTerminator(terminator) =>
      assert all[|buffer|..|buffer| + |terminator|] == terminator;
      assert At(all, terminator, |buffer|);
    case StaticString(octets) =>
      if |buffer| <= |octets| {
        assert buffer == octets[..|buffer|];
        assert all == octets + [0];
      } else {
        assert all == buffer;
        ConditionMeans(r, buffer, false);
      }
  }

  lemma DeadStays(r: Rule, buffer: Bytes, more: Bytes, eof: bool)
    requires Dead(r, buffer, false)
    ensures !Holds(r, buffer + more, eof)
  {
    var all := buffer + more;
    ConditionMeans(r, all, eof);
    if r.condition.StaticString? && r.condition.octets < all {
      BothPrefixes(r.condition.octets, buffer, all);
    }
  }

  lemma BothPrefixes(a: Bytes, b: Bytes, all: Bytes)
    requires a <= all && b <= all
    ensures if |b| <= |a| then b == a[..|b|] else b[..|a|] == a
  {}

  /** The first rule that holds; a mismatch when none does and none can. */
  ghost predicate Decides(rules: seq<Rule>, buffer: Bytes, eof: bool, r: Result) {
    match r
    case Chosen(message) =>
      exists i :: 0 <= i < |rules| && Holds(rules[i], buffer, eof) && rules[i].message == message
                  && forall j :: 0 <= j < i ==> !Holds(rules[j], buffer, eof)
    case ProtocolMismatch =>
      forall i :: 0 <= i < |rules| ==> !Holds(rules[i], buffer, eof) && Dead(rules[i], buffer, eof)
    case WaitingForRead =>
      && (forall i :: 0 <= i < |rules| ==> !Holds(rules[i], buffer, eof))
      && (exists i :: 0 <= i < |rules| && !Dead(rules[i], buffer, eof))
  }

  /** The first rule that holds, from `from` on. */
  function FirstHolding(rules: seq<Rule>, from: nat, buffer: Bytes, eof: bool): (r: Option<nat>)
    ensures r.Some? ==> from <= r.value < |rules| && Holds(rules[r.value], buffer, eof)
    ensures r.Some? ==> forall i :: from <= i < r.value ==> !Holds(rules[i], buffer, eof)
    ensures r.None? ==> forall i :: from <= i < |rules| ==> !Holds(rules[i], buffer, eof)
    decreases |rules| - from
  {
    if from >= |rules| then None
    else if Holds(rules[from], buffer, eof) then Some(from)
    else FirstHolding(rules, from + 1, buffer, eof)
  }

  /** The decision as a function. */
  function Decision(rules: seq<Rule>, buffer: Bytes, eof: bool): (r: Result)
    ensures Decides(rules, buffer, eof, r)
  {
    match FirstHolding(rules, 0, buffer, eof)
    case Some(i) => Chosen(rules[i].message)
    case None =>
      if forall i :: 0 <= i < |rules| ==> Dead(rules[i], buffer, eof) then ProtocolMismatch else WaitingForRead
  }

  class TransitionLookahead {
    const rules: seq<Rule>
    var buffer: Bytes
    var eof: bool

    constructor (rules: seq<Rule>)
      ensures this.rules == rules && buffer == [] && !eof
    {
      this.rules := rules;
      buffer, eof := [], false;
    }

    /** The buffer is replaced by all there is to read; nothing is consumed. */
    method HandleRead(input: Bytes) returns (consumed: nat)
      modifies this`buffer
      ensures buffer == input && consumed == 0
    {
      buffer := input;
      consumed := 0;
    }

    method HandleEof()
      modifies this`eof
      ensures eof
    {
      eof := true;
    }

    method Call() returns (r: Result)
      ensures r == Decision(rules, buffer, eof)
    {
      ghost var decision := Decision(rules, buffer, eof);
      var allPermanentlyInvalid := true;
      for i := 0 to |rules|
        invariant forall j :: 0 <= j < i ==> !Holds(rules[j], buffer, eof)
        invariant allPermanentlyInvalid <==> forall j :: 0 <= j < i ==> Dead(rules[j], buffer, eof)
      {
        var m := MatchCondition(rules[i].condition, buffer, eof);
        assert m.valid == Holds(rules[i], buffer, eof) && m.permanentlyInvalid == Dead(rules[i], buffer, eof);
        if m.valid {
          DecidesOnce(rules, buffer, eof, Chosen(rules[i].message), decision);
          return Chosen(rules[i].message);
        }
        if !m.permanentlyInvalid {
          allPermanentlyInvalid := false;
        }
      }
      r := if allPermanentlyInvalid then ProtocolMismatch else WaitingForRead;
      DecidesOnce(rules, buffer, eof, r, decision);
    }

    /** Ready exactly when the call gives a value. */
    method ReadyToEvaluate() returns (ready: bool)
      ensures ready <==> Decision(rules, buffer, eof) != WaitingForRead
    {
      ghost var decision := Decision(rules, buffer, eof);
      var allPermanentlyInvalid := true;
      for i := 0 to |rules|
        invariant forall j :: 0 <= j < i ==> !Holds(rules[j], buffer, eof)
        invariant allPermanentlyInvalid <==> forall j :: 0 <= j < i ==> Dead(rules[j], buffer, eof)
      {
        var m := MatchCondition(rules[i].condition, buffer, eof);
        assert m.valid == Holds(rules[i], buffer, eof) && m.permanentlyInvalid == Dead(rules[i], buffer, eof);
        if m.valid {
          return true;
        }
        if !m.permanentlyInvalid {
          allPermanentlyInvalid := false;
        }
      }
      return allPermanentlyInvalid;
    }
  }

  /** There is exactly one result. */
  lemma DecidesOnce(rules: seq<Rule>, buffer: Bytes, eof: bool, r: Result, q: Result)
    requires Decides(rules, buffer, eof, r) && Decides(rules, buffer, eof, q)
    ensures r == q
  {
    if r.Chosen? && q.Chosen? {
      var i :| 0 <= i < |rules| && Holds(rules[i], buffer, eof) && rules[i].message == r.message
               && forall j :: 0 <= j < i ==> !Holds(rules[j], buffer, eof);
      var k :| 0 <= k < |rules| && Holds(rules[k], buffer, eof) && rules[k].message == q.message
               && forall j :: 0 <= j < k ==> !Holds(rules[j], buffer, eof);
      assert i == k;
    }
  }

  // ----- lists of incomparable literals -----

  /** Every rule waits for a literal, and no literal is a prefix of another rule's. */
  ghost predicate Incomparable(rules: seq<Rule>) {
    && (forall i :: 0 <= i < |rules| ==> rules[i].condition.StaticString?)
    && (forall i, j :: 0 <= i < |rules| && 0 <= j < |rules| && i != j ==>
          !(rules[i].condition.octets <= rules[j].condition.octets))
  }

  /** At most one of them holds. */
  lemma OnlyOneHolds(rules: seq<Rule>, buffer: Bytes, eof: bool, i: nat, j: nat)
    requires Incomparable(rules) && i < |rules| && j < |rules|
    requires Holds(rules[i], buffer, eof) && Holds(rules[j], buffer, eof)
    ensures i == j
  {
    var a, b := rules[i].condition.octets, rules[j].condition.octets;
    assert buffer[..|a|] == a && buffer[..|b|] == b;
    assert |a| <= |b| ==> buffer[..|b|][..|a|] == a;
  }

  /** The literal is picked exactly when the buffer extends it by at least one octet. */
  lemma PicksExtendedLiteral(rules: seq<Rule>, buffer: Bytes, eof: bool, i: nat)
    requires Incomparable(rules) && i < |rules|
    requires forall j :: 0 <= j < |rules| && j != i ==> rules[j].message != rules[i].message
    ensures Decides(rules, buffer, eof, Chosen(rules[i].message)) <==> rules[i].condition.octets < buffer
  {
    var octets := rules[i].condition.octets;
    if octets < buffer {
      assert buffer[..|octets|] == octets;
      assert Holds(rules[i], buffer, eof);
      forall j | 0 <= j < i ensures !Holds(rules[j], buffer, eof) {
        if Holds(rules[j], buffer, eof) {
          OnlyOneHolds(rules, buffer, eof, i, j);
        }
      }
    }
    if Decides(rules, buffer, eof, Chosen(rules[i].message)) {
      var k :| 0 <= k < |rules| && Holds(rules[k], buffer, eof) && rules[k].message == rules[i].message;
      assert k == i;
      assert buffer[..|octets|] == octets;
    }
  }

  /** The order of the rules does not matter. */
  lemma OrderIrrelevant(rules: seq<Rule>, others: seq<Rule>, buffer: Bytes, eof: bool, r: Result)
    requires Incomparable(rules) && Incomparable(others)
    requires forall rule :: rule in rules <==> rule in others
    requires Decides(rules, buffer, eof, r)
    ensures Decides(others, buffer, eof, r)
  {
    assert forall i :: 0 <= i < |others| ==> others[i] in rules;
    if r.Chosen? {
      var i :| 0 <= i < |rules| && Holds(rules[i], buffer, eof) && rules[i].message == r.message;
      assert rules[i] in others;
      var k :| 0 <= k < |others| && others[k] == rules[i];
      forall j | 0 <= j < k ensures !Holds(others[j], buffer, eof) {
        if Holds(others[j], buffer, eof) {
          OnlyOneHolds(others, buffer, eof, j, k);
        }
      }
    } else if r.WaitingForRead? {
      var i :| 0 <= i < |rules| && !Dead(rules[i], buffer, eof);
      assert rules[i] in others;
      var k :| 0 <= k < |others| && others[k] == rules[i];
    }
  }

  /** Before the end of file no two rules ever hold together. */
  ghost predicate Exclusive(rules: seq<Rule>) {
    forall i, j, buffer :: 0 <= i < |rules| && 0 <= j < |rules| ==>
      Holds(rules[i], buffer, false) && Holds(rules[j], buffer, false) ==> i == j
  }

  lemma IncomparableExclusive(rules: seq<Rule>)
    requires Incomparable(rules)
    ensures Exclusive(rules)
  {
    forall i, j, buffer | && 0 <= i < |rules| && 0 <= j < |rules|
                          && Holds(rules[i], buffer, false) && Holds(rules[j], buffer, false)
      ensures i == j
    {
      OnlyOneHolds(rules, buffer, false, i, j);
    }
  }

  /** More octets change nothing about one rule that holds or is dead. */
  lemma SettledRule(rule: Rule, buffer: Bytes, more: Bytes)
    ensures Holds(rule, buffer, false) ==> Holds(rule, buffer + more, false)
    ensures Dead(rule, buffer, false) ==> !Holds(rule, buffer + more, false) && Dead(rule, buffer + more, false)
  {
    var longer := buffer + more;
    match rule.condition
    case EndOfFile =>
    case UntilTerminator(terminator) =>
      if Find(buffer, terminator, 0).Some? {
        var i := Find(buffer, terminator, 0).value;
        assert longer[i..i + |terminator|] == buffer[i..i + |terminator|];
        assert At(longer, terminator, i);
      }
    case StaticString(octets) =>
      if |buffer| > |octets| {
        assert longer[..|octets|] == buffer[..|octets|];
      } else if buffer != octets[..|buffer|] {
        var k :| 0 <= k < |buffer| && buffer[k] != octets[k];
        assert longer[k] == buffer[k];
        if |longer| <= |octets| {
          assert octets[..|longer|][k] == octets[k];
        } else {
          assert longer[..|octets|][k] == longer[k];
        }
      }
  }

  /** When no two rules hold together, a decision made before the end of file is not changed by further octets. */
  lemma DecisionStable(rules: seq<Rule>, buffer: Bytes, more: Bytes, r: Result)
    requires Exclusive(rules) && Decides(rules, buffer, false, r) && r != WaitingForRead
    ensures Decides(rules, buffer + more, false, r)
  {
    if r.Chosen? {
      var i :| 0 <= i < |rules| && Holds(rules[i], buffer, false) && rules[i].message == r.message;
      SettledRule(rules[i], buffer, more);
    } else {
      forall i | 0 <= i < |rules|
        ensures !Holds(rules[i], buffer + more, false) && Dead(rules[i], buffer + more, false)
      {
        SettledRule(rules[i], buffer, more);
      }
    }
  }

  /** Exactly the literal is not enough: before the end of file the choice waits, at the end of file it fails. */
  lemma ExactLiteral(rules: seq<Rule>, i: nat, eof: bool)
    requires Incomparable(rules) && i < |rules|
    ensures Decides(rules, rules[i].condition.octets, eof, if eof then ProtocolMismatch else WaitingForRead)
  {
    var buffer := rules[i].condition.octets;
    assert buffer[..|buffer|] == buffer;
    forall j | 0 <= j < |rules| ensures !Holds(rules[j], buffer, eof) && (eof ==> Dead(rules[j], buffer, eof)) {
    }
    assert !eof ==> !Dead(rules[i], buffer, eof);
  }
}
