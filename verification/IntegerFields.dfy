/** What a generated reader of an integer field makes of the integer sent for it. */
module IntegerFields {
  import opened Options
  import opened Octets
  import opened Integers
  import opened DataTypes
  import T = Translate
  import opened Values
  import opened ReadOperations
  import opened Reading
  import opened Evaluator
  import opened Generation
  import opened Receiving
  import opened MemberFields

  /** The reader's digits: nine is not one of them. */
  predicate Low(b: Byte) { 48 <= b < 57 }

  // ----- digits -----

  lemma {:induction false} LowDigitsAre(stream: Bytes)
    ensures forall i :: 0 <= i < LowDigits(stream) ==> Low(stream[i])
    ensures LowDigits(stream) < |stream| ==> !Low(stream[LowDigits(stream)])
    decreases |stream|
  {
    if stream != [] && Low(stream[0]) {
      LowDigitsAre(stream[1..]);
    }
  }

  /** The digits taken are the octets before the first that is not low. */
  lemma LowDigitsEnd(stream: Bytes, k: nat)
    requires k < |stream| && !Low(stream[k]) && forall i :: 0 <= i < k ==> Low(stream[i])
    ensures LowDigits(stream) == k
  {
    LowDigitsAre(stream);
  }

  /** More digits make a number that is not smaller. */
  lemma {:induction false} NumberGrows(digits: Bytes, k: nat)
    requires AllDigits(digits) && k <= |digits|
    ensures NumberOf(digits[..k]) <= NumberOf(digits)
    ensures k < |digits| && 0 < NumberOf(digits[..k]) ==> NumberOf(digits[..k]) < NumberOf(digits)
    decreases |digits|
  {
    if k < |digits| {
      var front := digits[..|digits| - 1];
      assert front[..k] == digits[..k];
      NumberGrows(front, k);
    } else {
      assert digits[..k] == digits;
    }
  }

  /** A nine behind them makes it bigger. */
  lemma NineGrows(digits: Bytes, k: nat)
    requires AllDigits(digits) && k < |digits| && digits[k] == 57
    ensures NumberOf(digits[..k]) < NumberOf(digits)
  {
    var front := digits[..k + 1];
    assert front[..k] == digits[..k];
    NumberGrows(digits, k + 1);
  }

  /** What the integer reader makes of the digits it took. */
  lemma IntegerOfDigits(digits: Bytes)
    requires AllDigits(digits)
    ensures IntegerOf(digits).Int? ==> digits != [] && IntegerOf(digits) == Int(NumberOf(digits))
    ensures IntegerOf(digits).Int? && NumberOf(digits) == 0 ==> digits == [48]
    ensures digits != [] && 0 < NumberOf(digits) <= 0x7FFF_FFFF ==> IntegerOf(digits) == Int(NumberOf(digits))
    ensures NumberOf(digits) > 0x7FFF_FFFF ==> !IntegerOf(digits).Int?
  {
    if digits != [] {
      DigitsParse(digits);
      hide StrTo;
      if digits == [48] { assert digits[..0] == []; }
    }
  }

  // ----- one integer -----

  /** Whether the reader gives back the integer. */
  predicate Survives(n: int, terminator: Bytes)
    requires terminator != []
  {
    0 <= n <= 0x7FFF_FFFF && 57 !in Decimal(n) && !Low(terminator[0])
  }

  /** A negative one: no digit is taken, and no digits are no number. */
  lemma NegativeFails(n: int, stream: Bytes)
    requires n < 0 && Decimal(n) <= stream
    ensures LowDigits(stream) == 0 && !IntegerOf(stream[..0]).Int?
  {}

  /** With a nine in it: the digits before the nine are a smaller number. */
  lemma NineFails(n: nat, stream: Bytes)
    requires Decimal(n) <= stream && 57 in Decimal(n)
    ensures LowDigits(stream) < |stream| && IntegerOf(stream[..LowDigits(stream)]) != Int(n)
  {
    var d, k := Decimal(n), LowDigits(stream);
    DigitsRead(n);
    LowDigitsAre(stream);
    var i :| 0 <= i < |d| && d[i] == 57;
    assert stream[i] == d[i];
    assert !Low(stream[k]) && IsDigit(d[k]) && stream[k] == d[k];
    assert d[..k] == stream[..k];
    NineGrows(d, k);
    IntegerOfDigits(d[..k]);
  }

  /** Behind it a digit: it is taken too, and makes another number or, after a zero, none. */
  lemma DigitFails(n: nat, stream: Bytes)
    requires Decimal(n) <= stream && 57 !in Decimal(n) && |Decimal(n)| < |stream| && Low(stream[|Decimal(n)|])
    ensures IntegerOf(stream[..LowDigits(stream)]) != Int(n)
  {
    var d, k := Decimal(n), LowDigits(stream);
    DigitsRead(n);
    LowDigitsAre(stream);
    forall i | 0 <= i <= |d| ensures Low(stream[i]) {
      if i < |d| {
        assert stream[i] == d[i] && IsDigit(d[i]);
      }
    }
    assert k > |d|;
    var taken := stream[..k];
    assert taken[..|d|] == d;
    NumberGrows(taken, |d|);
    IntegerOfDigits(taken);
  }

  /** Otherwise just its digits are taken, and they are the integer if it has at most 31 bits. */
  lemma DigitsSuffice(n: nat, stream: Bytes)
    requires Decimal(n) <= stream && 57 !in Decimal(n) && |Decimal(n)| < |stream| && !Low(stream[|Decimal(n)|])
    ensures LowDigits(stream) == |Decimal(n)|
    ensures IntegerOf(stream[..LowDigits(stream)]) == Int(n) <==> n <= 0x7FFF_FFFF
  {
    var d := Decimal(n);
    DigitsRead(n);
    forall i | 0 <= i < |d| ensures Low(stream[i]) {
      assert stream[i] == d[i] && IsDigit(d[i]);
    }
    LowDigitsEnd(stream, |d|);
    assert stream[..|d|] == d;
    IntegerOfDigits(d);
  }

  /**
   What the integer reader makes of an integer sent with its terminator: the integer
   if and only if it is not negative, has at most 31 bits and no digit nine, and the
   terminator does not start with another digit. It takes only the digits then.
   */
  lemma IntegerDecides(n: int, terminator: Bytes, rest: Bytes, stream: Bytes)
    requires terminator != [] && stream == Decimal(n) + (terminator + rest)
    ensures var decided := Decide(ReadIntFromAscii, stream);
            && (decided.Some? && decided.value.0 == Int(n) <==> Survives(n, terminator))
            && (Survives(n, terminator) ==> decided.value.1 == |Decimal(n)|)
  {
    hide IntegerOf, LowDigits, Decimal;
    assert Decimal(n) <= stream && stream[|Decimal(n)|] == terminator[0];
    if n < 0 {
      NegativeFails(n, stream);
    } else if 57 in Decimal(n) {
      NineFails(n, stream);
    } else if Low(terminator[0]) {
      DigitFails(n, stream);
    } else {
      DigitsSuffice(n, stream);
    }
  }

  // ----- the generated reader -----

  /** The outcome has the integer in the variable and these octets left. */
  ghost predicate Got(o: Outcome, pads: seq<Pad>, b: nat, name: string, n: int)
    requires b < |pads|
  {
    o.Evaluated? && o.world.pads == Assigned(pads, b, name, Int(n))
  }

  /**
   The generated reader of an integer field, on the integer and the terminator sent
   for it and whatever follows: the variable becomes the integer exactly when the
   integer survives, and then the terminator is still to be read, so the reader never
   both gets the integer and takes what was sent for it.
   */
  lemma IntegerFieldRead(fuel: nat, a: T.Action, types: Types, n: int, rest: Bytes, b: nat, pad: nat, w: World,
                         answers: Answers)
    requires a.ReadOctetsUntilTerminator? && a.identifier.member.None? && a.terminator != []
    requires a.identifier.name in types && types[a.identifier.name].IntType?
    requires Binder(w.pads, pad, a.identifier.name) == Some(b)
    requires Concat(w.input) == Decimal(n) + (a.terminator + rest)
    ensures ReadNode(a, types).Some?
    ensures var o := Eval(fuel, ReadNode(a, types).value, pad, w, answers);
            && (Got(o, w.pads, b, a.identifier.name, n) <==> Survives(n, a.terminator))
            && (Survives(n, a.terminator) ==> Concat(o.world.input) == a.terminator + rest)
            && !(Got(o, w.pads, b, a.identifier.name, n) && Concat(o.world.input) == rest)
  {
    hide Eval, FinishRead, Concat, Decide, Decimal, Survives;
    var stream := Concat(w.input);
    IntegerDecides(n, a.terminator, rest, stream);
    assert stream[|Decimal(n)|..] == a.terminator + rest;
    ReadIsDecided(ReadIntFromAscii, w);
    IntegerStored(fuel, a, types, b, pad, w, answers);
    NotEmpty(w, stream);
    var read := FinishRead(ReadIntFromAscii, w);
    if read.Evaluated? {
      AssignedIs(w.pads, b, a.identifier.name, Int(n), read.value);
    }
    assert |a.terminator + rest| > |rest|;
  }

  lemma NotEmpty(w: World, stream: Bytes)
    requires Concat(w.input) == stream && stream != []
    ensures w.input != []
  {}

  /** The field's node: what was read goes to the variable; a read that fails fails. */
  lemma IntegerStored(fuel: nat, a: T.Action, types: Types, b: nat, pad: nat, w: World, answers: Answers)
    requires a.ReadOctetsUntilTerminator? && a.identifier.member.None?
    requires a.identifier.name in types && types[a.identifier.name].IntType?
    requires Binder(w.pads, pad, a.identifier.name) == Some(b)
    ensures ReadNode(a, types).Some?
    ensures var read := FinishRead(ReadIntFromAscii, w);
            var o := Eval(fuel, ReadNode(a, types).value, pad, w, answers);
            if read.Evaluated?
            then o.Evaluated? && o.world == read.world.(pads := Assigned(w.pads, b, a.identifier.name, read.value))
            else !o.Evaluated?
  {
    hide FinishRead;
    var child := ReadValue(IntType, a.terminator, a.escape).value;
    ReaderReads(fuel, IntType, a.terminator, a.escape, pad, w, answers);
    var read := FinishRead(ReadIntFromAscii, w);
    if read.Evaluated? {
      FieldStored(fuel, a.identifier.name, child, b, pad, w, answers);
    } else {
      assert !Eval(fuel, Node(LexicalPadSet(a.identifier.name), [child]), pad, w, answers).Evaluated?;
    }
  }

  /** The integer 19, sent with CR LF, is read as 1, and the nine and CR LF are left. */
  lemma NineteenIsOne(fuel: nat, a: T.Action, types: Types, rest: Bytes, b: nat, pad: nat, w: World, answers: Answers)
    requires a.ReadOctetsUntilTerminator? && a.identifier.member.None? && a.terminator == [13, 10]
    requires a.identifier.name in types && types[a.identifier.name].IntType?
    requires Binder(w.pads, pad, a.identifier.name) == Some(b)
    requires Concat(w.input) == Decimal(19) + ([13, 10] + rest)
    ensures ReadNode(a, types).Some?
    ensures var o := Eval(fuel, ReadNode(a, types).value, pad, w, answers);
            Got(o, w.pads, b, a.identifier.name, 1) && Concat(o.world.input) == [57, 13, 10] + rest
  {
    var stream := Concat(w.input);
    assert Decimal(19) == [49, 57];
    LowDigitsEnd(stream, 1);
    assert stream[..1] == [49] && stream[1..] == [57, 13, 10] + rest;
    OneIsOne();
    hide Eval, FinishRead, Concat, LowDigits, IntegerOf, Decimal;
    DecidedRead(ReadIntFromAscii, w, Int(1), 1);
    IntegerStored(fuel, a, types, b, pad, w, answers);
  }

  lemma OneIsOne()
    ensures IntegerOf([49]) == Int(1)
  {
    var one: Bytes := [49];
    assert one[..0] == [] && NumberOf(one) == 1;
    IntegerOfDigits(one);
  }
}
