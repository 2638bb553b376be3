/** Decimal text of integer fields: `std::to_string` out, `std::stoul` or `std::stol` and a cast back. */
module Integers {
  import opened Options
  import opened Octets

  datatype Width = W8 | W16 | W32 | W64

  /** `int<bits, unsigned>` */
  datatype IntegerType = IntegerType(unsigned: bool, width: Width)

  function Modulus(w: Width): (m: int)
    ensures 256 <= m <= 0x1_0000_0000_0000_0000
    ensures m % 2 == 0
  {
    match w
    case W8 => 0x100
    case W16 => 0x1_0000
    case W32 => 0x1_0000_0000
    case W64 => 0x1_0000_0000_0000_0000
  }

  predicate Fits(t: IntegerType, n: int) {
    if t.unsigned then 0 <= n < Modulus(t.width)
    else -(Modulus(t.width) / 2) <= n < Modulus(t.width) / 2
  }

  /** `static_cast` to the field's type. */
  function Cast(t: IntegerType, n: int): (r: int)
    ensures Fits(t, r)
    ensures Fits(t, n) ==> r == n
  {
    var m := Modulus(t.width);
    if !t.unsigned && n % m >= m / 2 then n % m - m else n % m
  }

  /** The cast adds or takes whole multiples of the type's modulus. */
  lemma CastWraps(t: IntegerType, n: int) returns (k: int)
    ensures n == Cast(t, n) + k * Modulus(t.width)
  {
    var m := Modulus(t.width);
    k := Quotient(n, m);
    if !t.unsigned && n % m >= m / 2 {
      k := k + 1;
      assert k * m == (k - 1) * m + m;
    }
  }

  lemma Quotient(n: int, m: int) returns (k: int)
    requires m > 0
    ensures n == n % m + k * m
  {
    k := n / m;
  }

  predicate IsDigit(b: Byte) { 48 <= b <= 57 }

  predicate IsSpace(b: Byte) { b == 32 || 9 <= b <= 13 }

  function SkipSpace(b: Bytes): Bytes {
    if b != [] && IsSpace(b[0]) then SkipSpace(b[1..]) else b
  }

  /** How many octets at the front are digits. */
  function DigitRun(b: Bytes): (n: nat)
    ensures n <= |b|
    ensures forall i :: 0 <= i < n ==> IsDigit(b[i])
    ensures n < |b| ==> !IsDigit(b[n])
  {
    if b != [] && IsDigit(b[0]) then 1 + DigitRun(b[1..]) else 0
  }

  function DigitValue(b: Byte): nat
    requires IsDigit(b)
  {
    b as int - 48
  }

  function NumberOf(digits: Bytes): nat
    requires forall i :: 0 <= i < |digits| ==> IsDigit(digits[i])
  {
    if digits == [] then 0
    else NumberOf(digits[..|digits| - 1]) * 10 + DigitValue(digits[|digits| - 1])
  }

  /** `strtol` without its range: space, a sign, digits, whatever follows. */
  function StrTo(b: Bytes): Option<int> {
    var s := SkipSpace(b);
    var minus := s != [] && s[0] == 45;
    var d := if s != [] && (s[0] == 45 || s[0] == 43) then s[1..] else s;
    var n := DigitRun(d);
    if n == 0 then None else Some(if minus then -(NumberOf(d[..n]) as int) else NumberOf(d[..n]))
  }

  /** What `take_data` stores for an integer field; `None` when `stol` or `stoul` throws. */
  function FromText(t: IntegerType, b: Bytes): Option<int> {
    if b == [] then Some(0)
    else
      var limit := 0x1_0000_0000_0000_0000;
      match StrTo(b)
      case None => None
      case Some(n) =>
        if t.unsigned then if -limit < n < limit then Some(Cast(t, n % limit)) else None
        else if -(limit / 2) <= n < limit / 2 then Some(Cast(t, n)) else None
  }

  lemma {:induction false} DigitsRead(n: nat)
    ensures forall i :: 0 <= i < |Digits(n)| ==> IsDigit(Digits(n)[i])
    ensures NumberOf(Digits(n)) == n
    decreases n
  {
    if n >= 10 {
      DigitsRead(n / 10);
      assert Digits(n)[..|Digits(n)| - 1] == Digits(n / 10);
    } else {
      assert Digits(n)[..0] == [];
    }
  }

  /** No other digits without a leading zero write the number. */
  lemma {:induction false} DigitsCanonical(d: Bytes)
    requires AllDigits(d) && d != [] && (|d| > 1 ==> d[0] != 48)
    ensures d == Digits(NumberOf(d))
    decreases |d|
  {
    var front, last := d[..|d| - 1], d[|d| - 1];
    assert d == front + [last] && IsDigit(last);
    if front == [] {
      assert NumberOf([]) == 0;
    } else {
      DigitsCanonical(front);
      Positive(front);
      assert NumberOf(d) / 10 == NumberOf(front) && NumberOf(d) % 10 == DigitValue(last);
    }
  }

  lemma {:induction false} Positive(d: Bytes)
    requires AllDigits(d) && d != [] && d[0] != 48
    ensures NumberOf(d) > 0
    decreases |d|
  {
    assert IsDigit(d[0]);
    if |d| > 1 {
      Positive(d[..|d| - 1]);
    } else {
      assert d[..0] == [];
    }
  }

  /** A whole string of digits is one run. */
  lemma {:induction false} RunOfDigits(b: Bytes)
    requires forall i :: 0 <= i < |b| ==> IsDigit(b[i])
    ensures DigitRun(b) == |b|
    decreases |b|
  {
    if b != [] {
      assert IsDigit(b[0]);
      RunOfDigits(b[1..]);
    }
  }

  ghost predicate AllDigits(b: Bytes) {
    forall i :: 0 <= i < |b| ==> IsDigit(b[i])
  }

  /** Digits are read as the number they write. */
  lemma DigitsParse(d: Bytes)
    requires d != [] && AllDigits(d)
    ensures StrTo(d) == Some(NumberOf(d))
  {
    RunOfDigits(d);
    assert IsDigit(d[0]);
    assert SkipSpace(d) == d;
    assert d[..|d|] == d;
  }

  /** Digits behind a minus are read as its opposite. */
  lemma MinusParses(b: Bytes)
    requires |b| > 1 && b[0] == 45 && AllDigits(b[1..])
    ensures StrTo(b) == Some(-(NumberOf(b[1..]) as int))
  {
    var d := b[1..];
    RunOfDigits(d);
    assert SkipSpace(b) == b;
    assert d[..|d|] == d;
  }

  /** `to_string` is undone by `strtol`. */
  lemma DecimalParses(n: int)
    ensures Decimal(n) != [] && StrTo(Decimal(n)) == Some(n)
  {
    var d := Digits(if n < 0 then -n else n);
    DigitsRead(if n < 0 then -n else n);
    if n < 0 {
      var b := Decimal(n);
      assert b[1..] == d;
      MinusParses(b);
    } else {
      DigitsParse(d);
    }
  }

  /** Every integer the field can hold survives being written and read back. */
  lemma IntegerRoundTrip(t: IntegerType, n: int)
    requires Fits(t, n)
    ensures FromText(t, Decimal(n)) == Some(n)
  {
    DecimalParses(n);
  }

  // ----- any text -----

  ghost predicate AllSpace(b: Bytes) {
    forall i :: 0 <= i < |b| ==> IsSpace(b[i])
  }

  /** How many octets at the front are digits, when something else ends them. */
  lemma {:induction false} RunEnds(digits: Bytes, tail: Bytes)
    requires AllDigits(digits) && (tail == [] || !IsDigit(tail[0]))
    ensures DigitRun(digits + tail) == |digits|
    decreases |digits|
  {
    if digits == [] {
      assert digits + tail == tail;
    } else {
      assert IsDigit(digits[0]);
      assert (digits + tail)[1..] == digits[1..] + tail;
      RunEnds(digits[1..], tail);
    }
  }

  lemma {:induction false} SpaceSkipped(space: Bytes, more: Bytes)
    requires AllSpace(space) && (more == [] || !IsSpace(more[0]))
    ensures SkipSpace(space + more) == more
    decreases |space|
  {
    if space == [] {
      assert space + more == more;
    } else {
      assert IsSpace(space[0]);
      assert (space + more)[1..] == space[1..] + more;
      SpaceSkipped(space[1..], more);
    }
  }

  /** The number of some digits behind a sign, if there are any digits. */
  function Signed(sign: Bytes, digits: Bytes): Option<int>
    requires AllDigits(digits)
  {
    if digits == [] then None else Some(if sign == [45] then -(NumberOf(digits) as int) else NumberOf(digits))
  }

  /**
   What `strtol` makes of space, a sign or none, digits, and whatever else follows: the
   signed number of the digits, or nothing when there are none.
   */
  lemma StrToMeans(space: Bytes, sign: Bytes, digits: Bytes, tail: Bytes)
    requires AllSpace(space) && sign in {[], [43], [45]} && AllDigits(digits)
    requires tail == [] || !IsDigit(tail[0])
    requires digits == [] && sign == [] ==> tail == [] || (!IsSpace(tail[0]) && tail[0] !in {43, 45})
    ensures StrTo(space + (sign + (digits + tail))) == Signed(sign, digits)
  {
    var behind := digits + tail;
    var s := sign + behind;
    assert s == [] || !IsSpace(s[0]);
    SpaceSkipped(space, s);
    RunEnds(digits, tail);
    if sign == [] {
      assert s == behind;
    } else {
      assert s[0] == sign[0] && s[1..] == behind;
    }
    assert behind[..|digits|] == digits;
  }

  /**
   What an integer field becomes: the cast of its number when `stol` or `stoul` has one
   in its range, zero for no text at all, and nothing, where the code throws, otherwise.
   */
  lemma FieldMeans(t: IntegerType, space: Bytes, sign: Bytes, digits: Bytes, tail: Bytes)
    requires AllSpace(space) && sign in {[], [43], [45]} && AllDigits(digits)
    requires tail == [] || !IsDigit(tail[0])
    requires digits == [] && sign == [] ==> tail == [] || (!IsSpace(tail[0]) && tail[0] !in {43, 45})
    ensures var b := space + (sign + (digits + tail));
            var n := Signed(sign, digits);
            FromText(t, b)
            == if b == [] then Some(0)
               else if n.None? || !InRange(t, n.value) then None
               else Some(Cast(t, if t.unsigned then n.value % 0x1_0000_0000_0000_0000 else n.value))
  {
    StrToMeans(space, sign, digits, tail);
  }

  /** `stoul` takes a minus and any 64-bit magnitude; `stol` what a signed 64-bit integer holds. */
  predicate InRange(t: IntegerType, n: int) {
    if t.unsigned then -0x1_0000_0000_0000_0000 < n < 0x1_0000_0000_0000_0000
    else -0x8000_0000_0000_0000 <= n < 0x8000_0000_0000_0000
  }
}
