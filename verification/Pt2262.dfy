/** The backward decoder of rf/pt2262.c: a word of twelve ternary digits. */
module Pt2262 {
  import opened Options
  import opened Ring

  predicate Long(x: nat) { 20 < x < 30 }

  predicate Short(x: nat) { 5 < x < 15 }

  /** `pt2262Bit`: a digit, or 3 for none. */
  function TernaryBit(b1: nat, b2: nat, b3: nat, b4: nat): nat {
    if Long(b1) && Short(b2) && Long(b3) && Short(b4) then 0
    else if Short(b1) && Long(b2) && Short(b3) && Long(b4) then 1
    else if Short(b1) && Long(b2) && Long(b3) && Short(b4) then 2
    else 3
  }

  function DigitAt(counts: seq<nat>, i: nat): nat
    requires 4 * i + 4 <= |counts|
  {
    TernaryBit(counts[4 * i], counts[4 * i + 1], counts[4 * i + 2], counts[4 * i + 3])
  }

  /** A word of ternary digits, the lowest one first: the one sent last. */
  predicate Word(digits: seq<nat>) {
    forall i :: 0 <= i < |digits| ==> digits[i] < 3
  }

  /** The first n groups of four counts as digits; nothing if one is none. */
  function Digits(counts: seq<nat>, n: nat): (r: Option<seq<nat>>)
    requires 4 * n <= |counts|
    ensures r.Some? ==> |r.value| == n && Word(r.value)
    decreases n, |counts|
  {
    if n == 0 then Some([])
    else
      var front, digit := Digits(counts, n - 1), DigitAt(counts, n - 1);
      if front.None? || digit == 3 then None else Some(front.value + [digit])
  }

  function Pow3(n: nat): (p: nat)
    ensures p >= 1
  {
    if n == 0 then 1 else 3 * Pow3(n - 1)
  }

  /** The number whose ternary digits are the word. */
  function Value(digits: seq<nat>): nat
    decreases |digits|
  {
    if digits == [] then 0 else digits[0] + 3 * Value(digits[1..])
  }

  /** The n ternary digits of a number. */
  function DigitsOf(value: nat, n: nat): (digits: seq<nat>)
    ensures |digits| == n && Word(digits)
    decreases n
  {
    if n == 0 then [] else [value % 3] + DigitsOf(value / 3, n - 1)
  }

  lemma {:induction false} ValueSnoc(digits: seq<nat>, digit: nat)
    ensures Value(digits + [digit]) == Value(digits) + digit * Pow3(|digits|)
    decreases |digits|
  {
    if digits != [] {
      ValueSnoc(digits[1..], digit);
      assert (digits + [digit])[1..] == digits[1..] + [digit];
      assert digit * (3 * Pow3(|digits| - 1)) == 3 * (digit * Pow3(|digits| - 1));
    }
  }

  lemma {:induction false} ValueBound(digits: seq<nat>)
    requires Word(digits)
    ensures Value(digits) < Pow3(|digits|)
    decreases |digits|
  {
    if digits != [] {
      ValueBound(digits[1..]);
    }
  }

  /**
   Words of n digits and numbers below 3^n stand for each other: the number of a word has that
   word as its digits, and every such number is the number of its digits.
   */
  lemma {:induction false} WordsAreNumbers(digits: seq<nat>, value: nat, n: nat)
    requires Word(digits) && |digits| == n
    ensures Value(digits) < Pow3(n) && DigitsOf(Value(digits), n) == digits
    ensures value < Pow3(n) ==> Value(DigitsOf(value, n)) == value
    decreases n
  {
    ValueBound(digits);
    if n > 0 {
      var rest := Value(digits[1..]);
      assert (digits[0] + 3 * rest) % 3 == digits[0] && (digits[0] + 3 * rest) / 3 == rest;
      WordsAreNumbers(digits[1..], value / 3, n - 1);
      assert digits == [digits[0]] + digits[1..];
      assert DigitsOf(value, n)[1..] == DigitsOf(value / 3, n - 1);
    }
  }

  lemma {:induction false} NoneStays(counts: seq<nat>, n: nat, m: nat)
    requires n <= m && 4 * m <= |counts| && Digits(counts, n) == None
    ensures Digits(counts, m) == None
    decreases m
  {
    if n < m {
      NoneStays(counts, n, m - 1);
    }
  }

  /** What `parsePt2262` makes of the counts. */
  function Pt2262Data(counts: seq<nat>): Option<nat>
    requires |counts| == 48
  {
    var digits := Digits(counts, 12);
    if digits.None? then None else Some(Value(digits.value))
  }

  lemma {:induction false} DigitStep(counts: seq<nat>, digits: seq<nat>, i: nat)
    requires |counts| == 48 && i < 12 && Digits(counts, i) == Some(digits)
    ensures DigitAt(counts, i) == 3 ==> Pt2262Data(counts) == None
    ensures DigitAt(counts, i) != 3 ==> Digits(counts, i + 1) == Some(digits + [DigitAt(counts, i)])
  {
    if DigitAt(counts, i) == 3 {
      NoneStays(counts, i + 1, 12);
    }
  }

  /** The four counts of one digit. */
  method ReadDigit(ring: seq<bv8>, scanP: nat, scanBit: bv8, ghost start: Pos, ghost digits: seq<nat>)
    returns (digit: nat, p: nat, b: bv8)
    requires IsRing(ring) && IsPos(start) && |digits| < 12
    requires Digits(Counts(ring, start, 48), |digits|) == Some(digits)
    requires Points(scanP, scanBit, PosAfter(ring, start, 4 * |digits|))
    ensures digit == 3 ==> Pt2262Data(Counts(ring, start, 48)) == None
    ensures digit != 3 ==>
              && Digits(Counts(ring, start, 48), |digits| + 1) == Some(digits + [digit])
              && Points(p, b, PosAfter(ring, start, 4 * (|digits| + 1)))
  {
    digit, p, b := NextDigit(ring, scanP, scanBit, start, |digits|);
    DigitStep(Counts(ring, start, 48), digits, |digits|);
  }

  method NextDigit(ring: seq<bv8>, scanP: nat, scanBit: bv8, ghost start: Pos, ghost i: nat)
    returns (digit: nat, p: nat, b: bv8)
    requires IsRing(ring) && IsPos(start) && i < 12 && Points(scanP, scanBit, PosAfter(ring, start, 4 * i))
    ensures digit == DigitAt(Counts(ring, start, 48), i) && Points(p, b, PosAfter(ring, start, 4 * (i + 1)))
  {
    var b1, b2, b3, b4;
    b1, b2, b3, b4, p, b := CountFour(ring, scanP, scanBit, start, 4 * i, 48);
    digit := TernaryBit(b1, b2, b3, b4);
  }

  /** `data += (ternary * power)`. */
  method AddDigit(data0: nat, power: nat, ternary: nat, ghost digits: seq<nat>) returns (data: nat)
    requires data0 == Value(digits) && power == Pow3(|digits|)
    ensures data == Value(digits + [ternary])
  {
    ValueSnoc(digits, ternary);
    data := data0 + ternary * power;
  }

  /** `parsePt2262`. */
  method Parse(ring: seq<bv8>, scanP: nat, scanBit: bv8, ghost pos: Pos) returns (message: Option<nat>)
    requires IsRing(ring) && Points(scanP, scanBit, pos)
    ensures message == Pt2262Data(Counts(ring, AfterLast(ring, pos), 48))
  {
    ghost var start := AfterLast(ring, pos);
    ghost var counts := Counts(ring, start, 48);
    ghost var digits: seq<nat> := [];
    var p, b := SkipLast(ring, scanP, scanBit, pos);
    var data, power := 0, 1;
    var i := 0;
    while i < 12
      invariant 0 <= i <= 12 && |digits| == i && Points(p, b, PosAfter(ring, start, 4 * i))
      invariant Digits(counts, i) == Some(digits) && data == Value(digits) && power == Pow3(i)
    {
      var ternary;
      ternary, p, b := ReadDigit(ring, p, b, start, digits);
      if ternary == 3 {
        return None;
      }
      data := AddDigit(data, power, ternary, digits);
      power := power * 3;
      digits := digits + [ternary];
      i := i + 1;
    }
    message := Some(data);
  }

  // ---------------------------------------------------------------- words sent

  /** Four pulses that send a digit, in the order in which they are counted. */
  predicate GroupFor(b1: nat, b2: nat, b3: nat, b4: nat, digit: nat) {
    && (if digit == 0 then 21 <= b1 <= 29 else 6 <= b1 <= 14) && (if digit == 0 then 6 <= b2 <= 14 else 21 <= b2 <= 29)
    && (if digit == 1 then 6 <= b3 <= 14 else 21 <= b3 <= 29) && (if digit == 1 then 21 <= b4 <= 29 else 6 <= b4 <= 14)
  }

  /** Counts of the pulses that send the first n digits. */
  predicate Sends(counts: seq<nat>, digits: seq<nat>, n: nat)
    requires n <= |digits| && 4 * n <= |counts|
    decreases n
  {
    n > 0 ==>
      && GroupFor(counts[4 * n - 4], counts[4 * n - 3], counts[4 * n - 2], counts[4 * n - 1], digits[n - 1])
      && Sends(counts, digits, n - 1)
  }

  lemma {:induction false} DigitsSent(counts: seq<nat>, digits: seq<nat>, n: nat)
    requires n <= |digits| && 4 * n <= |counts| && Word(digits) && Sends(counts, digits, n)
    ensures Digits(counts, n) == Some(digits[..n])
    decreases n
  {
    if n > 0 {
      DigitsSent(counts, digits, n - 1);
      assert digits[..n - 1] + [digits[n - 1]] == digits[..n];
      assert digits[n - 1] < 3;
    }
  }

  /** Every word of twelve digits comes back as its number, and no other word gives that number. */
  lemma {:induction false} DecodesWord(digits: seq<nat>, counts: seq<nat>, other: seq<nat>)
    requires |counts| == 48 && |digits| == |other| == 12 && Word(digits) && Word(other)
    requires Sends(counts, digits, 12)
    ensures Pt2262Data(counts) == Some(Value(digits)) && Value(digits) < 531441
    ensures Pt2262Data(counts) == Some(Value(other)) ==> other == digits
  {
    DigitsSent(counts, digits, 12);
    assert digits[..12] == digits;
    WordsAreNumbers(digits, 0, 12);
    WordsAreNumbers(other, 0, 12);
    Twelve(12);
  }

  /** Digits are only read from counts that send them. */
  lemma {:induction false} DigitsAreSent(counts: seq<nat>, digits: seq<nat>, n: nat)
    requires n <= |digits| && 4 * n <= |counts| && Digits(counts, n) == Some(digits[..n])
    ensures Sends(counts, digits, n)
    decreases n
  {
    if n > 0 {
      assert digits[..n][..n - 1] == digits[..n - 1];
      DigitsAreSent(counts, digits, n - 1);
    }
  }

  /** Whatever is sent on was sent. */
  lemma {:induction false} OnlyWords(counts: seq<nat>) returns (digits: seq<nat>)
    requires |counts| == 48 && Pt2262Data(counts).Some?
    ensures |digits| == 12 && Word(digits) && Sends(counts, digits, 12) && Pt2262Data(counts) == Some(Value(digits))
  {
    digits := Digits(counts, 12).value;
    assert digits[..12] == digits;
    DigitsAreSent(counts, digits, 12);
  }

  lemma {:induction false} Twelve(n: nat)
    requires n == 12
    ensures Pow3(n) == 531441
  {
    assert Pow3(2) == 3 * Pow3(1) == 9;
    assert Pow3(4) == 3 * Pow3(3) == 81;
    assert Pow3(6) == 3 * Pow3(5) == 729;
    assert Pow3(8) == 3 * Pow3(7) == 6561;
    assert Pow3(10) == 3 * Pow3(9) == 59049;
    assert Pow3(12) == 3 * Pow3(11) == 531441;
  }
}
