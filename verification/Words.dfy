/**
 Fixed-width words as the firmware handles them. A word is a natural number; where the width
 matters, the wrap-around is written out at the place where it happens. The number of a sequence
 of binary digits is given for both orders, lowest digit first as most registers are filled, and
 highest first as most frames are sent; the lemmas say how it changes with one more digit at
 either end, that it determines the digits, and that or-ing in a bit above all the others is an
 addition. Sequences are reversed by the decoders that read frames backwards.
 */
module Words {
  import opened Sequences

  function Pow2(n: nat): (p: nat)
    ensures p >= 1
  {
    if n == 0 then 1 else 2 * Pow2(n - 1)
  }

  function Bit(b: bool): nat {
    if b then 1 else 0
  }

  /** `word |= mask`, for a mask that is a single bit. */
  function SetBit(word: nat, mask: nat): nat
    requires mask > 0
  {
    if (word / mask) % 2 == 1 then word else word + mask
  }

  /** `mask <<= 1` in 32 bits. */
  function Doubled(mask: nat): nat {
    if 2 * mask < 0x1_0000_0000 then 2 * mask else (2 * mask) % 0x1_0000_0000
  }

  lemma {:induction false} Doubles(i: nat)
    requires i < 32
    ensures Pow2(i) <= 0x8000_0000 && (i < 31 ==> Doubled(Pow2(i)) == Pow2(i + 1))
  {
    PowerAtMost(i, 31);
    if i < 31 {
      PowerAtMost(i + 1, 31);
    }
    Power31();
  }

  lemma {:induction false} PowerAtMost(i: nat, n: nat)
    requires i <= n
    ensures Pow2(i) <= Pow2(n)
  {
    if i < n {
      PowerAtMost(i, n - 1);
    }
  }

  lemma {:induction false} Power31()
    ensures Pow2(31) == 0x8000_0000
  {
    assert Pow2(8) == 2 * Pow2(7) == 4 * Pow2(6) == 8 * Pow2(5) == 256;
    assert Pow2(16) == 2 * Pow2(15) == 4 * Pow2(14) == 8 * Pow2(13) == 16 * Pow2(12) == 32 * Pow2(11) == 64 * Pow2(10)
           == 128 * Pow2(9) == 256 * Pow2(8);
    assert Pow2(24) == 2 * Pow2(23) == 4 * Pow2(22) == 8 * Pow2(21) == 16 * Pow2(20) == 32 * Pow2(19) == 64 * Pow2(18)
           == 128 * Pow2(17) == 256 * Pow2(16);
    assert Pow2(31) == 2 * Pow2(30) == 4 * Pow2(29) == 8 * Pow2(28) == 16 * Pow2(27) == 32 * Pow2(26) == 64 * Pow2(25)
           == 128 * Pow2(24);
  }

  /** The number whose binary digits are `bits`, least significant first. */
  function LsbValue(bits: seq<bool>): nat {
    if bits == [] then 0 else Bit(bits[0]) + 2 * LsbValue(bits[1..])
  }

  /** The number whose binary digits are `bits`, most significant first. */
  function MsbValue(bits: seq<bool>): nat {
    if bits == [] then 0 else 2 * MsbValue(bits[..|bits| - 1]) + Bit(bits[|bits| - 1])
  }

  lemma {:induction false} LsbAppend(bits: seq<bool>, b: bool)
    ensures LsbValue(bits + [b]) == LsbValue(bits) + if b then Pow2(|bits|) else 0
  {
    if bits == [] {
    } else {
      LsbAppend(bits[1..], b);
      assert (bits + [b])[1..] == bits[1..] + [b];
    }
  }

  lemma {:induction false} LsbBound(bits: seq<bool>)
    ensures LsbValue(bits) < Pow2(|bits|)
  {
    if bits != [] {
      LsbBound(bits[1..]);
    }
  }

  lemma {:induction false} LsbInjective(a: seq<bool>, b: seq<bool>)
    requires |a| == |b| && LsbValue(a) == LsbValue(b)
    ensures a == b
  {
    if a != [] {
      assert a[0] == b[0];
      LsbInjective(a[1..], b[1..]);
      assert a == [a[0]] + a[1..];
      assert b == [b[0]] + b[1..];
    }
  }

  lemma {:induction false} MsbIsReversedLsb(bits: seq<bool>)
    ensures MsbValue(bits) == LsbValue(Reverse(bits))
  {
    if bits != [] {
      var n := |bits| - 1;
      MsbIsReversedLsb(bits[..n]);
      assert Reverse(bits)[1..] == Reverse(bits[..n]);
    }
  }

  lemma {:induction false} MsbInjective(a: seq<bool>, b: seq<bool>)
    requires |a| == |b| && MsbValue(a) == MsbValue(b)
    ensures a == b
  {
    var n := |a| - 1;
    if n >= 0 {
      assert a[n] == b[n];
      MsbInjective(a[..n], b[..n]);
      assert a == a[..n] + [a[n]];
      assert b == b[..n] + [b[n]];
    }
  }

  lemma {:induction false} MulDouble(a: nat, p: nat)
    ensures a * (2 * p) == 2 * (a * p)
  {
  }

  lemma {:induction false} MsbAppend(a: seq<bool>, b: seq<bool>)
    ensures MsbValue(a + b) == MsbValue(a) * Pow2(|b|) + MsbValue(b)
  {
    if b == [] {
      assert a + b == a;
    } else {
      var n := |b| - 1;
      MsbAppend(a, b[..n]);
      assert (a + b)[..|a + b| - 1] == a + b[..n];
      var p := Pow2(n);
      assert Pow2(|b|) == 2 * p;
      MulDouble(MsbValue(a), p);
    }
  }

  lemma {:induction false} SetBitAbove(word: nat, mask: nat)
    requires word < mask
    ensures SetBit(word, mask) == word + mask
  {
    assert word / mask == 0;
  }

  /** Or-ing in a bit above every bit already set is an addition. */
  lemma {:induction false} SetHighBit(bits: seq<bool>)
    ensures SetBit(LsbValue(bits), Pow2(|bits|)) == LsbValue(bits + [true])
    ensures LsbValue(bits) == LsbValue(bits + [false])
  {
    var value, mask := LsbValue(bits), Pow2(|bits|);
    LsbAppend(bits, true);
    LsbAppend(bits, false);
    LsbBound(bits);
    SetBitAbove(value, mask);
  }
}
