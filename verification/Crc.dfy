/** The bitwise CRC step of rf/crc.c, and what the check catches. */
module Crc {
  import opened Bits

  /** The eight bits of the register, highest first; a frame is its bits in the order in which they are sent. */
  type Register = r: seq<bool> | |r| == 8 witness [false, false, false, false, false, false, false, false]

  const ZERO: Register := [false, false, false, false, false, false, false, false]

  /** Polynomial 0x131 as the 8-bit parameter receives it. */
  const POLYNOM: bv8 := 0x31
  const GENERATOR: Register := [false, false, true, true, false, false, false, true]

  /** The bits of a byte, highest first. */
  function BitsOf(c: bv8): (bits: Register)
    ensures forall k :: 0 <= k < 8 ==> bits[k] == BitOf(c, k)
  {
    [BitOf(c, 0), BitOf(c, 1), BitOf(c, 2), BitOf(c, 3), BitOf(c, 4), BitOf(c, 5), BitOf(c, 6), BitOf(c, 7)]
  }

  /** One bit through the register: the polynomial is taken off when the top bit and the new bit differ. */
  function Next(reg: Register, bit: bool, polynom: Register): (r: Register)
    ensures forall k :: 0 <= k < 8 ==> r[k] == ((k < 7 && reg[k + 1]) != ((reg[0] != bit) && polynom[k]))
  {
    seq(8, k requires 0 <= k < 8 => (k < 7 && reg[k + 1]) != ((reg[0] != bit) && polynom[k]))
  }

  /** A sequence of bits through the register. */
  function After(reg: Register, bits: seq<bool>, polynom: Register): Register
    decreases |bits|
  {
    if bits == [] then reg else After(Next(reg, bits[0], polynom), bits[1..], polynom)
  }

  // ---------------------------------------------------------------- the C function

  lemma {:induction false} XorBits(a: bv8, b: bv8, k: nat)
    requires k < 8
    ensures BitsOf(a ^ b)[k] == (BitsOf(a)[k] != BitsOf(b)[k])
  {
    XorOneBit(Mask(k), a, b);
  }

  lemma {:induction false} XorOneBit(m: bv8, a: bv8, b: bv8)
    requires m & (m - 1) == 0
    ensures (m & (a ^ b) != 0) == ((m & a != 0) != (m & b != 0))
  {
  }

  lemma {:induction false} ShiftedBits(a: bv8, k: nat)
    requires k < 8
    ensures BitsOf(a << 1)[k] == (k < 7 && BitsOf(a)[k + 1])
  {
    ShiftIn(a, k);
  }

  lemma {:induction false} SameBits(a: bv8, b: bv8)
    requires BitsOf(a) == BitsOf(b)
    ensures a == b
  {
    var s, t := BitsOf(a), BitsOf(b);
    assert s[0] == t[0] && s[1] == t[1] && s[2] == t[2] && s[3] == t[3];
    assert s[4] == t[4] && s[5] == t[5] && s[6] == t[6] && s[7] == t[7];
  }

  /** `crc <<= 1`. */
  lemma {:induction false} PlainNext(crc: bv8, bit: bool, polynom: Register)
    requires BitsOf(crc)[0] == bit
    ensures BitsOf(crc << 1) == Next(BitsOf(crc), bit, polynom)
  {
    forall k | 0 <= k < 8 ensures BitsOf(crc << 1)[k] == Next(BitsOf(crc), bit, polynom)[k] {
      ShiftedBits(crc, k);
    }
  }

  /** `crc <<= 1` and then `crc ^= polynom`. */
  lemma {:induction false} XorNext(crc: bv8, shifted: bv8, bit: bool, polynom: bv8)
    requires BitsOf(crc)[0] != bit && shifted == crc << 1
    ensures BitsOf(shifted ^ polynom) == Next(BitsOf(crc), bit, BitsOf(polynom))
  {
    forall k | 0 <= k < 8 ensures BitsOf(shifted ^ polynom)[k] == Next(BitsOf(crc), bit, BitsOf(polynom))[k] {
      ShiftedBits(crc, k);
      XorBits(shifted, polynom, k);
    }
  }

  lemma {:induction false} DropStep(reg: Register, c: bv8, k: nat, polynom: Register)
    requires k < 8
    ensures After(reg, BitsOf(c)[k..], polynom) == After(Next(reg, BitOf(c, k), polynom), BitsOf(c)[k + 1..], polynom)
  {
    assert BitsOf(c)[k..][1..] == BitsOf(c)[k + 1..];
  }

  /** The body of the loop, for the bit under the mask. */
  method CrcBit(crc: bv8, c: bv8, i: bv8, polynom: bv8, ghost k: nat) returns (next: bv8)
    requires k < 8 && i == Mask(k)
    ensures BitsOf(next) == Next(BitsOf(crc), BitOf(c, k), BitsOf(polynom))
  {
    var onebit := 0x80 & crc != 0;
    assert onebit == BitsOf(crc)[0];
    if i & c != 0 {
      onebit := !onebit;
    }
    next := crc << 1;
    if onebit {
      XorNext(crc, next, BitOf(c, k), polynom);
      next := next ^ polynom;
    } else {
      PlainNext(crc, BitOf(c, k), BitsOf(polynom));
    }
  }

  /** `calculateCrc8`. */
  method CalculateCrc8(crc0: bv8, c: bv8, polynom: bv8) returns (crc: bv8)
    ensures BitsOf(crc) == After(BitsOf(crc0), BitsOf(c), BitsOf(polynom))
  {
    crc := crc0;
    var i: bv8 := 0x80;
    ghost var k := 0;
    assert BitsOf(c)[0..] == BitsOf(c);
    while i > 0
      invariant 0 <= k <= 8 && i == (if k < 8 then Mask(k) else 0)
      invariant After(BitsOf(crc), BitsOf(c)[k..], BitsOf(polynom)) == After(BitsOf(crc0), BitsOf(c), BitsOf(polynom))
      decreases 8 - k
    {
      DropStep(BitsOf(crc), c, k, BitsOf(polynom));
      NextMask(k);
      crc := CrcBit(crc, c, i, polynom, k);
      i := i >> 1;
      k := k + 1;
    }
    NextMask(if k < 8 then k else 0);
  }

  lemma {:induction false} NextMask(k: nat)
    requires k < 8
    ensures Mask(k) > 0 && Mask(k) >> 1 == if k + 1 < 8 then Mask(k + 1) else 0
  {
    MaskMoves(k);
  }

  lemma {:induction false} AfterConcat(reg: Register, a: seq<bool>, b: seq<bool>, polynom: Register)
    ensures After(reg, a + b, polynom) == After(After(reg, a, polynom), b, polynom)
    decreases |a|
  {
    if a == [] {
      assert a + b == b;
    } else {
      assert (a + b)[1..] == a[1..] + b;
      AfterConcat(Next(reg, a[0], polynom), a[1..], b, polynom);
    }
  }

  // ---------------------------------------------------------------- linearity

  function Xor(a: seq<bool>, b: seq<bool>): (r: seq<bool>)
    requires |a| == |b|
    ensures |r| == |a| && forall i :: 0 <= i < |a| ==> r[i] == (a[i] != b[i])
  {
    seq(|a|, i requires 0 <= i < |a| => a[i] != b[i])
  }

  lemma {:induction false} NextLinear(r: Register, s: Register, x: bool, y: bool, polynom: Register)
    ensures Next(Xor(r, s), x != y, polynom) == Xor(Next(r, x, polynom), Next(s, y, polynom))
  {
    forall k | 0 <= k < 8
      ensures Next(Xor(r, s), x != y, polynom)[k] == Xor(Next(r, x, polynom), Next(s, y, polynom))[k]
    {
    }
  }

  /** The step is linear over exclusive or, for every polynomial and every length. */
  lemma {:induction false} Linear(r: Register, s: Register, a: seq<bool>, b: seq<bool>, polynom: Register)
    requires |a| == |b|
    ensures After(Xor(r, s), Xor(a, b), polynom) == Xor(After(r, a, polynom), After(s, b, polynom))
    decreases |a|
  {
    if a != [] {
      NextLinear(r, s, a[0], b[0], polynom);
      Linear(Next(r, a[0], polynom), Next(s, b[0], polynom), a[1..], b[1..], polynom);
      assert Xor(a, b)[1..] == Xor(a[1..], b[1..]);
    }
  }

  // ---------------------------------------------------------------- the check

  function Zeros(n: nat): (z: seq<bool>)
    ensures |z| == n && AllZero(z)
  {
    seq(n, _ => false)
  }

  predicate AllZero(bits: seq<bool>) {
    forall i :: 0 <= i < |bits| ==> !bits[i]
  }

  /** The polynomial ends in 1, so a step that leaves the lowest bit clear was a plain shift. */
  lemma {:induction false} NextIs(reg: Register, w: seq<bool>)
    requires 0 < |w| <= 8
    ensures Next(reg, w[0], GENERATOR) == w[1..] + Zeros(9 - |w|) <==> reg == w + Zeros(8 - |w|)
  {
    var next, low, all := Next(reg, w[0], GENERATOR), w[1..] + Zeros(9 - |w|), w + Zeros(8 - |w|);
    assert forall k :: 0 <= k < 7 ==> low[k] == all[k + 1];
    assert next[7] == (reg[0] != w[0]) && !low[7] && all[0] == w[0];
    if next == low {
      assert forall k :: 0 <= k < 7 ==> next[k] == reg[k + 1];
      assert forall k :: 0 <= k < 8 ==> reg[k] == if k == 0 then all[0] else next[k - 1];
      assert reg == all;
    }
    if reg == all {
      assert next == low;
    }
  }

  /** Up to eight bits bring the register to zero exactly when they are what it holds. */
  lemma {:induction false} ZeroIffHeld(reg: Register, w: seq<bool>)
    requires |w| <= 8
    ensures After(reg, w, GENERATOR) == ZERO <==> reg == w + Zeros(8 - |w|)
    decreases |w|
  {
    if w == [] {
      assert w + Zeros(8) == ZERO;
    } else {
      ZeroIffHeld(Next(reg, w[0], GENERATOR), w[1..]);
      NextIs(reg, w);
    }
  }

  /** Frames that leave the register at zero. */
  predicate Accepted(frame: seq<bool>) {
    After(ZERO, frame, GENERATOR) == ZERO
  }

  /** A message followed by a byte is accepted exactly when that byte is the CRC of the message. */
  lemma {:induction false} AcceptedIffOwnCrc(message: seq<bool>, c: Register)
    ensures Accepted(message + c) <==> After(ZERO, message, GENERATOR) == c
  {
    AfterConcat(ZERO, message, c, GENERATOR);
    ZeroIffHeld(After(ZERO, message, GENERATOR), c);
    assert c + Zeros(0) == c;
  }

  // ---------------------------------------------------------------- what the check catches

  /** With some bits of an accepted frame flipped, it is accepted still exactly if the flips alone would be. */
  lemma {:induction false} FlipsSeenAlone(frame: seq<bool>, flips: seq<bool>)
    requires |frame| == |flips| && Accepted(frame)
    ensures Accepted(Xor(frame, flips)) <==> Accepted(flips)
  {
    assert Xor(ZERO, ZERO) == ZERO;
    Linear(ZERO, ZERO, frame, flips, GENERATOR);
    var r := After(ZERO, flips, GENERATOR);
    assert Xor(ZERO, r) == r;
  }

  /** Whether the number of bits set is odd. */
  predicate Odd(bits: seq<bool>)
    decreases |bits|
  {
    bits != [] && bits[0] != Odd(bits[1..])
  }

  predicate OddRegister(r: Register) {
    r[0] != (r[1] != (r[2] != (r[3] != (r[4] != (r[5] != (r[6] != r[7]))))))
  }

  /** The polynomial has an even number of terms, so every step keeps the parity. */
  lemma {:induction false} NextParity(reg: Register, bit: bool)
    ensures OddRegister(Next(reg, bit, GENERATOR)) == (OddRegister(reg) != bit)
  {
    var r := Next(reg, bit, GENERATOR);
    var one := reg[0] != bit;
    assert r[0] == reg[1] && r[1] == reg[2] && r[4] == reg[5] && r[5] == reg[6] && r[6] == reg[7] && r[7] == one;
    assert r[2] == (reg[3] != one) && r[3] == (reg[4] != one);
  }

  lemma {:induction false} AfterParity(reg: Register, bits: seq<bool>)
    ensures OddRegister(After(reg, bits, GENERATOR)) == (OddRegister(reg) != Odd(bits))
    decreases |bits|
  {
    if bits != [] {
      NextParity(reg, bits[0]);
      AfterParity(Next(reg, bits[0], GENERATOR), bits[1..]);
    }
  }

  /** Every odd number of flipped bits is caught, in a frame of any length. */
  lemma {:induction false} CatchesOdd(frame: seq<bool>, flips: seq<bool>)
    requires |frame| == |flips| && Accepted(frame) && Odd(flips)
    ensures !Accepted(Xor(frame, flips))
  {
    FlipsSeenAlone(frame, flips);
    AfterParity(ZERO, flips);
  }

  /** Zero bits move the register, but neither to zero nor away from it. */
  lemma {:induction false} ZerosKeepZero(reg: Register, zeros: seq<bool>)
    requires AllZero(zeros)
    ensures After(reg, zeros, GENERATOR) == ZERO <==> reg == ZERO
    decreases |zeros|
  {
    if zeros != [] {
      var next := Next(reg, false, GENERATOR);
      NextIs(reg, [false]);
      assert [false][1..] + Zeros(8) == ZERO && [false] + Zeros(7) == ZERO;
      ZerosKeepZero(next, zeros[1..]);
    }
  }

  /** A burst confined to eight consecutive bits is caught, wherever it is in a frame of any length. */
  lemma {:induction false} CatchesBursts(frame: seq<bool>, before: seq<bool>, burst: seq<bool>, after: seq<bool>)
    requires |frame| == |before| + |burst| + |after| && Accepted(frame)
    requires AllZero(before) && AllZero(after) && |burst| <= 8
    ensures Accepted(Xor(frame, before + burst + after)) <==> AllZero(burst)
  {
    FlipsSeenAlone(frame, before + burst + after);
    AfterConcat(ZERO, before + burst, after, GENERATOR);
    AfterConcat(ZERO, before, burst, GENERATOR);
    ZerosKeepZero(ZERO, before);
    ZerosKeepZero(After(ZERO, burst, GENERATOR), after);
    ZeroIffHeld(ZERO, burst);
    ZeroWindow(burst);
  }

  lemma {:induction false} ZeroWindow(w: seq<bool>)
    requires |w| <= 8
    ensures ZERO == w + Zeros(8 - |w|) <==> AllZero(w)
  {
    var all := w + Zeros(8 - |w|);
    if ZERO == all {
      assert forall i :: 0 <= i < |w| ==> w[i] == all[i];
    }
  }

  /** One zero bit through the register, on bytes. */
  function ByteStep(c: bv8): bv8 {
    if 0x80 & c != 0 then (c << 1) ^ POLYNOM else c << 1
  }

  lemma {:induction false} StepIsNext(c: bv8)
    ensures BitsOf(ByteStep(c)) == Next(BitsOf(c), false, GENERATOR)
  {
    assert BitsOf(POLYNOM) == GENERATOR;
    if 0x80 & c != 0 {
      XorNext(c, c << 1, false, POLYNOM);
    } else {
      PlainNext(c, false, GENERATOR);
    }
  }

  /** Neither c nor any of the n registers that zero bits make of it has the top bit set alone. */
  predicate NeverTop(c: bv8, n: nat)
    decreases n
  {
    c != 0x80 && (n == 0 || NeverTop(ByteStep(c), n - 1))
  }

  lemma {:induction false} OnlyTop(c: bv8)
    ensures BitsOf(c) == [true] + Zeros(7) ==> c == 0x80
  {
    assert BitsOf(0x80) == [true] + Zeros(7);
    if BitsOf(c) == BitsOf(0x80) {
      SameBits(c, 0x80);
    }
  }

  lemma {:induction false} NeverTopIs(c: bv8, n: nat, zeros: seq<bool>)
    requires NeverTop(c, n) && |zeros| <= n && AllZero(zeros)
    ensures After(BitsOf(c), zeros, GENERATOR) != [true] + Zeros(7)
    decreases n
  {
    if zeros == [] {
      OnlyTop(c);
    } else {
      StepIsNext(c);
      NeverTopIs(ByteStep(c), n - 1, zeros[1..]);
    }
  }

  /** The powers of x differ for 127 steps; from the last back, twelve at a time. */
  lemma {:induction false} LongOrder()
    ensures NeverTop(0x31, 125)
  {
    assert NeverTop(0x02, 5);
    assert NeverTop(0x9E, 17);
    assert NeverTop(0x2C, 29);
    assert NeverTop(0x7F, 41);
    assert NeverTop(0x4A, 53);
    assert NeverTop(0x54, 65);
    assert NeverTop(0xE9, 77);
    assert NeverTop(0x7C, 89);
    assert NeverTop(0x9B, 101);
    assert NeverTop(0x6E, 113);
    assert NeverTop(0x31, 125);
  }

  /** Two flipped bits are caught whenever they are less than 127 bits apart. */
  lemma {:induction false} CatchesPairs(frame: seq<bool>, before: seq<bool>, between: seq<bool>, after: seq<bool>)
    requires |frame| == |before| + 1 + |between| + 1 + |after| && |between| <= 125 && Accepted(frame)
    requires AllZero(before) && AllZero(between) && AllZero(after)
    ensures !Accepted(Xor(frame, before + [true] + between + [true] + after))
  {
    FlipsSeenAlone(frame, before + [true] + between + [true] + after);
    AfterConcat(ZERO, before + [true] + between + [true], after, GENERATOR);
    AfterConcat(ZERO, before + [true] + between, [true], GENERATOR);
    AfterConcat(ZERO, before + [true], between, GENERATOR);
    AfterConcat(ZERO, before, [true], GENERATOR);
    ZerosKeepZero(ZERO, before);
    OneBit();
    LongOrder();
    NeverTopIs(POLYNOM, 125, between);
    var r := After(GENERATOR, between, GENERATOR);
    ZeroIffHeld(r, [true]);
    ZerosKeepZero(After(r, [true], GENERATOR), after);
  }

  lemma {:induction false} OneBit()
    ensures After(ZERO, [true], GENERATOR) == GENERATOR == BitsOf(POLYNOM)
  {
    assert Next(ZERO, true, GENERATOR) == GENERATOR;
    assert [true][1..] == [];
  }

  function Pushed(c: bv8, n: nat): bv8
    decreases n
  {
    if n == 0 then c else Pushed(ByteStep(c), n - 1)
  }

  lemma {:induction false} PushedIs(c: bv8, zeros: seq<bool>)
    requires AllZero(zeros)
    ensures After(BitsOf(c), zeros, GENERATOR) == BitsOf(Pushed(c, |zeros|))
    decreases |zeros|
  {
    if zeros != [] {
      StepIsNext(c);
      PushedIs(ByteStep(c), zeros[1..]);
    }
  }

  lemma {:induction false} OrderIs127()
    ensures Pushed(0x31, 126) == 0x80
  {
    assert Pushed(0x02, 6) == 0x80;
    assert Pushed(0x9E, 18) == 0x80;
    assert Pushed(0x2C, 30) == 0x80;
    assert Pushed(0x7F, 42) == 0x80;
    assert Pushed(0x4A, 54) == 0x80;
    assert Pushed(0x54, 66) == 0x80;
    assert Pushed(0xE9, 78) == 0x80;
    assert Pushed(0x7C, 90) == 0x80;
    assert Pushed(0x9B, 102) == 0x80;
    assert Pushed(0x6E, 114) == 0x80;
    assert Pushed(0x31, 126) == 0x80;
  }

  /** The bound is tight: two flips exactly 127 bits apart go unnoticed. */
  lemma {:induction false} MissesPairs(frame: seq<bool>)
    requires |frame| == 128 && Accepted(frame)
    ensures Accepted(Xor(frame, [true] + Zeros(126) + [true]))
  {
    FlipsSeenAlone(frame, [true] + Zeros(126) + [true]);
    AfterConcat(ZERO, [true] + Zeros(126), [true], GENERATOR);
    AfterConcat(ZERO, [true], Zeros(126), GENERATOR);
    OneBit();
    OrderIs127();
    PushedIs(POLYNOM, Zeros(126));
    assert BitsOf(0x80) == [true] + Zeros(7);
    ZeroIffHeld(BitsOf(0x80), [true]);
  }
}
