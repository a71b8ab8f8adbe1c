/**
 The arctech encoder of firmware/transmit_arctech.c: what it drives, and the number that is. The
 class Sender drives the pin segment by segment; the frame that it drives is a function of house,
 unit and method, whose bytes are those of the C variables. The lemmas at the end add up the bits
 of these bytes to the number that a receiver is to find.
 */
module TransmitArctech {
  import opened Words
  import opened Bits

  datatype Length = Short | Long | StartLong

  /** SENDER at one level for one delay. */
  datatype Segment = Segment(level: bool, length: Length)

  /** A 32-bit `long` as it lies in memory: LO, HI, HIGHER, HIGHEST. */
  datatype Word32 = Word32(lo: bv8, hi: bv8, higher: bv8, highest: bv8) {
    function Value(): nat {
      (highest as nat) * 0x100_0000 + (higher as nat) * 0x1_0000 + (hi as nat) * 0x100 + (lo as nat)
    }
  }

  /** The bit pattern of a 16-bit `int`; passed on as an `unsigned char`, its low byte remains. */
  datatype Word16 = Word16(lo: bv8, hi: bv8) {
    function Value(): nat {
      (hi as nat) * 0x100 + (lo as nat)
    }
  }

  function OnePulses(): seq<Segment> {
    [Segment(true, Short), Segment(false, Long), Segment(true, Short), Segment(false, Short)]
  }

  function ZeroPulses(): seq<Segment> {
    [Segment(true, Short), Segment(false, Short), Segment(true, Short), Segment(false, Long)]
  }

  function Train(bits: seq<bool>): seq<Segment> {
    if bits == [] then []
    else Train(bits[..|bits| - 1]) + (if bits[|bits| - 1] then OnePulses() else ZeroPulses())
  }

  /** The n lowest bits of a byte, highest first. */
  function ByteBits(b: bv8, n: nat): (r: seq<bool>)
    requires n <= 8
    ensures |r| == n
  {
    if n == 0 then [] else [BitOf(b, 8 - n)] + ByteBits(b, n - 1)
  }

  function HouseBits(house: Word32): seq<bool> {
    ByteBits(house.highest, 2) + ByteBits(house.higher, 8) + ByteBits(house.hi, 8) + ByteBits(house.lo, 8)
  }

  /** The 32 bits of a command: 26 of the house, group, on/off, 4 of the unit. */
  function CommandBits(house: Word32, unit: Word16, command: int): seq<bool> {
    HouseBits(house) + [false] + [command == 1] + ByteBits(unit.lo, 4)
  }

  function Frame(bits: seq<bool>): seq<Segment> {
    [Segment(true, Short), Segment(false, StartLong)] + Train(bits) + [Segment(true, Short)]
  }

  class Sender {
    var house: Word32
    var unit: Word16
    var command: int   // the static `method`
    var level: bool    // the pin SENDER
    var line: seq<Segment>

    ghost var base: seq<Segment>  // the line before the bits
    ghost var sent: seq<bool>     // the bits sent since

    ghost predicate Carries()
      reads this`line, this`base, this`sent
    {
      line == base + Train(sent)
    }

    constructor (house: Word32, unit: Word16, command: int)
      ensures this.house == house && this.unit == unit && this.command == command && line == [] && !level
    {
      this.house, this.unit, this.command := house, unit, command;
      line, level, base, sent := [], false, [], [];
    }

    /** SENDER = level; then a delay. */
    method Drive(level: bool, length: Length)
      modifies this`level, this`line
      ensures line == old(line) + [Segment(level, length)] && this.level == level
    {
      this.level := level;
      line := line + [Segment(level, length)];
    }

    method SendOne()
      requires Carries()
      modifies this`level, this`line, this`sent
      ensures Carries() && sent == old(sent) + [true]
    {
      TrainSnoc(sent, true);
      sent := sent + [true];
      Drive(true, Short);
      Drive(false, Long);
      Drive(true, Short);
      Drive(false, Short);
    }

    method SendZero()
      requires Carries()
      modifies this`level, this`line, this`sent
      ensures Carries() && sent == old(sent) + [false]
    {
      TrainSnoc(sent, false);
      sent := sent + [false];
      Drive(true, Short);
      Drive(false, Short);
      Drive(true, Short);
      Drive(false, Long);
    }

    method SendBit(b: bool)
      requires Carries()
      modifies this`level, this`line, this`sent
      ensures Carries() && sent == old(sent) + [b]
    {
      if b {
        SendOne();
      } else {
        SendZero();
      }
    }

    method SendBits(chCode: bv8, bits: nat)
      requires 1 <= bits <= 8 && Carries()
      modifies this`level, this`line, this`sent
      ensures Carries() && sent == old(sent) + ByteBits(chCode, bits)
    {
      var mask := Mask(8 - bits);  // 1 << (bits - 1)
      var i := 0;
      while i < bits
        invariant 0 <= i <= bits && (i < bits ==> mask == Mask(8 - bits + i))
        invariant Carries() && sent + ByteBits(chCode, bits - i) == old(sent) + ByteBits(chCode, bits)
      {
        NextBit(sent, chCode, bits - i);
        SendBit(chCode & mask != 0);
        MaskMoves(8 - bits + i);
        mask := mask >> 1;
        i := i + 1;
      }
      assert sent + [] == sent;
    }

    method SendHouse()
      requires Carries() && sent == []
      modifies this`level, this`line, this`sent
      ensures Carries() && sent == HouseBits(house)
    {
      SendBits(house.highest, 2);
      SendBits(house.higher, 8);
      SendBits(house.hi, 8);
      SendBits(house.lo, 8);
    }

    /** `sendArctechCommand`. */
    method SendCommand()
      modifies this`level, this`line, this`base, this`sent
      ensures line == old(line) + Frame(CommandBits(house, unit, command)) && !level
    {
      Drive(true, Short);
      Drive(false, StartLong);
      base, sent := line, [];
      SendHouse();
      SendZero();
      SendBit(command == 1);
      SendBits(unit.lo, 4);
      FrameParts(old(line), sent);
      Drive(true, Short);
      level := false;
    }
  }

  lemma {:induction false} FrameParts(before: seq<Segment>, bits: seq<bool>)
    ensures (before + [Segment(true, Short)] + [Segment(false, StartLong)] + Train(bits)) + [Segment(true, Short)]
         == before + Frame(bits)
  {
  }

  lemma {:induction false} TrainLength(bits: seq<bool>)
    ensures |Train(bits)| == 4 * |bits|
  {
    if bits != [] {
      TrainLength(bits[..|bits| - 1]);
    }
  }

  lemma {:induction false} FrontSlice<T>(a: seq<T>, b: seq<T>, i: nat)
    requires i + 4 <= |a|
    ensures (a + b)[i..i + 4] == a[i..i + 4]
  {
  }

  lemma {:induction false} TrainSegments(bits: seq<bool>, k: nat)
    requires k < |bits|
    ensures |Train(bits)| == 4 * |bits|
    ensures Train(bits)[4 * k..4 * k + 4] ==
            [Segment(true, Short), Segment(false, if bits[k] then Long else Short),
             Segment(true, Short), Segment(false, if bits[k] then Short else Long)]
    decreases |bits|
  {
    var n := |bits| - 1;
    var front := bits[..n];
    TrainLength(front);
    if k < n {
      TrainSegments(front, k);
      FrontSlice(Train(front), if bits[n] then OnePulses() else ZeroPulses(), 4 * k);
    }
  }

  /**
   What is on the line: a short pulse and the start pause, for each bit a short pulse, a pause, a
   short pulse and a pause, of which the first is long for 1 and the second for 0, and a short pulse.
   */
  lemma {:induction false} FrameSegments(bits: seq<bool>, k: nat)
    requires k < |bits|
    ensures |Frame(bits)| == 4 * |bits| + 3 && Frame(bits)[4 * |bits| + 2] == Segment(true, Short)
    ensures Frame(bits)[0] == Segment(true, Short) && Frame(bits)[1] == Segment(false, StartLong)
    ensures Frame(bits)[2 + 4 * k..6 + 4 * k] ==
            [Segment(true, Short), Segment(false, if bits[k] then Long else Short),
             Segment(true, Short), Segment(false, if bits[k] then Short else Long)]
  {
    TrainSegments(bits, k);
    assert Frame(bits)[2 + 4 * k..6 + 4 * k] == Train(bits)[4 * k..4 * k + 4];
  }

  lemma {:induction false} TrainSnoc(bits: seq<bool>, b: bool)
    ensures Train(bits + [b]) == Train(bits) + if b then OnePulses() else ZeroPulses()
  {
    assert (bits + [b])[..|bits|] == bits;
  }

  lemma {:induction false} NextBit(sent: seq<bool>, b: bv8, n: nat)
    requires 1 <= n <= 8
    ensures sent + ByteBits(b, n) == (sent + [BitOf(b, 8 - n)]) + ByteBits(b, n - 1)
  {
  }

  // ---------------------------------------------------------------- the word sent

  function BitNat(b: bv8, k: nat): nat
    requires k < 8
  {
    Bit(BitOf(b, k))
  }

  lemma {:induction false} ByteValue(b: bv8)
    ensures (b as nat) == 128 * BitNat(b, 0) + 64 * BitNat(b, 1) + 32 * BitNat(b, 2) + 16 * BitNat(b, 3)
                          + 8 * BitNat(b, 4) + 4 * BitNat(b, 5) + 2 * BitNat(b, 6) + BitNat(b, 7)
  {
  }

  lemma {:induction false} MsbCons(b: bool, bits: seq<bool>)
    ensures MsbValue([b] + bits) == (if b then Pow2(|bits|) else 0) + MsbValue(bits)
  {
    MsbAppend([b], bits);
    MsbOne(b);
    var p := Pow2(|bits|);
    assert Bit(b) * p == if b then p else 0;
  }

  lemma {:induction false} AppendBits(a: seq<bool>, b: seq<bool>, p: nat)
    requires p == Pow2(|b|)
    ensures MsbValue(a + b) == MsbValue(a) * p + MsbValue(b)
  {
    MsbAppend(a, b);
  }

  /** The n lowest bits, as a number. */
  lemma {:induction false} ByteBitsValue(b: bv8, n: nat)
    requires n <= 8
    ensures MsbValue(ByteBits(b, n)) == LowBits(b, n)
  {
    if n > 0 {
      ByteBitsValue(b, n - 1);
      MsbCons(BitOf(b, 8 - n), ByteBits(b, n - 1));
      Powers();
    }
  }

  function LowBits(b: bv8, n: nat): nat
    requires n <= 8
  {
    if n == 0 then 0 else (if BitOf(b, 8 - n) then Pow2(n - 1) else 0) + LowBits(b, n - 1)
  }

  lemma {:induction false} Powers()
    ensures Pow2(0) == 1 && Pow2(1) == 2 && Pow2(2) == 4 && Pow2(3) == 8 && Pow2(4) == 16
    ensures Pow2(5) == 32 && Pow2(6) == 64 && Pow2(7) == 128 && Pow2(8) == 256
  {
    assert Pow2(3) == 2 * Pow2(2);
    assert Pow2(6) == 2 * Pow2(5);
  }

  lemma {:induction false} WholeByte(b: bv8)
    ensures MsbValue(ByteBits(b, 8)) == b as nat
  {
    ByteValue(b);
    ByteBitsValue(b, 8);
    LowNibble(b);
    HighNibble(b);
  }

  lemma {:induction false} LastFour(b: bv8)
    ensures MsbValue(ByteBits(b, 4)) == (b as nat) % 16
  {
    ByteValue(b);
    ByteBitsValue(b, 4);
    LowNibble(b);
    Mod16(b as nat, 8 * BitNat(b, 0) + 4 * BitNat(b, 1) + 2 * BitNat(b, 2) + BitNat(b, 3), LowBits(b, 4));
  }

  lemma {:induction false} LastTwo(b: bv8)
    ensures MsbValue(ByteBits(b, 2)) == (b as nat) % 4
  {
    ByteValue(b);
    ByteBitsValue(b, 2);
    LowNibble(b);
    var high := 32 * BitNat(b, 0) + 16 * BitNat(b, 1) + 8 * BitNat(b, 2) + 4 * BitNat(b, 3) + 2 * BitNat(b, 4);
    Mod4(b as nat, high + BitNat(b, 5), LowBits(b, 2));
  }

  lemma {:induction false} Mod16(n: int, q: int, r: nat)
    requires n == 16 * q + r && r < 16
    ensures n % 16 == r
  {
  }

  lemma {:induction false} Mod4(n: int, q: int, r: nat)
    requires n == 4 * q + r && r < 4
    ensures n % 4 == r
  {
  }

  lemma {:induction false} LowNibble(b: bv8)
    ensures LowBits(b, 2) == 2 * BitNat(b, 6) + BitNat(b, 7)
    ensures LowBits(b, 4) == 8 * BitNat(b, 4) + 4 * BitNat(b, 5) + 2 * BitNat(b, 6) + BitNat(b, 7)
  {
    Powers();
    assert LowBits(b, 1) == BitNat(b, 7);
    assert LowBits(b, 2) == 2 * BitNat(b, 6) + BitNat(b, 7);
    assert LowBits(b, 3) == 4 * BitNat(b, 5) + LowBits(b, 2);
  }

  lemma {:induction false} HighNibble(b: bv8)
    ensures LowBits(b, 8) == 128 * BitNat(b, 0) + 64 * BitNat(b, 1) + 32 * BitNat(b, 2) + 16 * BitNat(b, 3) +
            LowBits(b, 4)
  {
    Powers();
    assert LowBits(b, 5) == 16 * BitNat(b, 3) + LowBits(b, 4);
    assert LowBits(b, 6) == 32 * BitNat(b, 2) + LowBits(b, 5);
    assert LowBits(b, 7) == 64 * BitNat(b, 1) + LowBits(b, 6);
  }

  /** The 32 bits of a command, read as a number. */
  lemma {:induction false} CommandValue(house: Word32, unit: Word16, command: int)
    ensures |CommandBits(house, unit, command)| == 32
    ensures MsbValue(CommandBits(house, unit, command))
         == house.Value() % 0x400_0000 * 64 + (if command == 1 then 16 else 0) + unit.Value() % 16
  {
    var u := unit.lo;
    var houseBits := HouseBits(house);
    Powers();
    HouseValue(house);
    LastFour(u);
    UnitValue(unit);
    AppendBits(houseBits, [false], 2);
    AppendBits(houseBits + [false], [command == 1], 2);
    AppendBits(houseBits + [false] + [command == 1], ByteBits(u, 4), 16);
    MsbOne(false);
    MsbOne(command == 1);
  }

  lemma {:induction false} MsbOne(b: bool)
    ensures MsbValue([b]) == Bit(b)
  {
    assert [b][..0] == [];
  }

  lemma {:induction false} UnitValue(unit: Word16)
    ensures unit.Value() % 16 == (unit.lo as nat) % 16
  {
    var h, l := (unit.lo as nat) / 16, (unit.lo as nat) % 16;
    Mod16(unit.Value(), 16 * (unit.hi as nat) + h, l);
  }

  lemma {:induction false} AppendByte(a: seq<bool>, b: bv8)
    ensures MsbValue(a + ByteBits(b, 8)) == MsbValue(a) * 256 + (b as nat)
  {
    Powers();
    WholeByte(b);
    AppendBits(a, ByteBits(b, 8), 256);
  }

  lemma {:induction false} HouseValue(house: Word32)
    ensures MsbValue(HouseBits(house)) == house.Value() % 0x400_0000
  {
    var a := ByteBits(house.highest, 2);
    var ab := a + ByteBits(house.higher, 8);
    var abc := ab + ByteBits(house.hi, 8);
    LastTwo(house.highest);
    AppendByte(a, house.higher);
    AppendByte(ab, house.hi);
    AppendByte(abc, house.lo);
    HouseModulus(house.highest as nat, house.higher as nat, house.hi as nat, house.lo as nat);
  }

  lemma {:induction false} HouseModulus(b3: nat, b2: nat, b1: nat, b0: nat)
    requires b3 < 256 && b2 < 256 && b1 < 256 && b0 < 256
    ensures (b3 * 0x100_0000 + b2 * 0x1_0000 + b1 * 0x100 + b0) % 0x400_0000
         == ((b3 % 4 * 256 + b2) * 256 + b1) * 256 + b0
  {
    var q, r := b3 / 4, b3 % 4;
    assert b3 == 4 * q + r;
    var low := r * 0x100_0000 + b2 * 0x1_0000 + b1 * 0x100 + b0;
    assert b3 * 0x100_0000 + b2 * 0x1_0000 + b1 * 0x100 + b0 == 0x400_0000 * q + low;
    assert low < 0x400_0000;
  }
}
