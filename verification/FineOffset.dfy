/** The backward decoder of rf/fineoffset.c: five bytes, the last of them a CRC. */
module FineOffset {
  import opened Options
  import opened Sequences
  import opened Bits
  import opened Crc
  import opened Ring

  const DATA_LENGTH := 5

  /** `fineOffsetBit`, once its two pulses are counted: 0, 1, or 2 for invalid data. */
  function FineOffsetBit(b1: nat, b2: nat): nat {
    if b1 > 13 && b2 > 13 then 0
    else if b1 < 11 && b2 > 13 then 1
    else 2
  }

  /** The first n pairs of counts as bits; nothing if one is invalid. */
  function PairBits(counts: seq<nat>, n: nat): (r: Option<seq<bool>>)
    requires 2 * n <= |counts|
    ensures r.Some? ==> |r.value| == n
    decreases n, |counts|
  {
    if n == 0 then Some([])
    else
      var front, code := PairBits(counts, n - 1), FineOffsetBit(counts[2 * n - 2], counts[2 * n - 1]);
      if front.None? || code == 2 then None else Some(front.value + [code == 1])
  }

  /** The bits of some bytes, as they are sent. */
  function FrameOf(bytes: seq<bv8>): (frame: seq<bool>)
    ensures |frame| == 8 * |bytes|
    decreases |bytes|
  {
    if bytes == [] then [] else BitsOf(bytes[0]) + FrameOf(bytes[1..])
  }

  lemma {:induction false} FrameInjective(a: seq<bv8>, b: seq<bv8>)
    requires |a| == |b| && FrameOf(a) == FrameOf(b)
    ensures a == b
    decreases |a|
  {
    if a != [] {
      assert FrameOf(a)[..8] == BitsOf(a[0]) && FrameOf(b)[..8] == BitsOf(b[0]);
      SameBits(a[0], b[0]);
      assert FrameOf(a)[8..] == FrameOf(a[1..]) && FrameOf(b)[8..] == FrameOf(b[1..]);
      FrameInjective(a[1..], b[1..]);
      assert a == [a[0]] + a[1..] && b == [b[0]] + b[1..];
    }
  }

  /**
   What the counts decode to: a message exactly when every pair is valid and the frame, whose
   bits are heard last first, leaves no remainder.
   */
  ghost predicate Decodes(counts: seq<nat>, message: Option<seq<bv8>>)
    requires |counts| == 80
  {
    var bits := PairBits(counts, 40);
    && (message.Some? <==> bits.Some? && Accepted(Reverse(bits.value)))
    && (message.Some? ==> |message.value| == DATA_LENGTH && FrameOf(message.value) == Reverse(bits.value))
  }

  // ---------------------------------------------------------------- the C functions

  lemma {:induction false} SetsBit(byte: bv8, j: nat, k: nat)
    requires j < 8 && k < 8
    ensures BitOf(byte | Mask(j), k) == (k == j || BitOf(byte, k))
  {
    if k == j {
      OrSame(Mask(j), byte);
    } else {
      OrOther(j, k);
    }
  }

  lemma {:induction false} OrSame(m: bv8, byte: bv8)
    requires m != 0
    ensures m & (byte | m) != 0
  {
    assert m & (byte | m) == m;
  }

  lemma {:induction false} OrOther(j: nat, k: nat)
    requires j < 8 && k < 8 && j != k
    ensures Mask(k) & Mask(j) == 0
  {
  }

  /** `fineOffsetBit`. */
  method ReadBit(ring: seq<bv8>, scanP: nat, scanBit: bv8, ghost start: Pos, ghost i: nat)
    returns (bit: nat, p: nat, b: bv8)
    requires IsRing(ring) && IsPos(start) && i < 40 && Points(scanP, scanBit, PosAfter(ring, start, 2 * i))
    ensures var counts := Counts(ring, start, 80); bit == FineOffsetBit(counts[2 * i], counts[2 * i + 1])
    ensures Points(p, b, PosAfter(ring, start, 2 * i + 2))
  {
    var b1, b2;
    b1, p, b := CountNext(ring, scanP, scanBit, start, 2 * i, 80);
    b2, p, b := CountNext(ring, p, b, start, 2 * i + 1, 80);
    bit := FineOffsetBit(b1, b2);
  }

  lemma {:induction false} OrIsUpdate(byte: bv8, j: nat)
    requires j < 8
    ensures BitsOf(byte | Mask(j)) == BitsOf(byte)[j := true]
  {
    var next, updated := BitsOf(byte | Mask(j)), BitsOf(byte)[j := true];
    forall k | 0 <= k < 8 ensures next[k] == updated[k] {
      SetsBit(byte, j, k);
    }
  }

  /** The byte with the bits read so far, lowest first: `byte |= (1<<j)` for each that is set. */
  function LowByte(low: seq<bool>): bv8
    requires |low| <= 8
    decreases |low|
  {
    var n := |low|;
    if n == 0 then 0
    else if low[n - 1] then LowByte(low[..n - 1]) | Mask(8 - n)
    else LowByte(low[..n - 1])
  }

  lemma {:induction false} LowByteSnoc(low: seq<bool>, one: bool)
    requires |low| < 8
    ensures one ==> LowByte(low + [one]) == LowByte(low) | Mask(7 - |low|)
    ensures !one ==> LowByte(low + [one]) == LowByte(low)
  {
    assert (low + [one])[..|low|] == low;
  }

  lemma {:induction false} Extend<T>(n: nat, zero: T, front: seq<T>, x: T, zeros: seq<T>, more: seq<T>)
    requires |zeros| == n && |more| == n + 1 && (forall i :: 0 <= i <= n ==> more[i] == zero)
    requires forall i :: 0 <= i < n ==> zeros[i] == zero
    ensures (more + front)[n := x] == zeros + ([x] + front)
  {
  }

  /** The bits of the byte: nothing above those read, which are the other way round. */
  lemma {:induction false} LowByteBits(low: seq<bool>)
    requires |low| <= 8
    ensures BitsOf(LowByte(low)) == Zeros(8 - |low|) + Reverse(low)
    decreases |low|
  {
    var n := |low|;
    if n == 0 {
      NoBits(low);
    } else {
      var front, last := low[..n - 1], low[n - 1];
      var byte := LowByte(front);
      LowByteBits(front);
      ReverseSnoc(front, last);
      assert front + [last] == low;
      Extend(8 - n, false, Reverse(front), last, Zeros(8 - n), Zeros(9 - n));
      if last {
        OrIsUpdate(byte, 8 - n);
      } else {
        UnsetBit(BitsOf(byte), 8 - n);
      }
    }
  }

  lemma {:induction false} NoBits(low: seq<bool>)
    requires low == []
    ensures BitsOf(0) == Zeros(8) + Reverse(low)
  {
  }

  lemma {:induction false} UnsetBit(bits: seq<bool>, k: nat)
    requires k < |bits| && !bits[k]
    ensures bits[k := false] == bits
  {
  }

  lemma {:induction false} WholeByte(low: seq<bool>)
    requires |low| == 8
    ensures BitsOf(LowByte(low)) == Reverse(low)
  {
    LowByteBits(low);
    assert Zeros(0) + Reverse(low) == Reverse(low);
  }

  lemma {:induction false} NoneStays(counts: seq<nat>, n: nat, m: nat)
    requires n <= m && 2 * m <= |counts| && PairBits(counts, n) == None
    ensures PairBits(counts, m) == None
    decreases m
  {
    if n < m {
      NoneStays(counts, n, m - 1);
    }
  }

  lemma {:induction false} PairSnoc(counts: seq<nat>, bits: seq<bool>, n: nat, code: nat)
    requires 2 * n + 2 <= |counts| && PairBits(counts, n) == Some(bits)
    requires code == FineOffsetBit(counts[2 * n], counts[2 * n + 1])
    ensures PairBits(counts, n + 1) == if code == 2 then None else Some(bits + [code == 1])
  {
  }

  /** One more pair, after whole bytes and some bits of the next. */
  lemma {:induction false} ReadStep(counts: seq<nat>, bits: seq<bool>, low: seq<bool>, n: nat, code: nat)
    requires |counts| == 80 && n < 40 && PairBits(counts, n) == Some(bits + low)
    requires code == FineOffsetBit(counts[2 * n], counts[2 * n + 1])
    ensures code == 2 ==> PairBits(counts, 40) == None
    ensures code != 2 ==> PairBits(counts, n + 1) == Some(bits + (low + [code != 0]))
  {
    PairSnoc(counts, bits + low, n, code);
    if code == 2 {
      NoneStays(counts, n + 1, 40);
    } else {
      Associate(bits, low, [code != 0]);
    }
  }

  /** `if (b) byte |= (1<<j)`. */
  method SetLow(byte0: bv8, j: nat, bit: nat, ghost low: seq<bool>) returns (byte: bv8)
    requires |low| == j < 8 && byte0 == LowByte(low)
    ensures byte == LowByte(low + [bit != 0])
  {
    ghost var one := bit != 0;
    if bit != 0 {
      LowByteSnoc(low, one);
      byte := byte0 | Mask(7 - j);
    } else {
      LowByteSnoc(low, one);
      byte := byte0;
    }
  }

  /** The inner loop has read these bits of the byte, after the bits of whole bytes. */
  ghost predicate Reading(ring: seq<bv8>, scanP: nat, scanBit: bv8, start: Pos, bits: seq<bool>, low: seq<bool>) {
    && IsRing(ring) && IsPos(start) && |bits| <= 32 && |low| <= 8
    && Points(scanP, scanBit, PosAfter(ring, start, 2 * (|bits| + |low|)))
    && PairBits(Counts(ring, start, 80), |bits| + |low|) == Some(bits + low)
  }

  /** `fineOffsetBit` in the loop, and what it finds. */
  method NextPair(ring: seq<bv8>, scanP: nat, scanBit: bv8, ghost start: Pos, ghost bits: seq<bool>,
                  ghost low: seq<bool>)
    returns (bit: nat, p: nat, b: bv8)
    requires Reading(ring, scanP, scanBit, start, bits, low) && |low| < 8
    ensures bit == 2 ==> PairBits(Counts(ring, start, 80), 40) == None
    ensures bit != 2 ==> Reading(ring, p, b, start, bits, low + [bit != 0])
  {
    ghost var n := |bits| + |low|;
    bit, p, b := ReadBit(ring, scanP, scanBit, start, n);
    ReadStep(Counts(ring, start, 80), bits, low, n, bit);
  }

  /** The inner loop of `parseFineOffset`. */
  method ReadByte(ring: seq<bv8>, scanP: nat, scanBit: bv8, ghost start: Pos, ghost bits: seq<bool>)
    returns (valid: bool, byte: bv8, p: nat, b: bv8, ghost low: seq<bool>)
    requires Reading(ring, scanP, scanBit, start, bits, [])
    ensures valid ==> |low| == 8 && byte == LowByte(low) && Reading(ring, p, b, start, bits, low)
    ensures !valid ==> PairBits(Counts(ring, start, 80), 40) == None
  {
    p, b, byte, low := scanP, scanBit, 0, [];
    var j := 0;
    while j < 8
      invariant 0 <= j <= 8 && |low| == j && byte == LowByte(low)
      invariant Reading(ring, p, b, start, bits, low)
    {
      var bit;
      bit, p, b := NextPair(ring, p, b, start, bits, low);
      if bit == 2 {
        return false, byte, p, b, low;
      }
      byte := SetLow(byte, j, bit, low);
      low := low + [bit != 0];
      j := j + 1;
    }
    valid := true;
  }

  /** A byte more is complete. */
  lemma {:induction false} NextByte(ring: seq<bv8>, p: nat, b: bv8, start: Pos, bits: seq<bool>, low: seq<bool>)
    requires Reading(ring, p, b, start, bits, low) && |bits + low| <= 32
    ensures Reading(ring, p, b, start, bits + low, [])
  {
    assert bits + low + [] == bits + low;
  }

  lemma {:induction false} ReverseConcat<T>(a: seq<T>, b: seq<T>)
    ensures Reverse(a + b) == Reverse(b) + Reverse(a)
  {
  }

  /** The bytes are filled from the last to the first. */
  lemma {:induction false} FrameGrows(buffer: seq<bv8>, i: nat, byte: bv8, bits: seq<bool>, low: seq<bool>)
    requires i < |buffer| && FrameOf(buffer[i + 1..]) == Reverse(bits) && |low| == 8 && byte == LowByte(low)
    ensures FrameOf(buffer[i := byte][i..]) == Reverse(bits + low)
  {
    WholeByte(low);
    ReverseConcat(bits, low);
    assert buffer[i := byte][i..][1..] == buffer[i + 1..];
  }

  /** The loop over the CRC of the first n bytes. */
  method CrcOf(buffer: array<bv8>, n: nat) returns (crc: bv8)
    requires n <= buffer.Length
    ensures BitsOf(crc) == After(ZERO, FrameOf(buffer[..n]), GENERATOR)
  {
    crc := 0;
    var j := 0;
    assert BitsOf(0) == ZERO && BitsOf(POLYNOM) == GENERATOR && buffer[0..n] == buffer[..n];
    while j < n
      invariant 0 <= j <= n
      invariant After(BitsOf(crc), FrameOf(buffer[j..n]), GENERATOR) == After(ZERO, FrameOf(buffer[..n]), GENERATOR)
    {
      AfterConcat(BitsOf(crc), BitsOf(buffer[j]), FrameOf(buffer[j + 1..n]), GENERATOR);
      assert buffer[j..n][1..] == buffer[j + 1..n];
      crc := CalculateCrc8(crc, buffer[j], POLYNOM);
      j := j + 1;
    }
    assert buffer[n..n] == [];
  }

  /** The outer loop of `parseFineOffset`: the bytes, from the last to the first. */
  method ReadFrame(ring: seq<bv8>, scanP: nat, scanBit: bv8, ghost start: Pos, buffer: array<bv8>)
    returns (valid: bool, lastbyte: bv8, ghost all: seq<bool>)
    requires IsRing(ring) && Points(scanP, scanBit, start) && buffer.Length == DATA_LENGTH
    modifies buffer
    ensures !valid ==> PairBits(Counts(ring, start, 80), 40) == None
    ensures valid ==>
              && PairBits(Counts(ring, start, 80), 40) == Some(all)
              && FrameOf(buffer[..]) == Reverse(all) && lastbyte == buffer[4]
  {
    ghost var bits: seq<bool>, low: seq<bool> := [], [];
    var p, b := scanP, scanBit;
    lastbyte := 0;
    var i := DATA_LENGTH - 1;
    assert Reverse(bits + low) == [];
    while i >= 0
      invariant -1 <= i < 5 && |bits + low| == 8 * (4 - i)
      invariant Reading(ring, p, b, start, bits, low) && FrameOf(buffer[i + 1..]) == Reverse(bits + low)
      invariant i < 4 ==> lastbyte == buffer[4]
    {
      NextByte(ring, p, b, start, bits, low);
      bits := bits + low;
      var byte;
      valid, byte, p, b, low := ReadByte(ring, p, b, start, bits);
      if !valid {
        return false, lastbyte, [];
      }
      if i == DATA_LENGTH - 1 {
        lastbyte := byte;
      }
      FrameGrows(buffer[..], i, byte, bits, low);
      buffer[i] := byte;
      i := i - 1;
    }
    assert buffer[0..] == buffer[..];
    valid, all := true, bits + low;
  }

  /** `parseFineOffset`. */
  method Parse(ring: seq<bv8>, scanP: nat, scanBit: bv8, ghost pos: Pos) returns (message: Option<seq<bv8>>)
    requires IsRing(ring) && Points(scanP, scanBit, pos)
    ensures Decodes(Counts(ring, Retreat(pos), 80), message)
  {
    var buffer := new bv8[DATA_LENGTH](_ => 0);
    var p, b := RetreatBit(scanP, scanBit, pos);
    var valid, lastbyte;
    ghost var all;
    valid, lastbyte, all := ReadFrame(ring, p, b, Retreat(pos), buffer);
    if !valid {
      return None;
    }
    var crc := CrcOf(buffer, DATA_LENGTH - 1);
    LastIsCrc(buffer[..], crc);
    message := if crc != lastbyte then None else Some(buffer[..]);
  }

  lemma {:induction false} FrameConcat(a: seq<bv8>, c: bv8)
    ensures FrameOf(a + [c]) == FrameOf(a) + BitsOf(c)
    decreases |a|
  {
    if a == [] {
      assert (a + [c])[1..] == [];
    } else {
      assert (a + [c])[1..] == a[1..] + [c];
      FrameConcat(a[1..], c);
    }
  }

  /** Comparing the CRC of all but the last byte with the last is looking at the remainder of the whole. */
  lemma {:induction false} LastIsCrc(buffer: seq<bv8>, crc: bv8)
    requires |buffer| == 5 && BitsOf(crc) == After(ZERO, FrameOf(buffer[..4]), GENERATOR)
    ensures Accepted(FrameOf(buffer)) <==> crc == buffer[4]
  {
    FrameConcat(buffer[..4], buffer[4]);
    assert buffer[..4] + [buffer[4]] == buffer;
    AcceptedIffOwnCrc(FrameOf(buffer[..4]), BitsOf(buffer[4]));
    if BitsOf(crc) == BitsOf(buffer[4]) {
      SameBits(crc, buffer[4]);
    }
  }

  // ---------------------------------------------------------------- frames sent and damaged

  /** Two pulses that send a bit, in the order in which they are counted. */
  predicate PairFor(b1: nat, b2: nat, bit: bool) {
    b2 > 13 && if bit then b1 < 11 else b1 > 13
  }

  /** Counts of the pulses that send the bits, the last bit first. */
  predicate Sends(counts: seq<nat>, bits: seq<bool>)
    requires |counts| == 2 * |bits|
    decreases |bits|
  {
    var n := |bits|;
    n > 0 ==> PairFor(counts[2 * n - 2], counts[2 * n - 1], bits[n - 1]) && Sends(counts[..2 * n - 2], bits[..n - 1])
  }

  lemma {:induction false} PairsSent(counts: seq<nat>, bits: seq<bool>)
    requires |counts| == 2 * |bits| && Sends(counts, bits)
    ensures PairBits(counts, |bits|) == Some(bits)
    decreases |bits|
  {
    var n := |bits|;
    if n > 0 {
      PairsSent(counts[..2 * n - 2], bits[..n - 1]);
      PairsPrefix(counts, 2 * n - 2, n - 1);
      assert bits[..n - 1] + [bits[n - 1]] == bits;
    }
  }

  lemma {:induction false} PairsPrefix(counts: seq<nat>, m: nat, n: nat)
    requires 2 * n <= m <= |counts|
    ensures PairBits(counts[..m], n) == PairBits(counts, n)
    decreases n
  {
    if n > 0 {
      PairsPrefix(counts, m, n - 1);
    }
  }

  /** Exactly the five-byte frames without remainder come back, each as it was sent. */
  lemma {:induction false} DecodesFrame(bytes: seq<bv8>, counts: seq<nat>, message: Option<seq<bv8>>)
    requires |counts| == 80 && |bytes| == DATA_LENGTH && Decodes(counts, message)
    requires Sends(counts, Reverse(FrameOf(bytes)))
    ensures message == if Accepted(FrameOf(bytes)) then Some(bytes) else None
  {
    var frame := FrameOf(bytes);
    PairsSent(counts, Reverse(frame));
    assert Reverse(Reverse(frame)) == frame;
    if message.Some? {
      FrameInjective(message.value, bytes);
    }
  }

  /** Bits are only read from counts that send them. */
  lemma {:induction false} PairsAreSent(counts: seq<nat>, bits: seq<bool>)
    requires |counts| == 2 * |bits| && PairBits(counts, |bits|) == Some(bits)
    ensures Sends(counts, bits)
    decreases |bits|
  {
    var n := |bits|;
    if n > 0 {
      assert PairBits(counts, n - 1) == Some(bits[..n - 1]);
      PairsPrefix(counts, 2 * n - 2, n - 1);
      PairsAreSent(counts[..2 * n - 2], bits[..n - 1]);
    }
  }

  /** Whatever is sent on was sent, and left no remainder. */
  lemma {:induction false} OnlyFrames(counts: seq<nat>, message: Option<seq<bv8>>)
    requires |counts| == 80 && Decodes(counts, message) && message.Some?
    ensures |message.value| == 5 && Accepted(FrameOf(message.value)) && Sends(counts, Reverse(FrameOf(message.value)))
  {
    var bits := PairBits(counts, 40).value;
    PairsAreSent(counts, bits);
    assert Reverse(Reverse(bits)) == bits;
  }

  /** Two bits flipped. */
  function Two(i: nat, j: nat): (flips: seq<bool>)
    requires i < j < 40
    ensures |flips| == 40
  {
    Zeros(i) + [true] + Zeros(j - i - 1) + [true] + Zeros(39 - j)
  }

  predicate Burst(flips: seq<bool>, i: nat)
    requires |flips| == 40 && i <= 32
  {
    AllZero(flips[..i]) && AllZero(flips[i + 8..]) && !AllZero(flips[i..i + 8])
  }

  /** One, two or three flipped bits, every other odd number, and every burst within eight bits. */
  ghost predicate Slight(flips: seq<bool>)
    requires |flips| == 40
  {
    || Odd(flips)
    || (exists i: nat, j: nat :: i < j < 40 && flips == Two(i, j))
    || (exists i: nat :: i <= 32 && Burst(flips, i))
  }

  lemma {:induction false} CatchesSlight(frame: seq<bool>, flips: seq<bool>)
    requires |frame| == |flips| == 40 && Accepted(frame) && Slight(flips)
    ensures !Accepted(Xor(frame, flips))
  {
    if Odd(flips) {
      CatchesOdd(frame, flips);
    } else if exists i: nat, j: nat :: i < j < 40 && flips == Two(i, j) {
      var i: nat, j: nat :| i < j < 40 && flips == Two(i, j);
      CatchesPairs(frame, Zeros(i), Zeros(j - i - 1), Zeros(39 - j));
    } else {
      var i: nat :| i <= 32 && Burst(flips, i);
      CatchesBursts(frame, flips[..i], flips[i..i + 8], flips[i + 8..]);
      assert flips[..i] + flips[i..i + 8] + flips[i + 8..] == flips;
    }
  }

  /** A frame damaged that little on its way is not accepted. */
  lemma {:induction false} DamageIsCaught(
    bytes: seq<bv8>, damaged: seq<bv8>, counts: seq<nat>, message: Option<seq<bv8>>)
    requires |bytes| == |damaged| == DATA_LENGTH && |counts| == 80
    requires Accepted(FrameOf(bytes)) && Slight(Xor(FrameOf(bytes), FrameOf(damaged)))
    requires Sends(counts, Reverse(FrameOf(damaged))) && Decodes(counts, message)
    ensures message == None
  {
    var frame, flips := FrameOf(bytes), Xor(FrameOf(bytes), FrameOf(damaged));
    CatchesSlight(frame, flips);
    assert Xor(frame, flips) == FrameOf(damaged);
    DecodesFrame(damaged, counts, message);
  }
}
