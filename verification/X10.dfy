/** The backward decoder of rf/x10.c: 32 bits whose even bytes complement the odd ones. */
module X10 {
  import opened Options
  import opened Sequences
  import opened Words
  import opened Ring

  /** `x10Bit`: 0, 1, or 2 for neither. */
  function X10Bit(b1: nat, b2: nat): nat {
    if b1 <= 12 && b2 <= 12 then 0
    else if b1 >= 25 && b2 <= 12 then 1
    else 2
  }

  /** The first n pairs of counts as bits; nothing if one is neither. */
  function PairBits(counts: seq<nat>, n: nat): (r: Option<seq<bool>>)
    requires 2 * n <= |counts|
    ensures r.Some? ==> |r.value| == n
    decreases n, |counts|
  {
    if n == 0 then Some([])
    else
      var front, code := PairBits(counts, n - 1), X10Bit(counts[2 * n - 2], counts[2 * n - 1]);
      if front.None? || code == 2 then None else Some(front.value + [code == 1])
  }

  function Complement(bits: seq<bool>): (r: seq<bool>)
    ensures |r| == |bits| && forall i :: 0 <= i < |bits| ==> r[i] == !bits[i]
  {
    seq(|bits|, i requires 0 <= i < |bits| => !bits[i])
  }

  /** A frame, first bit first: two bytes, each followed by its complement. */
  predicate Complemented(frame: seq<bool>) {
    |frame| == 32 && frame[8..16] == Complement(frame[..8]) && frame[24..] == Complement(frame[16..24])
  }

  /** What `parseX10` makes of the counts: the bits heard last first, as a number, if the complements are right. */
  function X10Data(counts: seq<nat>): Option<nat>
    requires |counts| == 64
  {
    var bits := PairBits(counts, 32);
    if bits.None? || !Complemented(Reverse(bits.value)) then None else Some(MsbValue(Reverse(bits.value)))
  }

  // ---------------------------------------------------------------- bytes of a number

  /** `code >> n` */
  function ShiftRight(code: nat, n: nat): nat
    decreases n, code
  {
    if n == 0 then code else ShiftRight(code / 2, n - 1)
  }

  /** `code` masked to its n lowest bits */
  function LowBits(code: nat, n: nat): nat
    decreases n, code
  {
    if n == 0 then 0 else code % 2 + 2 * LowBits(code / 2, n - 1)
  }

  lemma {:induction false} LsbHalves(bits: seq<bool>)
    requires bits != []
    ensures LsbValue(bits) / 2 == LsbValue(bits[1..]) && LsbValue(bits) % 2 == Bit(bits[0])
  {
  }

  lemma {:induction false} LsbShift(bits: seq<bool>, n: nat)
    requires n <= |bits|
    ensures ShiftRight(LsbValue(bits), n) == LsbValue(bits[n..])
    decreases n
  {
    if n == 0 {
      assert bits[0..] == bits;
    } else {
      LsbHalves(bits);
      LsbShift(bits[1..], n - 1);
      assert bits[1..][n - 1..] == bits[n..];
    }
  }

  lemma {:induction false} LsbLow(bits: seq<bool>, n: nat)
    requires n <= |bits|
    ensures LowBits(LsbValue(bits), n) == LsbValue(bits[..n])
    decreases n
  {
    if n > 0 {
      LsbHalves(bits);
      LsbLow(bits[1..], n - 1);
      assert bits[1..][..n - 1] == bits[..n][1..];
    }
  }

  /** `~code`, in 32 bits. */
  function Not(code: nat): nat
    requires code < 0x1_0000_0000
  {
    0xFFFF_FFFF - code
  }

  lemma {:induction false} LsbComplement(bits: seq<bool>)
    ensures LsbValue(Complement(bits)) == Pow2(|bits|) - 1 - LsbValue(bits)
  {
    if bits != [] {
      LsbComplement(bits[1..]);
      assert Complement(bits)[1..] == Complement(bits[1..]);
    }
  }

  lemma {:induction false} NotIsComplement(bits: seq<bool>)
    requires |bits| == 32
    ensures LsbValue(bits) < 0x1_0000_0000 && Not(LsbValue(bits)) == LsbValue(Complement(bits))
  {
    LsbBound(bits);
    LsbComplement(bits);
    Width(32);
  }

  lemma {:induction false} Width(n: nat)
    requires n == 32
    ensures Pow2(n) == 0x1_0000_0000
  {
    assert Pow2(8) == 2 * Pow2(7) == 0x100;
    assert Pow2(16) == 2 * Pow2(15) == 0x1_0000;
    assert Pow2(24) == 2 * Pow2(23) == 0x100_0000;
    assert Pow2(32) == 2 * Pow2(31) == 0x1_0000_0000;
  }

  /** `(code >> n) & 0xFF` */
  function ByteOf(code: nat, n: nat): nat {
    LowBits(ShiftRight(code, n), 8)
  }

  lemma {:induction false} ByteIs(bits: seq<bool>, n: nat)
    requires n + 8 <= |bits|
    ensures ByteOf(LsbValue(bits), n) == LsbValue(bits[n..n + 8])
  {
    LsbShift(bits, n);
    LsbLow(bits[n..], 8);
    assert bits[n..][..8] == bits[n..n + 8];
  }

  /** Comparing a byte with a complemented one compares them bit by bit. */
  lemma {:induction false} ComplementedBytes(bits: seq<bool>, code: nat, not: nat, m: nat, n: nat)
    requires |bits| == 32 && m <= 24 && n <= 24 && code == LsbValue(bits) && not == LsbValue(Complement(bits))
    ensures ByteOf(code, m) == ByteOf(not, n) <==> bits[m..m + 8] == Complement(bits[n..n + 8])
  {
    ByteIs(bits, m);
    ByteIs(Complement(bits), n);
    assert Complement(bits)[n..n + 8] == Complement(bits[n..n + 8]);
    if LsbValue(bits[m..m + 8]) == LsbValue(Complement(bits[n..n + 8])) {
      LsbInjective(bits[m..m + 8], Complement(bits[n..n + 8]));
    }
  }

  lemma {:induction false} ReverseSlice(bits: seq<bool>, m: nat, n: nat)
    requires m <= n <= |bits|
    ensures Reverse(bits)[|bits| - n..|bits| - m] == Reverse(bits[m..n])
  {
  }

  lemma {:induction false} ReversedComplement(a: seq<bool>, b: seq<bool>)
    requires |a| == |b|
    ensures Reverse(b) == Complement(Reverse(a)) <==> a == Complement(b)
  {
    if Reverse(b) == Complement(Reverse(a)) {
      forall i | 0 <= i < |a| ensures a[i] == !b[i] {
        assert Reverse(b)[|a| - 1 - i] == !Reverse(a)[|a| - 1 - i];
      }
    }
  }

  lemma {:induction false} ComplementedReversed(bits: seq<bool>)
    requires |bits| == 32
    ensures Complemented(Reverse(bits)) <==>
            bits[24..32] == Complement(bits[16..24]) && bits[8..16] == Complement(bits[0..8])
  {
    ReverseSlice(bits, 24, 32);
    ReverseSlice(bits, 16, 24);
    ReverseSlice(bits, 8, 16);
    ReverseSlice(bits, 0, 8);
    var frame := Reverse(bits);
    assert frame[..8] == frame[0..8] && frame[24..] == frame[24..32];
    ReversedComplement(bits[24..32], bits[16..24]);
    ReversedComplement(bits[8..16], bits[0..8]);
  }

  /** The two checks at the end of `parseX10` are that the frame's bytes are complemented. */
  lemma {:induction false} ChecksAreComplements(bits: seq<bool>, code: nat)
    requires |bits| == 32 && code == LsbValue(bits)
    ensures code < 0x1_0000_0000 && MsbValue(Reverse(bits)) == code
    ensures Complemented(Reverse(bits)) <==>
            ByteOf(code, 24) == ByteOf(Not(code), 16) && ByteOf(code, 8) == ByteOf(Not(code), 0)
  {
    NotIsComplement(bits);
    ComplementedBytes(bits, code, Not(code), 24, 16);
    ComplementedBytes(bits, code, Not(code), 8, 0);
    ComplementedReversed(bits);
    MsbOfReverse(bits);
  }

  lemma {:induction false} MsbOfReverse(bits: seq<bool>)
    ensures MsbValue(Reverse(bits)) == LsbValue(bits)
  {
    MsbIsReversedLsb(Reverse(bits));
    assert Reverse(Reverse(bits)) == bits;
  }

  // ---------------------------------------------------------------- the C function

  lemma {:induction false} NoneStays(counts: seq<nat>, n: nat, m: nat)
    requires n <= m && 2 * m <= |counts| && PairBits(counts, n) == None
    ensures PairBits(counts, m) == None
    decreases m
  {
    if n < m {
      NoneStays(counts, n, m - 1);
    }
  }

  lemma {:induction false} PairStep(counts: seq<nat>, bits: seq<bool>, i: nat, code: nat)
    requires |counts| == 64 && i < 32 && PairBits(counts, i) == Some(bits)
    requires code == X10Bit(counts[2 * i], counts[2 * i + 1])
    ensures code == 2 ==> X10Data(counts) == None
    ensures code != 2 ==> PairBits(counts, i + 1) == Some(bits + [code == 1])
  {
    if code == 2 {
      NoneStays(counts, i + 1, 32);
    }
  }

  /** The two counts of one bit. */
  method ReadBit(ring: seq<bv8>, scanP: nat, scanBit: bv8, ghost start: Pos, ghost bits: seq<bool>)
    returns (bit: nat, p: nat, b: bv8)
    requires IsRing(ring) && IsPos(start) && |bits| < 32 && Points(scanP, scanBit, PosAfter(ring, start, 2 * |bits|))
    requires PairBits(Counts(ring, start, 64), |bits|) == Some(bits)
    ensures bit == 2 ==> X10Data(Counts(ring, start, 64)) == None
    ensures bit != 2 ==>
              bit < 2 && PairBits(Counts(ring, start, 64), |bits| + 1) == Some(bits + [bit == 1])
              && Points(p, b, PosAfter(ring, start, 2 * (|bits| + 1)))
  {
    var b1, b2;
    b1, p, b := CountNext(ring, scanP, scanBit, start, 2 * |bits|, 64);
    b2, p, b := CountNext(ring, p, b, start, 2 * |bits| + 1, 64);
    bit := X10Bit(b1, b2);
    PairStep(Counts(ring, start, 64), bits, |bits|, bit);
  }

  /** The switch of the loop. */
  method AddBit(code0: nat, mask: nat, bit: nat, ghost bits: seq<bool>) returns (code: nat)
    requires bit < 2 && code0 == LsbValue(bits) && mask == Pow2(|bits|)
    ensures code == LsbValue(bits + [bit == 1])
  {
    SetHighBit(bits);
    code := code0;
    if bit == 1 {
      code := SetBit(code, mask);
    }
  }

  /** The comparison of the complement bytes. */
  method Check(code: nat, ghost bits: seq<bool>) returns (message: Option<nat>)
    requires |bits| == 32 && code == LsbValue(bits)
    ensures message == if Complemented(Reverse(bits)) then Some(MsbValue(Reverse(bits))) else None
  {
    ChecksAreComplements(bits, code);
    if ByteOf(code, 24) != ByteOf(Not(code), 16) {
      return None;
    }
    if ByteOf(code, 8) != ByteOf(Not(code), 0) {
      return None;
    }
    message := Some(code);
  }

  /** `parseX10`. */
  method Parse(ring: seq<bv8>, scanP: nat, scanBit: bv8, ghost pos: Pos) returns (message: Option<nat>)
    requires IsRing(ring) && Points(scanP, scanBit, pos)
    ensures message == X10Data(Counts(ring, AfterLast(ring, pos), 64))
  {
    ghost var start := AfterLast(ring, pos);
    ghost var counts := Counts(ring, start, 64);
    ghost var bits: seq<bool> := [];
    var p, b := SkipLast(ring, scanP, scanBit, pos);
    var code, mask := 0, 1;
    var i := 0;
    while i < 32
      invariant 0 <= i <= 32 && |bits| == i && Points(p, b, PosAfter(ring, start, 2 * i))
      invariant PairBits(counts, i) == Some(bits) && code == LsbValue(bits) && (i < 32 ==> mask == Pow2(i))
    {
      var bit;
      bit, p, b := ReadBit(ring, p, b, start, bits);
      if bit == 2 {
        return None;
      }
      code := AddBit(code, mask, bit, bits);
      Doubles(i);
      mask := Doubled(mask);
      bits := bits + [bit == 1];
      i := i + 1;
    }
    message := Check(code, bits);
  }

  // ---------------------------------------------------------------- frames sent

  /** Two pulses that send a bit, in the order in which they are counted. */
  predicate PairFor(b1: nat, b2: nat, bit: bool) {
    b2 <= 12 && if bit then b1 >= 25 else b1 <= 12
  }

  /** Counts of the pulses that send the first n bits. */
  predicate Sends(counts: seq<nat>, bits: seq<bool>, n: nat)
    requires n <= |bits| && 2 * n <= |counts|
    decreases n
  {
    n > 0 ==> PairFor(counts[2 * n - 2], counts[2 * n - 1], bits[n - 1]) && Sends(counts, bits, n - 1)
  }

  lemma {:induction false} PairsSent(counts: seq<nat>, bits: seq<bool>, n: nat)
    requires n <= |bits| && 2 * n <= |counts| && Sends(counts, bits, n)
    ensures PairBits(counts, n) == Some(bits[..n])
    decreases n
  {
    if n > 0 {
      PairsSent(counts, bits, n - 1);
      assert bits[..n - 1] + [bits[n - 1]] == bits[..n];
    }
  }

  /** Exactly the frames with right complements come back, as the number they are. */
  lemma {:induction false} DecodesFrame(frame: seq<bool>, counts: seq<nat>)
    requires |frame| == 32 && |counts| == 64 && Sends(counts, Reverse(frame), 32)
    ensures X10Data(counts) == if Complemented(frame) then Some(MsbValue(frame)) else None
  {
    var bits := Reverse(frame);
    PairsSent(counts, bits, 32);
    assert bits[..32] == bits && Reverse(bits) == frame;
  }

  /** Bits are only read from counts that send them. */
  lemma {:induction false} PairsAreSent(counts: seq<nat>, bits: seq<bool>, n: nat)
    requires n <= |bits| && 2 * n <= |counts| && PairBits(counts, n) == Some(bits[..n])
    ensures Sends(counts, bits, n)
    decreases n
  {
    if n > 0 {
      assert bits[..n][..n - 1] == bits[..n - 1];
      PairsAreSent(counts, bits, n - 1);
    }
  }

  /** Whatever is sent on was sent, with right complements. */
  lemma {:induction false} OnlyFrames(counts: seq<nat>) returns (frame: seq<bool>)
    requires |counts| == 64 && X10Data(counts).Some?
    ensures Complemented(frame) && Sends(counts, Reverse(frame), 32) && X10Data(counts) == Some(MsbValue(frame))
  {
    var bits := PairBits(counts, 32).value;
    frame := Reverse(bits);
    assert bits[..32] == bits && Reverse(frame) == bits;
    PairsAreSent(counts, bits, 32);
  }

  function ByteAt(frame: seq<bool>, m: nat): (byte: seq<bool>)
    requires |frame| == 32 && m < 4
    ensures |byte| == 8
  {
    frame[8 * m..8 * m + 8]
  }

  lemma {:induction false} SameBytes(a: seq<bool>, b: seq<bool>)
    requires |a| == |b| == 32
    requires ByteAt(a, 0) == ByteAt(b, 0) && ByteAt(a, 1) == ByteAt(b, 1)
    requires ByteAt(a, 2) == ByteAt(b, 2) && ByteAt(a, 3) == ByteAt(b, 3)
    ensures a == b
  {
    assert a == ByteAt(a, 0) + ByteAt(a, 1) + ByteAt(a, 2) + ByteAt(a, 3);
    assert b == ByteAt(b, 0) + ByteAt(b, 1) + ByteAt(b, 2) + ByteAt(b, 3);
  }

  lemma {:induction false} ComplementedByBytes(frame: seq<bool>)
    requires |frame| == 32
    ensures Complemented(frame) <==>
            ByteAt(frame, 1) == Complement(ByteAt(frame, 0)) && ByteAt(frame, 3) == Complement(ByteAt(frame, 2))
  {
    assert frame[..8] == ByteAt(frame, 0) && frame[24..] == ByteAt(frame, 3);
  }

  lemma {:induction false} ComplementTwice(bits: seq<bool>)
    ensures Complement(Complement(bits)) == bits
  {
  }

  /** Flipped bits are noticed as long as one byte holds them all. */
  lemma {:induction false} DamageIsCaught(frame: seq<bool>, damaged: seq<bool>, counts: seq<nat>, byte: nat)
    requires Complemented(frame) && |damaged| == 32 && byte < 4 && damaged != frame
    requires forall m :: 0 <= m < 4 && m != byte ==> ByteAt(damaged, m) == ByteAt(frame, m)
    requires |counts| == 64 && Sends(counts, Reverse(damaged), 32)
    ensures X10Data(counts) == None
  {
    DecodesFrame(damaged, counts);
    ComplementedByBytes(frame);
    ComplementedByBytes(damaged);
    if Complemented(damaged) {
      ComplementTwice(ByteAt(frame, 0));
      ComplementTwice(ByteAt(frame, 2));
      ComplementTwice(ByteAt(damaged, 0));
      ComplementTwice(ByteAt(damaged, 2));
      SameBytes(frame, damaged);
    }
  }
}
