/** The backward decoder of rf/mandolyn.c: a 0 is one pulse, a 1 is two; 32 bits after a preamble. */
module Mandolyn {
  import opened Options
  import opened Sequences
  import opened Words
  import opened Ring

  predicate Zero(x: nat) { 30 <= x <= 40 }

  predicate Short(x: nat) { 10 <= x <= 20 }

  /** Bits read from a list of counts, and how many counts they took. */
  datatype Read = Read(bits: seq<bool>, used: nat)

  /** One more bit: the second count is looked at only when the first is no 0. */
  function ReadOne(counts: seq<nat>, front: Read): (r: Option<Read>)
    requires front.used + 2 <= |counts|
    ensures r.Some? ==> r.value.used <= front.used + 2 && |r.value.bits| == |front.bits| + 1
  {
    var b1, b2 := counts[front.used], counts[front.used + 1];
    if Zero(b1) then Some(Read(front.bits + [false], front.used + 1))
    else if Short(b1) && Short(b2) then Some(Read(front.bits + [true], front.used + 2))
    else None
  }

  /** The first n bits that the counts give. */
  function ReadBits(counts: seq<nat>, n: nat): (r: Option<Read>)
    requires 2 * n <= |counts|
    ensures r.Some? ==> r.value.used <= 2 * n && |r.value.bits| == n
    decreases n, |counts|
  {
    if n == 0 then Some(Read([], 0))
    else
      var front := ReadBits(counts, n - 1);
      if front.None? then None else ReadOne(counts, front.value)
  }

  /** A preamble of 1100 is sent first and so heard last; its lowest bit comes first. */
  const PREAMBLE := [false, false, true, true]

  /** What `parseMandolyn` makes of the counts: the last 32 bits sent, if the preamble is 0xC. */
  function MandolynData(counts: seq<nat>): Option<nat>
    requires |counts| == 72
  {
    var r := ReadBits(counts, 36);
    if r.None? || r.value.bits[32..] != PREAMBLE then None else Some(LsbValue(r.value.bits[..32]))
  }

  lemma {:induction false} NoneStays(counts: seq<nat>, n: nat, m: nat)
    requires n <= m && 2 * m <= |counts| && ReadBits(counts, n) == None
    ensures ReadBits(counts, m) == None
    decreases m
  {
    if n < m {
      NoneStays(counts, n, m - 1);
    }
  }

  // ---------------------------------------------------------------- the C functions

  /** The cursor stands behind the counts that the bits so far took. */
  ghost predicate Standing(ring: seq<bv8>, scanP: nat, scanBit: bv8, start: Pos, front: Read) {
    && IsRing(ring) && IsPos(start) && |front.bits| <= 36
    && ReadBits(Counts(ring, start, 72), |front.bits|) == Some(front)
    && Points(scanP, scanBit, PosAfter(ring, start, front.used))
  }

  lemma {:induction false} ReadsLast(counts: seq<nat>, front: Read, bit: bool)
    requires 2 * |front.bits| + 2 <= |counts| && ReadBits(counts, |front.bits|) == Some(front)
    requires if bit then Short(counts[front.used]) && Short(counts[front.used + 1]) else Zero(counts[front.used])
    ensures ReadBits(counts, |front.bits| + 1) == Some(Read(front.bits + [bit], front.used + if bit then 2 else 1))
  {
    assert ReadBits(counts, |front.bits| + 1) == ReadOne(counts, front);
  }

  lemma {:induction false} ReadsNothing(counts: seq<nat>, front: Read)
    requires |counts| == 72 && |front.bits| < 36 && ReadBits(counts, |front.bits|) == Some(front)
    requires var b1, b2 := counts[front.used], counts[front.used + 1]; !Zero(b1) && !(Short(b1) && Short(b2))
    ensures ReadBits(counts, 36) == None
  {
    assert ReadBits(counts, |front.bits| + 1) == ReadOne(counts, front);
    NoneStays(counts, |front.bits| + 1, 36);
  }

  /** `mandolynBit`: 0, 1, or 2 for invalid data. */
  method MandolynBit(ring: seq<bv8>, scanP: nat, scanBit: bv8, ghost start: Pos, ghost front: Read)
    returns (bit: nat, p: nat, b: bv8, ghost next: Read)
    requires Standing(ring, scanP, scanBit, start, front) && |front.bits| < 36
    ensures bit == 2 ==> ReadBits(Counts(ring, start, 72), 36) == None
    ensures bit != 2 ==> bit < 2 && next.bits == front.bits + [bit == 1] && Standing(ring, p, b, start, next)
  {
    ghost var counts := Counts(ring, start, 72);
    next := front;
    var b1;
    b1, p, b := CountNext(ring, scanP, scanBit, start, front.used, 72);
    if Zero(b1) {
      ReadsLast(counts, front, false);
      next := Read(front.bits + [false], front.used + 1);
      return 0, p, b, next;
    }
    var b2;
    b2, p, b := CountNext(ring, p, b, start, front.used + 1, 72);
    if Short(b1) && Short(b2) {
      ReadsLast(counts, front, true);
      next := Read(front.bits + [true], front.used + 2);
      return 1, p, b, next;
    }
    ReadsNothing(counts, front);
    bit := 2;
  }

  /** `if (b) data |= mask`, and the same for the preamble. */
  method AddBit(word0: nat, mask: nat, bit: nat, ghost bits: seq<bool>) returns (word: nat)
    requires bit < 2 && word0 == LsbValue(bits) && mask == Pow2(|bits|)
    ensures word == LsbValue(bits + [bit == 1])
  {
    SetHighBit(bits);
    word := word0;
    if bit != 0 {
      word := SetBit(word, mask);
    }
  }

  /** A loop of `parseMandolyn`: n more bits, as a number. */
  method ReadWord(ring: seq<bv8>, scanP: nat, scanBit: bv8, ghost start: Pos, ghost front: Read, n: nat)
    returns (valid: bool, word: nat, p: nat, b: bv8, ghost last: Read)
    requires Standing(ring, scanP, scanBit, start, front) && |front.bits| + n <= 36 && n <= 32
    ensures !valid ==> ReadBits(Counts(ring, start, 72), 36) == None
    ensures valid ==>
              && Standing(ring, p, b, start, last) && |last.bits| == |front.bits| + n
              && last.bits[..|front.bits|] == front.bits && word == LsbValue(last.bits[|front.bits|..])
  {
    ghost var m := |front.bits|;
    ghost var own: seq<bool> := [];
    var mask := 1;
    p, b, last, word := scanP, scanBit, front, 0;
    assert front.bits + own == front.bits;
    var i := 0;
    while i < n
      invariant 0 <= i <= n && |own| == i && last.bits == front.bits + own && Standing(ring, p, b, start, last)
      invariant word == LsbValue(own) && (i < 32 ==> mask == Pow2(i))
    {
      var bit;
      bit, p, b, last := MandolynBit(ring, p, b, start, last);
      if bit == 2 {
        return false, word, p, b, last;
      }
      word := AddBit(word, mask, bit, own);
      Doubles(i);
      mask := Doubled(mask);
      Associate(front.bits, own, [bit == 1]);
      own := own + [bit == 1];
      i := i + 1;
    }
    assert last.bits[m..] == own && last.bits[..m] == front.bits;
    valid := true;
  }

  lemma {:induction false} PreambleIs(bits: seq<bool>)
    requires |bits| == 4
    ensures LsbValue(bits) == 0xC <==> bits == PREAMBLE
  {
    assert LsbValue(PREAMBLE[3..]) == 1;
    assert LsbValue(PREAMBLE[2..]) == 3 by { assert PREAMBLE[2..][1..] == PREAMBLE[3..]; }
    assert LsbValue(PREAMBLE[1..]) == 6 by { assert PREAMBLE[1..][1..] == PREAMBLE[2..]; }
    assert LsbValue(PREAMBLE) == 0xC;
    if LsbValue(bits) == 0xC {
      LsbInjective(bits, PREAMBLE);
    }
  }

  lemma {:induction false} DataIs(counts: seq<nat>, word: Read, all: Read)
    requires |counts| == 72 && ReadBits(counts, 36) == Some(all) && |word.bits| == 32 && all.bits[..32] == word.bits
    ensures MandolynData(counts) ==
            if LsbValue(all.bits[32..]) == 0xC then Some(LsbValue(word.bits[0..])) else None
  {
    PreambleIs(all.bits[32..]);
    assert word.bits[0..] == word.bits;
  }

  /** `parseMandolyn`. */
  method Parse(ring: seq<bv8>, scanP: nat, scanBit: bv8, ghost pos: Pos) returns (message: Option<nat>)
    requires IsRing(ring) && Points(scanP, scanBit, pos)
    ensures message == MandolynData(Counts(ring, AfterLast(ring, pos), 72))
  {
    ghost var start := AfterLast(ring, pos);
    var p, b := SkipLast(ring, scanP, scanBit, pos);
    var valid, data, preamble;
    ghost var word: Read, all: Read;
    valid, data, p, b, word := ReadWord(ring, p, b, start, Read([], 0), 32);
    if !valid {
      return None;
    }
    valid, preamble, p, b, all := ReadWord(ring, p, b, start, word, 4);
    if !valid {
      return None;
    }
    DataIs(Counts(ring, start, 72), word, all);
    message := if preamble != 0xC then None else Some(data);
  }

  // ---------------------------------------------------------------- frames sent

  /** The counts are those of the bits and of nothing else: one of 30 to 40 for a 0, two of 10 to 20 for a 1. */
  predicate Sends(counts: seq<nat>, bits: seq<bool>)
    decreases |bits|
  {
    var n, m := |bits|, |counts|;
    if n == 0 then m == 0
    else if bits[n - 1] then
      m >= 2 && 10 <= counts[m - 2] <= 20 && 10 <= counts[m - 1] <= 20 && Sends(counts[..m - 2], bits[..n - 1])
    else m >= 1 && 30 <= counts[m - 1] <= 40 && Sends(counts[..m - 1], bits[..n - 1])
  }

  lemma {:induction false} SentLast(counts: seq<nat>, bits: seq<bool>)
    returns (early: seq<nat>, front: seq<bool>, b: bool)
    requires Sends(counts, bits) && bits != []
    ensures bits == front + [b] && early <= counts && |counts| == |early| + (if b then 2 else 1) && Sends(early, front)
    ensures var k := |early|; if b then Short(counts[k]) && Short(counts[k + 1]) else Zero(counts[k])
  {
    var n := |bits| - 1;
    front, b := bits[..n], bits[n];
    early := counts[..|counts| - if b then 2 else 1];
  }

  /** The code is self-delimiting: whatever comes after them, the counts of some bits are read as those bits. */
  lemma {:induction false} ReadsSent(pulses: seq<nat>, bits: seq<bool>, counts: seq<nat>)
    requires Sends(pulses, bits) && pulses <= counts && 2 * |bits| <= |counts|
    ensures ReadBits(counts, |bits|) == Some(Read(bits, |pulses|))
    decreases |bits|
  {
    if bits != [] {
      var early, front, b := SentLast(pulses, bits);
      ReadsSent(early, front, counts);
      var k := |early|;
      assert counts[k] == pulses[k] && (b ==> counts[k + 1] == pulses[k + 1]);
      ReadsLast(counts, Read(front, k), b);
    }
  }

  /** Every frame, its last bit counted first, comes back if and only if it starts with the nibble 0xC. */
  lemma {:induction false} DecodesFrame(frame: seq<bool>, pulses: seq<nat>, counts: seq<nat>)
    requires |frame| == 36 && |counts| == 72 && Sends(pulses, Reverse(frame)) && pulses <= counts
    ensures MandolynData(counts) == if MsbValue(frame[..4]) == 0xC then Some(MsbValue(frame[4..])) else None
  {
    var bits := Reverse(frame);
    ReadsSent(pulses, bits, counts);
    PreambleIs(bits[32..]);
    MsbIsReversedLsb(frame[..4]);
    MsbIsReversedLsb(frame[4..]);
    assert Reverse(frame[..4]) == bits[32..];
    assert Reverse(frame[4..]) == bits[..32];
  }

  /** Bits are only read from counts that send them. */
  lemma {:induction false} ReadIsSent(counts: seq<nat>, n: nat)
    requires 2 * n <= |counts| && ReadBits(counts, n).Some?
    ensures var r := ReadBits(counts, n).value; Sends(counts[..r.used], r.bits)
    decreases n
  {
    if n > 0 {
      var front, r := ReadBits(counts, n - 1).value, ReadBits(counts, n).value;
      ReadIsSent(counts, n - 1);
      assert counts[..r.used][..front.used] == counts[..front.used];
      assert r.bits[..n - 1] == front.bits;
    }
  }

  /** Whatever is sent on was sent: a frame that begins with 0xC stands at the head of the counts. */
  lemma {:induction false} OnlyFrames(counts: seq<nat>) returns (frame: seq<bool>, k: nat)
    requires |counts| == 72 && MandolynData(counts).Some?
    ensures |frame| == 36 && k <= 72 && Sends(counts[..k], Reverse(frame))
    ensures MsbValue(frame[..4]) == 0xC && MandolynData(counts) == Some(MsbValue(frame[4..]))
  {
    var r := ReadBits(counts, 36).value;
    ReadIsSent(counts, 36);
    frame, k := Reverse(r.bits), r.used;
    assert Reverse(frame) == r.bits;
    DecodesFrame(frame, counts[..k], counts);
  }

  /** No pulses are those of two different frames. */
  lemma {:induction false} SendsInjective(pulses: seq<nat>, a: seq<bool>, b: seq<bool>)
    requires |a| == |b| && Sends(pulses, a) && Sends(pulses, b)
    ensures a == b
  {
    var counts := pulses + seq(2 * |a|, _ => 0);
    ReadsSent(pulses, a, counts);
    ReadsSent(pulses, b, counts);
  }
}
