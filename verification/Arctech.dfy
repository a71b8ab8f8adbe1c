/** The backward decoders of rf/arctech.c. */
module Arctech {
  import opened Options
  import opened Sequences
  import opened Words
  import opened Ring

  const SIGNAL_LENGTH := 31

  function CodeSwitchBit(b1: nat, b2: nat, b3: nat, b4: nat): nat {
    if b1 > 15 && b2 < 10 && b3 > 15 && b4 < 10 then 0
    else if b1 < 10 && b2 > 15 && b3 > 15 && b4 < 10 then 1
    else 2
  }

  function SelflearningBit(b1: nat, b2: nat, b3: nat, b4: nat): nat {
    if b1 > 15 && b2 < 10 && b3 < 10 && b4 < 10 then 0
    else if b1 < 10 && b2 < 10 && b3 > 15 && b4 < 10 then 1
    else 2
  }

  /** The bits of the leading valid groups of four counts, at most `max` of them. */
  function LeadingBits(counts: seq<nat>, max: nat): (r: seq<bool>)
    ensures |r| <= max
    decreases |counts|, max
  {
    if max == 0 || |counts| < 4 then []
    else
      var code := SelflearningBit(counts[0], counts[1], counts[2], counts[3]);
      if code == 2 then [] else [code == 1] + LeadingBits(counts[4..], max - 1)
  }

  /** The word kept: all bits read, or the last 32 of them; the last one read is the highest. */
  function Window(bits: seq<bool>): (r: seq<bool>)
    ensures |r| <= 32
  {
    if |bits| <= 32 then bits else bits[|bits| - 32..]
  }

  /** What `parseArcTechSelflearning` makes of the bits it reads backwards. */
  function SelflearningData(bits: seq<bool>): Option<nat> {
    if |bits| < SIGNAL_LENGTH then None else Some(LsbValue(Window(bits)))
  }

  // ---------------------------------------------------------------- self-learning

  lemma {:induction false} NextGroup(counts: seq<nat>, max: nat)
    requires max > 0 && |counts| >= 4
    ensures var code := SelflearningBit(counts[0], counts[1], counts[2], counts[3]);
            LeadingBits(counts, max) == if code == 2 then [] else [code == 1] + LeadingBits(counts[4..], max - 1)
  {
  }

  /** One more bit of the word: the window slides once 32 bits are in. */
  lemma {:induction false} WindowSnoc(bits: seq<bool>, b: bool)
    ensures Window(bits + [b]) == (if |bits| < 32 then bits else Window(bits)[1..]) + [b]
  {
  }

  /** `data`, after shifting the oldest bit out when the window is full, and before the new bit. */
  lemma {:induction false} WindowValue(bits: seq<bool>, data: nat, b: bool)
    requires data == LsbValue(Window(bits))
    ensures var kept := if |bits| >= 32 then data / 2 else data;
            var mask := Pow2(if |bits| < 31 then |bits| else 31);
            LsbValue(Window(bits + [b])) == if b then SetBit(kept, mask) else kept
  {
    var w := if |bits| < 32 then bits else Window(bits)[1..];
    WindowSnoc(bits, b);
    SetHighBit(w);
    assert LsbValue(w) == if |bits| >= 32 then data / 2 else data;
  }

  /** The whole result, with the first i groups already read. */
  ghost predicate LearnedAfter(counts: seq<nat>, bits: seq<bool>, i: nat)
    requires |counts| == 144 && i <= 36
  {
    |bits| == i && bits + LeadingBits(counts[4 * i..], 36 - i) == LeadingBits(counts, 36)
  }

  lemma {:induction false} LearnStep(counts: seq<nat>, bits: seq<bool>, i: nat, code: nat)
    requires |counts| == 144 && i < 36 && LearnedAfter(counts, bits, i)
    requires code == SelflearningBit(counts[4 * i], counts[4 * i + 1], counts[4 * i + 2], counts[4 * i + 3])
    ensures if code == 2 then LeadingBits(counts, 36) == bits else LearnedAfter(counts, bits + [code == 1], i + 1)
  {
    var rest := counts[4 * i..];
    NextGroup(rest, 36 - i);
    assert rest[4..] == counts[4 * (i + 1)..];
    if code == 2 {
      assert bits + [] == bits;
    } else {
      Associate(bits, [code == 1], LeadingBits(counts[4 * (i + 1)..], 36 - (i + 1)));
    }
  }

  lemma {:induction false} LearnEnds(counts: seq<nat>, bits: seq<bool>)
    requires |counts| == 144
    ensures LearnedAfter(counts, [], 0)
    ensures LearnedAfter(counts, bits, 36) ==> LeadingBits(counts, 36) == bits
  {
    assert counts[4 * 0..] == counts;
    assert [] + LeadingBits(counts, 36) == LeadingBits(counts, 36);
    assert bits + [] == bits;
  }

  /** The two loop variables of `parseArcTechSelflearning` after the bits read so far. */
  ghost predicate WordOf(bits: seq<bool>, word: nat, mask: nat) {
    word == LsbValue(Window(bits)) && mask == Pow2(if |bits| < SIGNAL_LENGTH then |bits| else SIGNAL_LENGTH)
  }

  /** Cases 0 and 1 of the switch, and the shift of the mask. */
  method AddBit(i: nat, code: nat, word0: nat, mask0: nat, ghost bits: seq<bool>) returns (word: nat, mask: nat)
    requires code < 2 && |bits| == i && WordOf(bits, word0, mask0)
    ensures WordOf(bits + [code == 1], word, mask)
  {
    WindowValue(bits, word0, code == 1);
    word, mask := word0, mask0;
    if i > SIGNAL_LENGTH {
      word := word / 2;
    }
    if code == 1 {
      word := SetBit(word, mask);
    }
    if i < SIGNAL_LENGTH {
      mask := mask * 2;
    }
  }

  /** `parseArcTechSelflearning`. */
  method ParseSelflearning(ring: seq<bv8>, scanP: nat, scanBit: bv8, ghost pos: Pos) returns (message: Option<nat>)
    requires IsRing(ring) && Points(scanP, scanBit, pos)
    ensures message == SelflearningData(LeadingBits(Counts(ring, AfterLast(ring, pos), 144), 36))
  {
    ghost var start := AfterLast(ring, pos);
    ghost var counts := Counts(ring, start, 144);
    ghost var bits: seq<bool> := [];
    var p, b := SkipLast(ring, scanP, scanBit, pos);
    var word, mask := 0, 1;
    LearnEnds(counts, []);
    var i := 0;
    while i < 36
      invariant 0 <= i <= 36 && Points(p, b, PosAfter(ring, start, 4 * i))
      invariant LearnedAfter(counts, bits, i) && WordOf(bits, word, mask)
    {
      var b1, b2, b3, b4;
      b1, b2, b3, b4, p, b := CountFour(ring, p, b, start, 4 * i, 144);
      var code := SelflearningBit(b1, b2, b3, b4);
      LearnStep(counts, bits, i, code);
      if code == 2 {
        if i >= SIGNAL_LENGTH {
          return Some(word);
        }
        return None;
      }
      word, mask := AddBit(i, code, word, mask, bits);
      bits := bits + [code == 1];
      i := i + 1;
    }
    LearnEnds(counts, bits);
    message := Some(word);
  }

  /** Four counts of a bit, as they are read: three below 10 and one above 15, whose place tells the bit. */
  predicate LearnGroup(b1: nat, b2: nat, b3: nat, b4: nat, bit: bool) {
    b2 < 10 && b4 < 10 && if bit then b1 < 10 && b3 > 15 else b1 > 15 && b3 < 10
  }

  predicate GroupAt(counts: seq<nat>, i: nat, bit: bool)
    requires 4 * i + 4 <= |counts|
  {
    LearnGroup(counts[4 * i], counts[4 * i + 1], counts[4 * i + 2], counts[4 * i + 3], bit)
  }

  predicate IsGroup(counts: seq<nat>, i: nat)
    requires 4 * i + 4 <= |counts|
  {
    GroupAt(counts, i, false) || GroupAt(counts, i, true)
  }

  /** The bits read are those of the groups, up to the first that is none or the 36th. */
  lemma {:induction false} LeadingAreGroups(counts: seq<nat>, max: nat)
    requires 4 * max <= |counts|
    ensures var bits := LeadingBits(counts, max);
            && (forall i :: 0 <= i < |bits| ==> GroupAt(counts, i, bits[i]))
            && (|bits| < max ==> !IsGroup(counts, |bits|))
    decreases max
  {
    if max > 0 {
      NextGroup(counts, max);
      LeadingAreGroups(counts[4..], max - 1);
      LaterGroups(counts, LeadingBits(counts[4..], max - 1), max);
    }
  }

  lemma {:induction false} LaterGroups(counts: seq<nat>, later: seq<bool>, max: nat)
    requires |later| < max && 4 * max <= |counts|
    ensures forall i, b :: 0 <= i <= |later| && i + 1 < max ==> GroupAt(counts[4..], i, b) == GroupAt(counts, i + 1, b)
  {
  }

  /** A number is sent on if and only if the first 31 groups are valid. */
  lemma {:induction false} AcceptsFrom31(counts: seq<nat>)
    requires |counts| == 144
    ensures SelflearningData(LeadingBits(counts, 36)).Some? <==>
            forall i :: 0 <= i < 31 ==> IsGroup(counts, i)
  {
    LeadingAreGroups(counts, 36);
    var bits := LeadingBits(counts, 36);
    if |bits| >= 31 {
      forall i | 0 <= i < 31 ensures IsGroup(counts, i) {
        assert GroupAt(counts, i, bits[i]);
      }
    } else {
      assert !IsGroup(counts, |bits|);
    }
  }

  // ---------------------------------------------------------------- code switch

  /** The twelve groups, read backwards, each 0 or 1; nothing if one is neither. */
  function SwitchBits(counts: seq<nat>, n: nat): Option<seq<bool>>
    requires |counts| >= 4 * n
    decreases |counts|, n
  {
    if n == 0 then Some([])
    else
      var code := CodeSwitchBit(counts[0], counts[1], counts[2], counts[3]);
      var rest := SwitchBits(counts[4..], n - 1);
      if code == 2 || rest == None then None else Some([code == 1] + rest.value)
  }

  /** `parseArcTechCodeSwitch`: the bit read first is the highest; an all-zero word is noise. */
  function CodeSwitchData(counts: seq<nat>): Option<nat>
    requires |counts| >= 48
  {
    var bits := SwitchBits(counts, 12);
    if bits == None || MsbValue(bits.value) == 0 then None else Some(MsbValue(bits.value))
  }

  lemma {:induction false} MsbSnoc(bits: seq<bool>, b: bool)
    ensures MsbValue(bits + [b]) == 2 * MsbValue(bits) + Bit(b)
  {
    assert (bits + [b])[..|bits|] == bits;
  }

  method ParseCodeSwitch(ring: seq<bv8>, scanP: nat, scanBit: bv8, ghost pos: Pos) returns (message: Option<nat>)
    requires IsRing(ring) && Points(scanP, scanBit, pos)
    ensures message == CodeSwitchData(Counts(ring, AfterLast(ring, pos), 48))
  {
    ghost var start := AfterLast(ring, pos);
    ghost var counts := Counts(ring, start, 48);
    ghost var bits: seq<bool> := [];
    var p, b := SkipLast(ring, scanP, scanBit, pos);
    var word := 0;
    var i := 0;
    SwitchEnds(counts, []);
    while i < 12
      invariant 0 <= i <= 12 && |bits| == i && word == MsbValue(bits)
      invariant Points(p, b, PosAfter(ring, start, 4 * i))
      invariant SwitchAfter(counts, bits, i)
    {
      var b1, b2, b3, b4;
      b1, b2, b3, b4, p, b := CountFour(ring, p, b, start, 4 * i, 48);
      var code := CodeSwitchBit(b1, b2, b3, b4);
      SwitchStep(counts, bits, i, code);
      if code == 2 {
        return None;
      }
      MsbSnoc(bits, code == 1);
      word := word * 2 + Bit(code == 1);  // data |= 1 on an even number adds 1
      bits := bits + [code == 1];
      i := i + 1;
    }
    SwitchEnds(counts, bits);
    message := if word == 0 then None else Some(word);
  }

  lemma {:induction false} SwitchEnds(counts: seq<nat>, bits: seq<bool>)
    requires |counts| == 48
    ensures SwitchAfter(counts, [], 0)
    ensures SwitchAfter(counts, bits, 12) ==> SwitchBits(counts, 12) == Some(bits)
  {
    assert counts[4 * 0..] == counts;
    assert bits + [] == bits;
    assert SwitchBits(counts, 12) != None ==> [] + SwitchBits(counts, 12).value == SwitchBits(counts, 12).value;
  }

  /** The whole result, with the first i groups already read. */
  ghost predicate SwitchAfter(counts: seq<nat>, bits: seq<bool>, i: nat)
    requires |counts| == 48 && i <= 12
  {
    var rest := SwitchBits(counts[4 * i..], 12 - i);
    SwitchBits(counts, 12) == if rest == None then None else Some(bits + rest.value)
  }

  lemma {:induction false} SwitchStep(counts: seq<nat>, bits: seq<bool>, i: nat, code: nat)
    requires |counts| == 48 && i < 12 && SwitchAfter(counts, bits, i)
    requires code == CodeSwitchBit(counts[4 * i], counts[4 * i + 1], counts[4 * i + 2], counts[4 * i + 3])
    ensures if code == 2 then SwitchBits(counts, 12) == None else SwitchAfter(counts, bits + [code == 1], i + 1)
  {
    var rest := counts[4 * i..];
    assert rest[4..] == counts[4 * (i + 1)..];
    var later := SwitchBits(rest[4..], 12 - i - 1);
    if code != 2 && later != None {
      assert bits + ([code == 1] + later.value) == (bits + [code == 1]) + later.value;
    }
  }

  /** Four pulses that send a bit of a code switch, in the order in which they are counted. */
  predicate SwitchGroup(b1: nat, b2: nat, b3: nat, b4: nat, bit: bool) {
    b3 > 15 && b4 < 10 && if bit then b1 < 10 && b2 > 15 else b1 > 15 && b2 < 10
  }

  /** Counts of the pulses that send some bits, the first of them read first. */
  predicate SendsSwitch(counts: seq<nat>, bits: seq<bool>)
    requires |counts| >= 4 * |bits|
    decreases |bits|
  {
    bits != [] ==>
      SwitchGroup(counts[0], counts[1], counts[2], counts[3], bits[0]) && SendsSwitch(counts[4..], bits[1..])
  }

  lemma {:induction false} SwitchSent(counts: seq<nat>, bits: seq<bool>, n: nat)
    requires |bits| == n && |counts| >= 4 * n && SendsSwitch(counts, bits)
    ensures SwitchBits(counts, n) == Some(bits)
    decreases n
  {
    if n > 0 {
      SwitchSent(counts[4..], bits[1..], n - 1);
      assert [bits[0]] + bits[1..] == bits;
    }
  }

  /** Every word of twelve bits comes back as its number, except the word of zeros, which counts as noise. */
  lemma {:induction false} DecodesSwitch(counts: seq<nat>, bits: seq<bool>)
    requires |bits| == 12 && |counts| == 48 && SendsSwitch(counts, bits)
    ensures CodeSwitchData(counts) == if exists i :: 0 <= i < 12 && bits[i] then Some(MsbValue(bits)) else None
  {
    SwitchSent(counts, bits, 12);
    ZeroOnlyIfClear(bits);
  }

  lemma {:induction false} SwitchIsSent(counts: seq<nat>, bits: seq<bool>, n: nat)
    requires |bits| == n && |counts| >= 4 * n && SwitchBits(counts, n) == Some(bits)
    ensures SendsSwitch(counts, bits)
    decreases n
  {
    if n > 0 {
      assert bits[1..] == SwitchBits(counts[4..], n - 1).value;
      SwitchIsSent(counts[4..], bits[1..], n - 1);
    }
  }

  /** Whatever is sent on was sent. */
  lemma {:induction false} OnlySwitches(counts: seq<nat>) returns (bits: seq<bool>)
    requires |counts| == 48 && CodeSwitchData(counts).Some?
    ensures |bits| == 12 && SendsSwitch(counts, bits) && CodeSwitchData(counts) == Some(MsbValue(bits))
  {
    bits := SwitchBits(counts, 12).value;
    SwitchLength(counts, 12);
    SwitchIsSent(counts, bits, 12);
  }

  lemma {:induction false} SwitchLength(counts: seq<nat>, n: nat)
    requires |counts| >= 4 * n && SwitchBits(counts, n).Some?
    ensures |SwitchBits(counts, n).value| == n
    decreases n
  {
    if n > 0 {
      SwitchLength(counts[4..], n - 1);
    }
  }

  lemma {:induction false} ZeroOnlyIfClear(bits: seq<bool>)
    ensures MsbValue(bits) == 0 <==> forall i :: 0 <= i < |bits| ==> !bits[i]
    decreases |bits|
  {
    var n := |bits| - 1;
    if n >= 0 {
      ZeroOnlyIfClear(bits[..n]);
      if forall i :: 0 <= i < n ==> !bits[..n][i] {
        assert forall i :: 0 <= i < n ==> !bits[i];
      } else {
        var i :| 0 <= i < n && bits[..n][i];
        assert bits[i];
      }
    }
  }
}
