/**
 The Hasta decoder of rf/hasta.c (TellStick Net timing): two variants of a pulse-pair code
 behind different headers, the newer one with a checksum. A message is sent exactly when a
 whole frame ends.
 */
module Hasta {
  import opened Options
  import opened Sequences
  import opened Pulses
  import opened Words

  datatype Variant = Old | New

  datatype Message = Selflearning(data: nat) | SelflearningV2(data: nat)

  predicate First(p: Pulse) { p.level && 86 <= p.count <= 91 }

  predicate SecondOld(x: nat) { 28 <= x <= 31 }

  predicate SecondNew(x: nat) { 43 <= x <= 46 }

  predicate ThirdNew(x: nat) { 27 <= x <= 31 }

  predicate FourthNew(x: nat) { 4 <= x <= 8 }

  predicate Small(v: Variant, x: nat) {
    if v == Old then 2 <= x <= 4 else 4 <= x <= 8
  }

  predicate Big(v: Variant, x: nat) {
    if v == Old then 5 <= x <= 7 else 9 <= x <= 15
  }

  /** How many bits a packet of the variant has. */
  function Size(v: Variant): nat {
    if v == Old then 32 else 40
  }

  // ---------------------------------------------------------------- what a packet is

  /** A pair of pulses: short then long is 0, long then short is 1. */
  function PairBit(v: Variant, first: nat, second: nat): Option<bool> {
    if Small(v, first) && Big(v, second) then Some(false)
    else if Big(v, first) && Small(v, second) then Some(true)
    else None
  }

  /** The bits of a sequence of pairs. */
  function PairBits(v: Variant, ps: seq<Pulse>): Option<seq<bool>>
    decreases |ps|
  {
    var n := |ps|;
    if n == 0 then Some([])
    else if n == 1 then None
    else
      var front, last := PairBits(v, ps[..n - 2]), PairBit(v, ps[n - 2].count, ps[n - 1].count);
      if front.None? || last.None? then None else Some(front.value + [last.value])
  }

  lemma {:induction false} PairCount(v: Variant, ps: seq<Pulse>)
    ensures PairBits(v, ps).Some? ==> |ps| == 2 * |PairBits(v, ps).value|
    decreases |ps|
  {
    if |ps| >= 2 {
      PairCount(v, ps[..|ps| - 2]);
    }
  }

  predicate Header(v: Variant, ps: seq<Pulse>) {
    && |ps| == HeaderSize(v) && First(ps[0])
    && (if v == Old then SecondOld(ps[1].count)
        else SecondNew(ps[1].count) && ThirdNew(ps[2].count) && FourthNew(ps[3].count))
  }

  function HeaderSize(v: Variant): nat {
    if v == Old then 2 else 4
  }

  /** A header and exactly as many valid pairs as a packet has bits. */
  predicate IsFrame(v: Variant, ps: seq<Pulse>) {
    && |ps| == HeaderSize(v) + 2 * Size(v)
    && Header(v, ps[..HeaderSize(v)])
    && PairBits(v, ps[HeaderSize(v)..]).Some?
  }

  function FrameBits(v: Variant, ps: seq<Pulse>): (bits: seq<bool>)
    requires IsFrame(v, ps)
    ensures |bits| == Size(v)
  {
    PairCount(v, ps[HeaderSize(v)..]);
    PairBits(v, ps[HeaderSize(v)..]).value
  }

  /** The i-th byte of the bits; in each byte the lowest bit comes first. */
  function ByteAt(bits: seq<bool>, i: nat): nat
    requires 8 * i + 8 <= |bits|
  {
    LsbValue(bits[8 * i..8 * i + 8])
  }

  /** The first k bytes as the register holds them: big-endian, moved up while more are to come. */
  function Total(bits: seq<bool>, k: nat): nat
    requires 8 * k <= |bits|
    decreases k, bits
  {
    if k == 0 then 0
    else
      var t := Total(bits, k - 1) + ByteAt(bits, k - 1);
      if k < 4 then t * 256 else t
  }

  function Sum(bits: seq<bool>, k: nat): nat
    requires 8 * k <= |bits|
    decreases k, bits
  {
    if k == 0 then 0 else Sum(bits, k - 1) + ByteAt(bits, k - 1)
  }

  /** What a complete packet sends on: the first four bytes, if the newer variant's five add up to 1. */
  function MessageOf(v: Variant, bits: seq<bool>): Option<Message>
    requires |bits| == Size(v)
  {
    if v == Old then Some(Selflearning(Total(bits, 4)))
    else if (Sum(bits, 4) + ByteAt(bits, 4)) % 256 == 1 then Some(SelflearningV2(Total(bits, 4)))
    else None
  }

  lemma {:induction false} ByteBound(bits: seq<bool>, i: nat)
    requires 8 * i + 8 <= |bits|
    ensures ByteAt(bits, i) < 256
  {
    LsbBound(bits[8 * i..8 * i + 8]);
    EightBits();
  }

  lemma {:induction false} EightBits()
    ensures Pow2(8) == 256
  {
    assert Pow2(2) == 2 * Pow2(1) == 4;
    assert Pow2(4) == 2 * Pow2(3) == 16;
    assert Pow2(6) == 2 * Pow2(5) == 64;
    assert Pow2(8) == 2 * Pow2(7) == 256;
  }

  /** The first four bytes as one number, the first of them highest. */
  function DataOf(bits: seq<bool>): nat
    requires |bits| >= 32
  {
    ByteAt(bits, 0) * 0x100_0000 + ByteAt(bits, 1) * 0x1_0000 + ByteAt(bits, 2) * 0x100 + ByteAt(bits, 3)
  }

  /** It is the register after four bytes. */
  lemma {:induction false} TotalIsBigEndian(bits: seq<bool>)
    requires |bits| >= 32
    ensures Total(bits, 4) == DataOf(bits)
  {
    ByteBound(bits, 0);
    ByteBound(bits, 1);
    ByteBound(bits, 2);
    ByteBound(bits, 3);
    assert Total(bits, 0) == 0;
    assert Total(bits, 1) == ByteAt(bits, 0) * 256;
    assert Total(bits, 2) == (Total(bits, 1) + ByteAt(bits, 1)) * 256;
    assert Total(bits, 3) == (Total(bits, 2) + ByteAt(bits, 2)) * 256;
    assert Total(bits, 4) == Total(bits, 3) + ByteAt(bits, 3);
  }

  // ---------------------------------------------------------------- progress through a packet

  /** How far the decoder is: the bits read so far and, between the pulses of a pair, whether the first was long. */
  datatype Progress =
    | Idle
    | AfterFirst
    | AfterSecond
    | AfterThird
    | Reading(v: Variant, bits: seq<bool>, pre: Option<bool>)

  function Advance(p: Progress, x: Pulse): (Progress, Option<Message>) {
    match p
    case Idle => (if First(x) then AfterFirst else Idle, None)
    case AfterFirst =>
      (if SecondOld(x.count) then Reading(Old, [], None) else if SecondNew(x.count) then AfterSecond else Idle, None)
    case AfterSecond => (if ThirdNew(x.count) then AfterThird else Idle, None)
    case AfterThird => (if FourthNew(x.count) then Reading(New, [], None) else Idle, None)
    case Reading(v, bits, None) =>
      (if Small(v, x.count) then Reading(v, bits, Some(false))
       else if Big(v, x.count) then Reading(v, bits, Some(true)) else Idle, None)
    case Reading(v, bits, Some(long)) =>
      if !(if long then Small(v, x.count) else Big(v, x.count)) then (Idle, None)
      else if |bits| + 1 < Size(v) then (Reading(v, bits + [long], None), None)
      else (Idle, if |bits| + 1 == Size(v) then MessageOf(v, bits + [long]) else None)
  }

  /** The progress stands for the pulses of the current attempt. */
  ghost predicate Stands(p: Progress, a: seq<Pulse>) {
    match p
    case Idle => a == []
    case AfterFirst => |a| == 1 && First(a[0])
    case AfterSecond => |a| == 2 && First(a[0]) && SecondNew(a[1].count)
    case AfterThird => |a| == 3 && First(a[0]) && SecondNew(a[1].count) && ThirdNew(a[2].count)
    case Reading(v, bits, pre) => Read(v, bits, pre, a)
  }

  /** A header, the pairs that give the bits, and perhaps one pulse more. */
  ghost predicate Read(v: Variant, bits: seq<bool>, pre: Option<bool>, a: seq<Pulse>) {
    && |bits| < Size(v)
    && |a| == HeaderSize(v) + 2 * |bits| + (if pre.Some? then 1 else 0)
    && Header(v, a[..HeaderSize(v)])
    && PairBits(v, a[HeaderSize(v)..HeaderSize(v) + 2 * |bits|]) == Some(bits)
    && (pre.Some? ==> if pre.value then Big(v, a[|a| - 1].count) else Small(v, a[|a| - 1].count))
  }

  /** One more pair. */
  lemma {:induction false} PairSnoc(v: Variant, ps: seq<Pulse>, bits: seq<bool>, x: Pulse, y: Pulse)
    requires PairBits(v, ps) == Some(bits)
    ensures var b := PairBit(v, x.count, y.count);
            PairBits(v, ps + [x, y]) == if b.None? then None else Some(bits + [b.value])
  {
    var all := ps + [x, y];
    assert all[..|all| - 2] == ps;
  }

  lemma {:induction false} ReadingPre(v: Variant, bits: seq<bool>, a: seq<Pulse>, x: Pulse, long: bool)
    requires Read(v, bits, None, a)
    requires if long then Big(v, x.count) else Small(v, x.count)
    ensures Read(v, bits, Some(long), a + [x])
  {
    var h := HeaderSize(v);
    assert |a| == h + 2 * |bits|;
    SlicesKept(a, x, h, h + 2 * |bits|);
  }

  lemma {:induction false} SlicesKept<T>(a: seq<T>, x: T, h: nat, k: nat)
    requires h <= k <= |a|
    ensures (a + [x])[..h] == a[..h] && (a + [x])[h..k] == a[h..k]
  {
  }

  lemma {:induction false} LastTwo<T>(a: seq<T>, x: T, h: nat, k: nat)
    requires h <= k && |a| == k + 1
    ensures (a + [x])[h..] == a[h..k] + [a[|a| - 1], x]
    ensures (a + [x])[..h] == a[..h]
  {
  }

  /** The second pulse of a pair, after the first. */
  lemma {:induction false} ReadingPair(v: Variant, bits: seq<bool>, a: seq<Pulse>, x: Pulse, long: bool)
    requires Read(v, bits, Some(long), a)
    ensures var h, b := HeaderSize(v), PairBit(v, a[|a| - 1].count, x.count);
            && (a + [x])[..h] == a[..h]
            && PairBits(v, (a + [x])[h..]) == (if b.None? then None else Some(bits + [b.value]))
            && (b.Some? <==> if long then Small(v, x.count) else Big(v, x.count))
            && (b.Some? ==> b.value == long)
  {
    var h := HeaderSize(v);
    assert |a| == h + 2 * |bits| + 1;
    LastTwo(a, x, h, h + 2 * |bits|);
    PairSnoc(v, a[h..h + 2 * |bits|], bits, a[|a| - 1], x);
  }

  /** The progress keeps standing for the attempt; an attempt that cannot go on is forgotten. */
  lemma {:induction false} AdvanceStands(p: Progress, a: seq<Pulse>, x: Pulse)
    requires Stands(p, a)
    ensures var q := Advance(p, x).0; Stands(q, if q == Idle then [] else a + [x])
  {
    match p
    case Reading(v, bits, None) =>
      if Small(v, x.count) {
        ReadingPre(v, bits, a, x, false);
      } else if Big(v, x.count) {
        ReadingPre(v, bits, a, x, true);
      }
    case Reading(v, bits, Some(long)) =>
      if Advance(p, x).0.Reading? {
        ReadingNext(v, bits, a, x, long);
      }
    case AfterFirst =>
      if SecondOld(x.count) {
        StartReading(Old, a + [x]);
      }
    case AfterThird =>
      if FourthNew(x.count) {
        StartReading(New, a + [x]);
      }
    case _ =>
  }

  lemma {:induction false} StartReading(v: Variant, a: seq<Pulse>)
    requires Header(v, a)
    ensures Read(v, [], None, a)
  {
    var h := HeaderSize(v);
    assert a[..h] == a;
    assert a[h..h] == [];
  }

  lemma {:induction false} ReadingNext(v: Variant, bits: seq<bool>, a: seq<Pulse>, x: Pulse, long: bool)
    requires Read(v, bits, Some(long), a) && |bits| + 1 < Size(v)
    requires if long then Small(v, x.count) else Big(v, x.count)
    ensures Read(v, bits + [long], None, a + [x])
  {
    var h := HeaderSize(v);
    ReadingPair(v, bits, a, x, long);
    TailSlice(a + [x], h, h + 2 * |bits + [long]|);
  }

  lemma {:induction false} TailSlice<T>(a: seq<T>, h: nat, k: nat)
    requires h <= k == |a|
    ensures a[h..k] == a[h..]
  {
  }

  /** A frame is recognised with its last pulse, and nothing else is. */
  lemma {:induction false} RecognisesFrames(p: Progress, a: seq<Pulse>, x: Pulse, v: Variant)
    requires Stands(p, a)
    ensures IsFrame(v, a + [x]) <==>
            p.Reading? && p.v == v && |p.bits| + 1 == Size(v) && p.pre.Some?
            && (if p.pre.value then Small(v, x.count) else Big(v, x.count))
    ensures IsFrame(v, a + [x]) ==> FrameBits(v, a + [x]) == p.bits + [p.pre.value]
    ensures IsFrame(v, a + [x]) ==> Advance(p, x) == (Idle, MessageOf(v, FrameBits(v, a + [x])))
  {
    var h := HeaderSize(v);
    if p.Reading? && p.v == v && p.pre.Some? {
      ReadingPair(v, p.bits, a, x, p.pre.value);
      PairCount(v, (a + [x])[h..]);
    }
  }

  // ---------------------------------------------------------------- over whole histories

  function ProgressAfter(history: seq<Pulse>): Progress
    decreases |history|
  {
    var n := |history|;
    if n == 0 then Idle else Advance(ProgressAfter(history[..n - 1]), history[n - 1]).0
  }

  /** The pulses since the decoder was last idle. */
  function Attempt(history: seq<Pulse>): (a: seq<Pulse>)
    ensures |a| <= |history| && a == history[|history| - |a|..]
    decreases |history|
  {
    var n := |history|;
    if ProgressAfter(history) == Idle then [] else Attempt(history[..n - 1]) + [history[n - 1]]
  }

  lemma {:induction false} NextAttempt(history: seq<Pulse>) returns (front: seq<Pulse>, x: Pulse)
    requires history != []
    ensures history == front + [x] && Sent(history) == Advance(ProgressAfter(front), x).1
    ensures ProgressAfter(history) == Advance(ProgressAfter(front), x).0
    ensures Attempt(history) == if ProgressAfter(history) == Idle then [] else Attempt(front) + [x]
  {
    front, x := history[..|history| - 1], history[|history| - 1];
  }

  lemma {:induction false} AttemptStands(history: seq<Pulse>)
    ensures Stands(ProgressAfter(history), Attempt(history))
    decreases |history|
  {
    if history != [] {
      var front, x := NextAttempt(history);
      AttemptStands(front);
      AdvanceStands(ProgressAfter(front), Attempt(front), x);
    }
  }

  /**
   For every history of pulses and every next pulse: a message is sent if and only if the
   attempt, with that pulse, is a whole frame whose message is worth sending; it is the
   frame's message; and the decoder is then idle again.
   */
  lemma {:induction false} SendsExactlyFrames(history: seq<Pulse>, x: Pulse)
    ensures var sent := Advance(ProgressAfter(history), x).1;
            var a := Attempt(history) + [x];
            && (forall v :: IsFrame(v, a) ==> sent == MessageOf(v, FrameBits(v, a)))
            && (sent.Some? ==> IsFrame(Old, a) || IsFrame(New, a))
            && (IsFrame(Old, a) || IsFrame(New, a) ==> ProgressAfter(history + [x]) == Idle)
  {
    var p, a := ProgressAfter(history), Attempt(history);
    AttemptStands(history);
    RecognisesFrames(p, a, x, Old);
    RecognisesFrames(p, a, x, New);
    assert (history + [x])[..|history|] == history;
  }

  lemma {:induction false} AttemptSnoc(h: seq<Pulse>, x: Pulse)
    requires Advance(ProgressAfter(h), x).0 != Idle
    ensures Attempt(h + [x]) == Attempt(h) + [x]
  {
    assert (h + [x])[..|h|] == h;
  }

  lemma {:induction false} SliceSnoc<T>(before: seq<T>, s: seq<T>, n: nat)
    requires 0 < n <= |s|
    ensures before + s[..n - 1] + [s[n - 1]] == before + s[..n]
    ensures s[..n - 1] + [s[n - 1]] == s[..n]
  {
  }

  /** From idle, a frame is always the attempt: nothing in it starts the decoder over. */
  lemma {:induction false} FramesAreAttempts(before: seq<Pulse>, v: Variant, frame: seq<Pulse>, n: nat)
    requires ProgressAfter(before) == Idle && IsFrame(v, frame) && n < |frame|
    ensures Attempt(before + frame[..n]) == frame[..n]
  {
    if n == 0 {
      assert before + frame[..0] == before;
    } else {
      FramesAreAttempts(before, v, frame, n - 1);
      AttemptGoesOn(before + frame[..n - 1], v, frame, n);
      SliceSnoc(before, frame, n);
    }
  }

  lemma {:induction false} AttemptGoesOn(history: seq<Pulse>, v: Variant, frame: seq<Pulse>, n: nat)
    requires IsFrame(v, frame) && 0 < n < |frame| && Attempt(history) == frame[..n - 1]
    ensures Attempt(history + [frame[n - 1]]) == frame[..n - 1] + [frame[n - 1]]
  {
    AttemptStands(history);
    FrameGoesOn(ProgressAfter(history), v, frame, n);
    AttemptSnoc(history, frame[n - 1]);
  }

  /** Inside a frame the next pulse is always one that the decoder takes. */
  lemma {:induction false} FrameGoesOn(p: Progress, v: Variant, frame: seq<Pulse>, n: nat)
    requires IsFrame(v, frame) && 0 < n < |frame| && Stands(p, frame[..n - 1])
    ensures Advance(p, frame[n - 1]).0 != Idle
  {
    if n <= HeaderSize(v) {
      HeaderGoesOn(p, v, frame[..HeaderSize(v)], frame[..n - 1], n);
    } else {
      PairsGoOn(p, v, frame, n);
    }
  }

  lemma {:induction false} HeaderGoesOn(p: Progress, v: Variant, header: seq<Pulse>, before: seq<Pulse>, n: nat)
    requires |header| == HeaderSize(v) && Header(v, header) && 0 < n <= |header| && before == header[..n - 1]
    requires Stands(p, before)
    ensures Advance(p, header[n - 1]).0 != Idle
  {
    assert forall j :: 0 <= j < n - 1 ==> before[j] == header[j];
  }

  lemma {:induction false} PairsGoOn(p: Progress, v: Variant, frame: seq<Pulse>, n: nat)
    requires IsFrame(v, frame) && HeaderSize(v) < n < |frame| && Stands(p, frame[..n - 1])
    ensures Advance(p, frame[n - 1]).0 != Idle
  {
    var h := HeaderSize(v);
    assert frame[..n - 1][..h] == frame[..h];
    SameVariant(p, v, frame, n - 1);
    var k := |p.bits|;
    PairsInside(v, frame[h..], k);
    PulseOfPair(p, frame[..n - 1], frame[h + 2 * k], frame[h + 2 * k + 1], frame[n - 1]);
  }

  lemma {:induction false} PulseOfPair(p: Progress, before: seq<Pulse>, first: Pulse, second: Pulse, x: Pulse)
    requires p.Reading? && Stands(p, before) && PairBit(p.v, first.count, second.count).Some?
    requires if p.pre.None? then x == first
             else x == second && before[|before| - 1] == first && |p.bits| + 1 < Size(p.v)
    ensures Advance(p, x).0 != Idle
  {
  }

  /** Every pair of a valid sequence is valid. */
  lemma {:induction false} PairsInside(v: Variant, ps: seq<Pulse>, k: nat)
    requires PairBits(v, ps).Some? && 2 * k + 1 < |ps|
    ensures PairBit(v, ps[2 * k].count, ps[2 * k + 1].count).Some?
    decreases |ps|
  {
    PairCount(v, ps);
    if 2 * k + 2 < |ps| {
      PairsInside(v, ps[..|ps| - 2], k);
    }
  }

  lemma {:induction false} SameVariant(p: Progress, v: Variant, frame: seq<Pulse>, m: nat)
    requires HeaderSize(v) <= m < |frame| && Header(v, frame[..HeaderSize(v)]) && Stands(p, frame[..m])
    ensures p.Reading? && p.v == v
  {
    assert frame[..m][1] == frame[..HeaderSize(v)][1] && frame[..m][0] == frame[..HeaderSize(v)][0];
    if p.Reading? {
      assert frame[..m][..HeaderSize(p.v)][1] == frame[..m][1];
    }
  }

  /** What the last pulse of a history makes the decoder send. */
  function Sent(history: seq<Pulse>): Option<Message> {
    var n := |history|;
    if n == 0 then None else Advance(ProgressAfter(history[..n - 1]), history[n - 1]).1
  }

  /** The history ends with a whole frame that began while the decoder was idle. */
  predicate EndsWithFrame(history: seq<Pulse>, start: nat, v: Variant) {
    start <= |history| && ProgressAfter(history[..start]) == Idle && IsFrame(v, history[start..])
  }

  /** The decoder was idle where the attempt begins. */
  lemma {:induction false} IdleBeforeAttempt(history: seq<Pulse>) returns (before: seq<Pulse>)
    ensures before + Attempt(history) == history && ProgressAfter(before) == Idle
    decreases |history|
  {
    if ProgressAfter(history) == Idle {
      before := history;
      NothingAdded(history);
    } else {
      var front, x := NextAttempt(history);
      before := IdleBeforeAttempt(front);
      Associate(before, Attempt(front), [x]);
    }
  }

  lemma {:induction false} FrameIsSent(history: seq<Pulse>, start: nat, v: Variant)
    requires EndsWithFrame(history, start, v)
    ensures Sent(history) == MessageOf(v, FrameBits(v, history[start..])) && ProgressAfter(history) == Idle
  {
    var n, frame := |history|, history[start..];
    var m := |frame|;
    FramesAreAttempts(history[..start], v, frame, m - 1);
    assert history[..start] + frame[..m - 1] == history[..n - 1];
    SliceSnoc([], frame, m);
    SliceSnoc([], history, n);
    assert [] + frame[..m] == frame && frame[..m] == frame && history[..n] == history;
    SendsExactlyFrames(history[..n - 1], history[n - 1]);
  }

  /** Inside a frame nothing is sent. */
  lemma {:induction false} SilentInside(before: seq<Pulse>, v: Variant, frame: seq<Pulse>, n: nat)
    requires ProgressAfter(before) == Idle && IsFrame(v, frame) && 0 < n < |frame|
    ensures Sent(before + frame[..n]) == None
  {
    FramesAreAttempts(before, v, frame, n);
    var front, x := NextAttempt(before + frame[..n]);
  }

  function ListOf(m: Option<Message>): seq<Message> {
    if m.None? then [] else [m.value]
  }

  /** What is sent along the way while some pulses are streamed. */
  function SentAlong(history: seq<Pulse>, more: seq<Pulse>): seq<Message>
    decreases |more|
  {
    if more == [] then [] else SentAlong(history, more[..|more| - 1]) + ListOf(Sent(history + more))
  }

  lemma {:induction false} AlongOne(history: seq<Pulse>, more: seq<Pulse>, x: Pulse)
    ensures SentAlong(history, more + [x]) == SentAlong(history, more) + ListOf(Sent((history + more) + [x]))
  {
    assert (more + [x])[..|more|] == more;
    Associate(history, more, [x]);
  }

  lemma {:induction false} SentAlongConcat(history: seq<Pulse>, a: seq<Pulse>, b: seq<Pulse>)
    ensures SentAlong(history, a + b) == SentAlong(history, a) + SentAlong(history + a, b)
    decreases |b|
  {
    if b == [] {
      NothingAdded(a);
      NothingAdded(SentAlong(history, a));
    } else {
      var front, x := b[..|b| - 1], b[|b| - 1];
      assert b == front + [x];
      SentAlongConcat(history, a, front);
      SentAlongMore(history, a, front, x, SentAlong(history, a), SentAlong(history + a, front));
    }
  }

  lemma {:induction false} SentAlongMore(history: seq<Pulse>, a: seq<Pulse>, front: seq<Pulse>, x: Pulse,
                                         first: seq<Message>, second: seq<Message>)
    requires SentAlong(history, a + front) == first + second && SentAlong(history + a, front) == second
    ensures SentAlong(history, a + (front + [x])) == first + SentAlong(history + a, front + [x])
  {
    AlongOne(history, a + front, x);
    AlongOne(history + a, front, x);
    Associate(a, front, [x]);
    Associate(history, a, front);
    Associate(first, second, ListOf(Sent(((history + a) + front) + [x])));
  }

  lemma {:induction false} NothingAlong(before: seq<Pulse>, v: Variant, frame: seq<Pulse>, n: nat)
    requires ProgressAfter(before) == Idle && IsFrame(v, frame) && n < |frame|
    ensures SentAlong(before, frame[..n]) == []
  {
    if n > 0 {
      NothingAlong(before, v, frame, n - 1);
      SilentInside(before, v, frame, n);
      assert frame[..n][..n - 1] == frame[..n - 1];
    }
  }

  /** A frame streamed from idle sends its own message and nothing else. */
  lemma {:induction false} FrameAlong(before: seq<Pulse>, v: Variant, frame: seq<Pulse>)
    requires ProgressAfter(before) == Idle && IsFrame(v, frame)
    ensures SentAlong(before, frame) == ListOf(MessageOf(v, FrameBits(v, frame)))
    ensures ProgressAfter(before + frame) == Idle
  {
    var n := |frame| - 1;
    NothingAlong(before, v, frame, n);
    Halves(before, frame);
    FrameIsSent(before + frame, |before|, v);
    NothingAdded(ListOf(Sent(before + frame)));
  }

  /** A message is that of the whole attempt. */
  lemma {:induction false} SentByFrame(history: seq<Pulse>) returns (start: nat, v: Variant)
    requires Sent(history).Some?
    ensures EndsWithFrame(history, start, v)
  {
    var front, x := NextAttempt(history);
    v := AttemptIsFrame(front, x);
    var before := IdleBeforeAttempt(front);
    Associate(before, Attempt(front), [x]);
    Halves(before, Attempt(front) + [x]);
    start := |before|;
  }

  lemma {:induction false} AttemptIsFrame(history: seq<Pulse>, x: Pulse) returns (v: Variant)
    requires Advance(ProgressAfter(history), x).1.Some?
    ensures IsFrame(v, Attempt(history) + [x])
  {
    SendsExactlyFrames(history, x);
    v := if IsFrame(Old, Attempt(history) + [x]) then Old else New;
  }

  lemma {:induction false} Halves<T>(a: seq<T>, b: seq<T>)
    ensures (a + b)[..|a|] == a && (a + b)[|a|..] == b
  {
  }

  /**
   For every history of pulses: its last pulse makes the decoder send a message if and only if
   the history ends with a whole frame begun while idle, and the message is that frame's.
   */
  lemma {:induction false} SentIffFrame(history: seq<Pulse>, message: Message)
    ensures Sent(history) == Some(message) <==>
            exists start: nat, v ::
              EndsWithFrame(history, start, v) && MessageOf(v, FrameBits(v, history[start..])) == Some(message)
  {
    if Sent(history) == Some(message) {
      var start, v := SentByFrame(history);
      assert EndsWithFrame(history, start, v);
    }
    forall start: nat, v | EndsWithFrame(history, start, v)
      ensures Sent(history) == MessageOf(v, FrameBits(v, history[start..]))
    {
      FrameIsSent(history, start, v);
    }
  }

  // ---------------------------------------------------------------- frames and messages by numbers

  /** A bit of the newer variant: 4 to 8 samples and 9 to 15 for 0, the other way round for 1. */
  predicate NewPair(x: nat, y: nat, bit: bool) {
    if bit then 9 <= x <= 15 && 4 <= y <= 8 else 4 <= x <= 8 && 9 <= y <= 15
  }

  /** One of the older variant: 2 to 4 samples and 5 to 7. */
  predicate OldPair(x: nat, y: nat, bit: bool) {
    if bit then 5 <= x <= 7 && 2 <= y <= 4 else 2 <= x <= 4 && 5 <= y <= 7
  }

  /** The k-th pair of a sequence. */
  function PairAt(v: Variant, ps: seq<Pulse>, k: nat): Option<bool>
    requires 2 * k + 1 < |ps|
  {
    PairBit(v, ps[2 * k].count, ps[2 * k + 1].count)
  }

  lemma {:induction false} PairsByIndex(v: Variant, ps: seq<Pulse>, n: nat)
    requires |ps| == 2 * n
    ensures PairBits(v, ps).Some? <==> forall k :: 0 <= k < n ==> PairAt(v, ps, k).Some?
    ensures PairBits(v, ps).Some? ==> |PairBits(v, ps).value| == n
    ensures PairBits(v, ps).Some? ==> forall k :: 0 <= k < n ==> PairAt(v, ps, k) == Some(PairBits(v, ps).value[k])
    decreases n
  {
    if n > 0 {
      var front := ps[..2 * n - 2];
      PairsByIndex(v, front, n - 1);
      forall k | 0 <= k < n - 1 ensures PairAt(v, front, k) == PairAt(v, ps, k) {
        assert front[2 * k] == ps[2 * k] && front[2 * k + 1] == ps[2 * k + 1];
      }
      assert PairAt(v, ps, n - 1) == PairBit(v, ps[2 * n - 2].count, ps[2 * n - 1].count);
    }
  }

  /** A frame of the newer variant and its bits, in samples. */
  predicate IsNewFrame(ps: seq<Pulse>, bits: seq<bool>) {
    && |ps| == 84 && |bits| == 40
    && ps[0].level && 86 <= ps[0].count <= 91 && 43 <= ps[1].count <= 46
    && 27 <= ps[2].count <= 31 && 4 <= ps[3].count <= 8
    && forall k :: 0 <= k < 40 ==> NewPair(ps[4 + 2 * k].count, ps[4 + 2 * k + 1].count, bits[k])
  }

  /** A frame of the older variant. */
  predicate IsOldFrame(ps: seq<Pulse>, bits: seq<bool>) {
    && |ps| == 66 && |bits| == 32
    && ps[0].level && 86 <= ps[0].count <= 91 && 28 <= ps[1].count <= 31
    && forall k :: 0 <= k < 32 ==> OldPair(ps[2 + 2 * k].count, ps[2 + 2 * k + 1].count, bits[k])
  }

  lemma {:induction false} PairsAre(v: Variant, ps: seq<Pulse>, bits: seq<bool>)
    requires |ps| == 2 * |bits|
    ensures PairBits(v, ps) == Some(bits) <==> forall k :: 0 <= k < |bits| ==> PairAt(v, ps, k) == Some(bits[k])
  {
    PairsByIndex(v, ps, |bits|);
    if forall k :: 0 <= k < |bits| ==> PairAt(v, ps, k) == Some(bits[k]) {
      assert PairBits(v, ps).value == bits;
    }
  }

  lemma {:induction false} PairsBehind(v: Variant, ps: seq<Pulse>, h: nat, bits: seq<bool>)
    requires |ps| == h + 2 * |bits|
    ensures PairBits(v, ps[h..]) == Some(bits) <==>
            forall k :: 0 <= k < |bits| ==> PairBit(v, ps[h + 2 * k].count, ps[h + 2 * k + 1].count) == Some(bits[k])
  {
    PairsAre(v, ps[h..], bits);
    forall k | 0 <= k < |bits|
      ensures PairAt(v, ps[h..], k) == PairBit(v, ps[h + 2 * k].count, ps[h + 2 * k + 1].count)
    {
      assert ps[h..][2 * k] == ps[h + 2 * k] && ps[h..][2 * k + 1] == ps[h + 2 * k + 1];
    }
  }

  /** These are the frames that the decoder recognises. */
  lemma {:induction false} NewFrames(ps: seq<Pulse>, bits: seq<bool>)
    ensures IsNewFrame(ps, bits) <==> IsFrame(New, ps) && FrameBits(New, ps) == bits
  {
    if |ps| == 84 && |bits| == 40 {
      PairsBehind(New, ps, 4, bits);
    }
  }

  lemma {:induction false} OldFrames(ps: seq<Pulse>, bits: seq<bool>)
    ensures IsOldFrame(ps, bits) <==> IsFrame(Old, ps) && FrameBits(Old, ps) == bits
  {
    if |ps| == 66 && |bits| == 32 {
      PairsBehind(Old, ps, 2, bits);
    }
  }

  /** Behind an idle decoder a whole frame of the newer variant is sent on if its five bytes add up to 1 mod 256. */
  lemma {:induction false} NewFrameSends(history: seq<Pulse>, start: nat, bits: seq<bool>)
    requires start <= |history| && ProgressAfter(history[..start]) == Idle && IsNewFrame(history[start..], bits)
    ensures Sent(history) == if AddUp(bits) then Some(SelflearningV2(DataOf(bits))) else None
    ensures ProgressAfter(history) == Idle
  {
    NewFrames(history[start..], bits);
    FrameIsSent(history, start, New);
    NewMessages(bits);
  }

  /** The checksum of the newer variant: its five bytes are 1 together, modulo 256. */
  predicate AddUp(bits: seq<bool>)
    requires |bits| == 40
  {
    (ByteAt(bits, 0) + ByteAt(bits, 1) + ByteAt(bits, 2) + ByteAt(bits, 3) + ByteAt(bits, 4)) % 256 == 1
  }

  lemma {:induction false} NewMessages(bits: seq<bool>)
    requires |bits| == 40
    ensures MessageOf(New, bits) == if AddUp(bits) then Some(SelflearningV2(DataOf(bits))) else None
  {
    TotalIsBigEndian(bits);
    SumOfFour(bits);
  }

  lemma {:induction false} SumOfFour(bits: seq<bool>)
    requires |bits| >= 32
    ensures Sum(bits, 4) == ByteAt(bits, 0) + ByteAt(bits, 1) + ByteAt(bits, 2) + ByteAt(bits, 3)
  {
    assert Sum(bits, 2) == Sum(bits, 1) + ByteAt(bits, 1);
  }

  /** One of the older variant always is. */
  lemma {:induction false} OldFrameSends(history: seq<Pulse>, start: nat, bits: seq<bool>)
    requires start <= |history| && ProgressAfter(history[..start]) == Idle && IsOldFrame(history[start..], bits)
    ensures Sent(history) == Some(Selflearning(DataOf(bits))) && ProgressAfter(history) == Idle
  {
    OldFrames(history[start..], bits);
    FrameIsSent(history, start, Old);
    TotalIsBigEndian(bits);
  }

  /** What the 32 bits of an older or the 40 bits of a newer frame have sent. */
  function MessagesOf(bits: seq<bool>): seq<Message>
    requires |bits| == 32 || |bits| == 40
  {
    if |bits| == 32 then [Selflearning(DataOf(bits))] else if AddUp(bits) then [SelflearningV2(DataOf(bits))] else []
  }

  /** A frame streamed from idle sends that and nothing else. */
  lemma {:induction false} FrameAlongBits(before: seq<Pulse>, frame: seq<Pulse>, bits: seq<bool>)
    requires ProgressAfter(before) == Idle && (IsOldFrame(frame, bits) || IsNewFrame(frame, bits))
    ensures SentAlong(before, frame) == MessagesOf(bits)
  {
    if |bits| == 32 {
      OldFrames(frame, bits);
      TotalIsBigEndian(bits);
      FrameAlong(before, Old, frame);
    } else {
      NewFrames(frame, bits);
      NewMessages(bits);
      FrameAlong(before, New, frame);
    }
  }

  /** And nothing else is sent. */
  lemma {:induction false} SentIsFrame(history: seq<Pulse>) returns (start: nat, bits: seq<bool>)
    requires Sent(history).Some?
    ensures start <= |history| && ProgressAfter(history[..start]) == Idle
    ensures IsNewFrame(history[start..], bits) || IsOldFrame(history[start..], bits)
  {
    var v;
    start, v := SentByFrame(history);
    bits := FrameBits(v, history[start..]);
    if v == New {
      NewFrames(history[start..], bits);
    } else {
      OldFrames(history[start..], bits);
    }
  }

  // ---------------------------------------------------------------- the C functions

  datatype Phase = Nothing | First1 | OldParse | SecondNew1 | ThirdNew1 | NewParse

  /** The static variables of the file. */
  datatype State = State(
    phase: Phase, prepulse: nat, pulsecount: nat, mask: nat, hastabyte: nat, bytecount: nat,
    hastadata: nat, totalhastadata: nat)

  const CLEARED := State(Nothing, 0, 0, 1, 0, 0, 0, 0)

  /** The byte being read, after some whole ones. */
  predicate ByteRegister(s: State, bits: seq<bool>) {
    && |bits| == 8 * s.bytecount + s.pulsecount
    && s.mask == Pow2(s.pulsecount) && s.hastabyte == LsbValue(bits[8 * s.bytecount..])
    && s.hastabyte < s.mask
  }

  /** The variables hold exactly the progress: nothing of an earlier attempt is left in them. */
  predicate Rep(s: State, p: Progress) {
    match p
    case Idle => s == CLEARED
    case AfterFirst => s == CLEARED.(phase := First1)
    case AfterSecond => s == CLEARED.(phase := SecondNew1)
    case AfterThird => s == CLEARED.(phase := ThirdNew1)
    case Reading(v, bits, pre) =>
      && s.phase == (if v == Old then OldParse else NewParse)
      && s.prepulse == (if pre.None? then 0 else if pre.value then 2 else 1)
      && |bits| < Size(v) && s.pulsecount < 8 && ByteRegister(s, bits)
      && s.totalhastadata == Total(bits, s.bytecount) && s.hastadata == Sum(bits, s.bytecount)
  }

  lemma {:induction false} TotalsPrefix(bits: seq<bool>, b: bool, k: nat)
    requires 8 * k <= |bits|
    ensures Total(bits + [b], k) == Total(bits, k) && Sum(bits + [b], k) == Sum(bits, k)
    decreases k, bits
  {
    if k > 0 {
      TotalsPrefix(bits, b, k - 1);
      assert (bits + [b])[8 * (k - 1)..8 * (k - 1) + 8] == bits[8 * (k - 1)..8 * (k - 1) + 8];
    }
  }

  /** One more bit in the byte register, above all that are in it. */
  function AddBit(s: State, b: bool): State {
    s.(prepulse := 0, pulsecount := s.pulsecount + 1, mask := 2 * s.mask,
    hastabyte := if b then s.hastabyte + s.mask else s.hastabyte)
  }

  lemma {:induction false} RegisterNext(s: State, bits: seq<bool>, b: bool)
    requires ByteRegister(s, bits)
    ensures ByteRegister(AddBit(s, b), bits + [b])
  {
    var low := bits[8 * s.bytecount..];
    assert (bits + [b])[8 * s.bytecount..] == low + [b];
    LsbAppend(low, b);
    LsbBound(low + [b]);
  }

  /** The switch, before the pairs. */
  function HeaderStep(s: State, level: bool, count: Count): State {
    match s.phase
    case Nothing => if level && 86 <= count <= 91 then s.(phase := First1) else s
    case First1 =>
      if 28 <= count <= 31 then s.(phase := OldParse)
      else if 43 <= count <= 46 then s.(phase := SecondNew1)
      else CLEARED
    case SecondNew1 => if 27 <= count <= 31 then s.(phase := ThirdNew1) else CLEARED
    case ThirdNew1 => if 4 <= count <= 8 then s.(phase := NewParse) else CLEARED
    case _ => s
  }

  /** The two parse cases of the switch, which differ in the pulse windows only. */
  function ParseStep(s: State, v: Variant, count: nat): State {
    if s.prepulse == 0 then
      if Small(v, count) then s.(prepulse := 1) else if Big(v, count) then s.(prepulse := 2) else CLEARED
    else if s.prepulse == 1 then if Big(v, count) then AddBit(s, false) else CLEARED
    else if Small(v, count) then AddBit(s, true) else CLEARED
  }

  /** `if (pulsecount == 8)`: the fifth byte of the newer variant stays in the register. */
  function ByteStep(s: State): State {
    if s.pulsecount != 8 then s
    else
      var t := s.(bytecount := s.bytecount + 1, pulsecount := 0, mask := 1);
      if t.bytecount >= 5 then t
      else
        var total := s.totalhastadata + s.hastabyte;
        t.(totalhastadata := if t.bytecount < 4 then total * 256 else total,
        hastadata := s.hastadata + s.hastabyte, hastabyte := 0)
  }

  predicate PacketComplete(s: State) {
    (s.phase == OldParse && s.bytecount == 4) || (s.phase == NewParse && s.bytecount == 5)
  }

  /** What a complete packet leaves to send. */
  function Checked(s: State): Option<Message> {
    if s.phase == OldParse then Some(Selflearning(s.totalhastadata))
    else if (s.hastadata + s.hastabyte) % 256 == 1 then Some(SelflearningV2(s.totalhastadata))
    else None
  }

  function PacketStep(s: State): (State, Option<Message>) {
    if PacketComplete(s) then (CLEARED, Checked(s)) else (s, None)
  }

  /** What `streamHasta` does to the variables, and what it sends. */
  function Step(s: State, level: bool, count: Count): (State, Option<Message>) {
    var t := if s.phase == OldParse then ParseStep(s, Old, count)
             else if s.phase == NewParse then ParseStep(s, New, count) else HeaderStep(s, level, count);
    PacketStep(ByteStep(t))
  }

  /** A bit has just been added and the byte, or the packet, may be complete. */
  predicate PairDone(s: State, v: Variant, bits: seq<bool>) {
    && s.phase == (if v == Old then OldParse else NewParse) && s.prepulse == 0
    && 0 < |bits| <= Size(v) && s.pulsecount <= 8 && s.bytecount < Size(v) / 8 && ByteRegister(s, bits)
    && s.totalhastadata == Total(bits, s.bytecount) && s.hastadata == Sum(bits, s.bytecount)
  }

  lemma {:induction false} PairCompletes(s: State, v: Variant, bits: seq<bool>)
    requires PairDone(s, v, bits)
    ensures var (t, message) := PacketStep(ByteStep(s));
            && Rep(t, if |bits| < Size(v) then Reading(v, bits, None) else Idle)
            && message == (if |bits| < Size(v) then None else MessageOf(v, bits))
  {
    if s.pulsecount == 8 {
      assert bits[8 * s.bytecount..] == bits[8 * s.bytecount..8 * s.bytecount + 8];
    }
  }

  lemma {:induction false} ReadyToRead(s: State, v: Variant, bits: seq<bool>)
    requires s == CLEARED.(phase := if v == Old then OldParse else NewParse) && |bits| == 0
    ensures Rep(s, Reading(v, bits, None))
  {
  }

  lemma {:induction false} HeaderKeepsRep(s: State, p: Progress, level: bool, count: Count)
    requires Rep(s, p) && !p.Reading?
    ensures var t, a := HeaderStep(s, level, count), Advance(p, Pulse(level, count));
            Rep(t, a.0) && a.1 == None && t.pulsecount == 0 && t.bytecount == 0
  {
    var t, q := HeaderStep(s, level, count), Advance(p, Pulse(level, count)).0;
    if q.Reading? {
      ReadyToRead(t, q.v, q.bits);
    }
  }

  /** Between packets and in headers nothing is counted, so nothing is completed. */
  lemma {:induction false} HeaderCompletesNothing(s: State, level: bool, count: Count)
    requires s.phase != OldParse && s.phase != NewParse
    requires var t := HeaderStep(s, level, count); t.pulsecount == 0 && t.bytecount == 0
    ensures Step(s, level, count) == (HeaderStep(s, level, count), None)
  {
  }

  lemma {:induction false} HeaderRefines(s: State, p: Progress, level: bool, count: Count)
    requires Rep(s, p) && !p.Reading?
    ensures Refines(s, p, level, count)
  {
    HeaderKeepsRep(s, p, level, count);
    HeaderCompletesNothing(s, level, count);
  }

  lemma {:induction false} FirstOfPairRefines(s: State, p: Progress, level: bool, count: Count)
    requires Rep(s, p) && p.Reading? && p.pre.None?
    ensures Refines(s, p, level, count)
  {
    var t := ParseStep(s, p.v, count);
    assert Rep(t, Advance(p, Pulse(level, count)).0);
    assert ByteStep(t) == t && PacketStep(t) == (t, None);
  }

  lemma {:induction false} PairRefines(s: State, p: Progress, level: bool, count: Count)
    requires Rep(s, p) && p.Reading? && p.pre.Some?
    ensures Refines(s, p, level, count)
  {
    var t := ParseStep(s, p.v, count);
    if if p.pre.value then Small(p.v, count) else Big(p.v, count) {
      RegisterNext(s, p.bits, p.pre.value);
      TotalsPrefix(p.bits, p.pre.value, s.bytecount);
      assert t == AddBit(s, p.pre.value);
      PairCompletes(t, p.v, p.bits + [p.pre.value]);
    } else {
      assert t == CLEARED;
    }
  }

  /** The variables take the same step as the progress they hold, and send the same. */
  predicate Refines(s: State, p: Progress, level: bool, count: Count) {
    var (t, message) := Step(s, level, count);
    var (q, meant) := Advance(p, Pulse(level, count));
    Rep(t, q) && message == meant
  }

  /** The variables refine the progress, whatever the pulse. */
  lemma {:induction false} StepRefines(s: State, p: Progress, level: bool, count: Count)
    requires Rep(s, p)
    ensures Refines(s, p, level, count)
  {
    if !p.Reading? {
      HeaderRefines(s, p, level, count);
    } else if p.pre.None? {
      FirstOfPairRefines(s, p, level, count);
    } else {
      PairRefines(s, p, level, count);
    }
  }

  /** Whatever pulses came, the variables hold exactly the progress made. */
  function StateAfter(history: seq<Pulse>): (s: State)
    ensures Rep(s, ProgressAfter(history))
    decreases |history|
  {
    var n := |history|;
    if n == 0 then CLEARED
    else
      var s, x := StateAfter(history[..n - 1]), history[n - 1];
      StepRefines(s, ProgressAfter(history[..n - 1]), x.level, x.count);
      Step(s, x.level, x.count).0
  }

  lemma {:induction false} TotalFits(bits: seq<bool>, k: nat)
    requires 8 * k <= |bits| && k <= 4
    ensures Sum(bits, k) <= 255 * k
    ensures Total(bits, k) <= if k == 0 then 0 else if k == 1 then 0xFF00 else if k == 2 then 0xFFFF00
                              else if k == 3 then 0xFFFF_FF00 else 0xFFFF_FFFF
  {
    if k > 0 {
      ByteBound(bits, k - 1);
      TotalFits(bits, k - 1);
    }
  }

  /** No history overflows a variable: the model's unbounded numbers are the C code's words. */
  lemma {:induction false} RegistersFit(history: seq<Pulse>)
    ensures var s := StateAfter(history);
            && s.pulsecount < 8 && s.mask <= 128 && s.hastabyte < 128 && s.bytecount <= 4
            && s.hastadata <= 1020 && s.totalhastadata < 0x1_0000_0000
  {
    var s, p := StateAfter(history), ProgressAfter(history);
    if p.Reading? {
      TotalFits(p.bits, s.bytecount);
      Pow2Step(s.pulsecount, 7);
      EightBits();
      assert Pow2(8) == 2 * Pow2(7);
    }
  }

  lemma {:induction false} Pow2Step(k: nat, n: nat)
    requires k <= n
    ensures Pow2(k) <= Pow2(n)
    decreases n - k
  {
    if k < n {
      Pow2Step(k + 1, n);
    }
  }

  class Decoder {
    var hastastate: Phase
    var prepulse: nat
    var pulsecount: nat
    var mask: nat
    var hastabyte: nat
    var bytecount: nat
    var hastadata: nat
    var totalhastadata: nat
    var sent: seq<Message>        // what went through rfMessage
    ghost var history: seq<Pulse> // every pulse streamed so far

    function Current(): State
      reads this
    {
      State(hastastate, prepulse, pulsecount, mask, hastabyte, bytecount, hastadata, totalhastadata)
    }

    /** The variables hold exactly the progress through the packet that the pulses so far make. */
    ghost predicate Valid()
      reads this
    {
      Rep(Current(), ProgressAfter(history))
    }

    constructor ()
      ensures Valid() && Current() == CLEARED && sent == [] && history == []
    {
      hastastate, prepulse, pulsecount, mask, hastabyte, bytecount := Nothing, 0, 0, 1, 0, 0;
      hastadata, totalhastadata, sent, history := 0, 0, [], [];
    }

    method ClearHasta()
      modifies this
      ensures Current() == CLEARED && sent == old(sent) && history == old(history)
    {
      prepulse := 0;
      hastadata := 0;
      totalhastadata := 0;
      mask := 1;
      hastastate := Nothing;
      pulsecount := 0;
      bytecount := 0;
      hastabyte := 0;
    }

    method ParsePulse(v: Variant, count: nat)
      requires hastabyte < mask
      modifies this
      ensures Current() == ParseStep(old(Current()), v, count) && sent == old(sent) && history == old(history)
    {
      if prepulse == 0 {
        if Small(v, count) {
          prepulse := 1;
        } else if Big(v, count) {
          prepulse := 2;
        } else {
          ClearHasta();
        }
      } else if prepulse == 1 {
        if Big(v, count) {
          prepulse := 0;
          pulsecount := pulsecount + 1;
          mask := 2 * mask;
        } else {
          ClearHasta();
        }
      } else if Small(v, count) {
        prepulse := 0;
        pulsecount := pulsecount + 1;
        SetBitAbove(hastabyte, mask);
        hastabyte := SetBit(hastabyte, mask);
        mask := 2 * mask;
      } else {
        ClearHasta();
      }
    }

    method HeaderPulse(level: bool, count: Count)
      modifies this
      ensures Current() == HeaderStep(old(Current()), level, count) && sent == old(sent) && history == old(history)
    {
      if hastastate == Nothing {
        if level && 86 <= count <= 91 {
          hastastate := First1;
        }
      } else if hastastate == First1 {
        if 28 <= count <= 31 {
          hastastate := OldParse;
        } else if 43 <= count <= 46 {
          hastastate := SecondNew1;
        } else {
          ClearHasta();
        }
      } else if hastastate == SecondNew1 {
        if 27 <= count <= 31 {
          hastastate := ThirdNew1;
        } else {
          ClearHasta();
        }
      } else if hastastate == ThirdNew1 {
        if 4 <= count <= 8 {
          hastastate := NewParse;
        } else {
          ClearHasta();
        }
      }
    }

    method CompleteByte()
      modifies this`bytecount, this`totalhastadata, this`hastadata, this`hastabyte, this`pulsecount, this`mask
      ensures Current() == ByteStep(old(Current()))
    {
      if pulsecount == 8 {
        bytecount := bytecount + 1;
        if bytecount < 5 {
          totalhastadata := totalhastadata + hastabyte;
          if bytecount < 4 {
            totalhastadata := totalhastadata * 256;
          }
          hastadata := hastadata + hastabyte;
          hastabyte := 0;
        }
        pulsecount := 0;
        mask := 1;
      }
    }

    /** The end of the function: a packet with all its bytes is sent on, or dropped for its checksum. */
    method CompletePacket()
      modifies this
      ensures history == old(history)
      ensures var step := PacketStep(old(Current())); Current() == step.0 && sent == old(sent) + ListOf(step.1)
    {
      if hastastate == OldParse && bytecount == 4 {
        var temptotalhastadata := totalhastadata;
        ClearHasta();
        sent := sent + [Selflearning(temptotalhastadata)];
        return;
      }
      if hastastate == NewParse && bytecount == 5 {
        var hastachecksum, temphastadata, temptotalhastadata := hastabyte, hastadata, totalhastadata;
        ClearHasta();
        if (temphastadata + hastachecksum) % 256 != 1 {
          return;
        }
        sent := sent + [SelflearningV2(temptotalhastadata)];
      }
    }

    /** `streamHasta`: sends exactly the frames that end with this pulse. */
    method Stream(level: bool, count: Count)
      requires Valid()
      modifies this
      ensures Valid() && history == old(history) + [Pulse(level, count)]
      ensures sent == old(sent) + ListOf(Sent(history))
    {
      StepRefines(Current(), ProgressAfter(history), level, count);
      history := history + [Pulse(level, count)];
      assert history[..|history| - 1] == old(history);
      if hastastate == OldParse {
        ParsePulse(Old, count);
      } else if hastastate == NewParse {
        ParsePulse(New, count);
      } else {
        HeaderPulse(level, count);
      }
      CompleteByte();
      CompletePacket();
    }
  }
}
