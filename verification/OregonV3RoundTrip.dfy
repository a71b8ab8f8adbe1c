/**
 The Oregon v3 line code and its round trip through the decoder of rf/oregonv3.c. Bit b takes
 two half-bit times: the opposite of the level before it, then b; what is heard are the runs of
 these half-bits.
 */
module OregonV3RoundTrip {
  import opened Options
  import opened Sequences
  import opened Bits
  import opened Pulses
  import opened RunLength
  import opened OregonV3

  /** The half-bits after a level: each bit ends on its own level and begins by leaving the last one. */
  function Cells(last: bool, bits: seq<bool>): seq<bool>
    decreases bits
  {
    if bits == [] then [] else [!last, bits[0]] + Cells(bits[0], bits[1..])
  }

  /** One long pulse, or two short ones. */
  function BitRuns(last: bool, b: bool): (r: seq<Run>)
    ensures r != []
  {
    if b == !last then [RunLength.Run(b, 2)] else [RunLength.Run(!last, 1), RunLength.Run(b, 1)]
  }

  function CodeRuns(last: bool, bits: seq<bool>): seq<Run>
    decreases bits
  {
    if bits == [] then [] else BitRuns(last, bits[0]) + CodeRuns(bits[0], bits[1..])
  }

  lemma {:induction false} CellsOfBit(last: bool, b: bool)
    ensures Expand(BitRuns(last, b)) == [!last, b] && Maximal(BitRuns(last, b))
    ensures BitRuns(last, b)[0].level == !last && BitRuns(last, b)[|BitRuns(last, b)| - 1].level == b
  {
    RepeatSmall(b);
    RepeatSmall(!last);
    if b == !last {
      ExpandOne(RunLength.Run(b, 2));
    } else {
      ExpandOne(RunLength.Run(!last, 1));
      ExpandSnoc([RunLength.Run(!last, 1)], RunLength.Run(b, 1));
      assert BitRuns(last, b) == [RunLength.Run(!last, 1)] + [RunLength.Run(b, 1)];
    }
  }

  lemma {:induction false} CodeExpands(last: bool, bits: seq<bool>)
    ensures Expand(CodeRuns(last, bits)) == Cells(last, bits) && Maximal(CodeRuns(last, bits))
    ensures bits != [] ==> CodeRuns(last, bits) != [] && CodeRuns(last, bits)[0].level == !last
    decreases bits
  {
    if bits != [] {
      var front, back := BitRuns(last, bits[0]), CodeRuns(bits[0], bits[1..]);
      CellsOfBit(last, bits[0]);
      CodeExpands(bits[0], bits[1..]);
      ExpandAppend(front, back);
      JoinMaximal(front, back);
    }
  }

  /** They are what run-length coding makes of the half-bits. */
  lemma {:induction false} RunsOfCode(last: bool, bits: seq<bool>)
    ensures Runs(Cells(last, bits)) == CodeRuns(last, bits)
  {
    CodeExpands(last, bits);
    RunsAre(Cells(last, bits), CodeRuns(last, bits));
  }

  /** A pulse heard for a run of one or two half-bits, by its samples. */
  predicate Hears(run: Run, p: Pulse) {
    p.level == run.level && if run.count == 1 then IsShort(p) else run.count == 2 && IsLong(p)
  }

  /** High pulses come one sample short and low ones one sample long. */
  predicate IsShort(p: Pulse) {
    if p.level then 5 <= p.count <= 10 else 7 <= p.count <= 12
  }

  predicate IsLong(p: Pulse) {
    if p.level then 13 <= p.count <= 20 else 15 <= p.count <= 22
  }

  /** For every half time: which pulses are taken, what bit they complete, and how time goes on. */
  lemma {:induction false} HearsIsExact(h: nat, p: Pulse)
    requires h < 0x1_0000
    ensures BitStep(h, p.level, Width(p.level, p.count)) ==
            if IsLong(p) && h % 2 == 0 then ((h + 2) % 0x1_0000, Bit(p.level))
            else if IsShort(p) then ((h + 1) % 0x1_0000, if h % 2 == 1 then Bit(p.level) else MoreData)
            else (h, Invalid)
  {
  }

  ghost predicate Heard(runs: seq<Run>, pulses: seq<Pulse>) {
    |pulses| == |runs| && forall i :: 0 <= i < |runs| ==> Hears(runs[i], pulses[i])
  }

  lemma {:induction false} HeardSplit(a: seq<Run>, b: seq<Run>, pulses: seq<Pulse>)
    requires Heard(a + b, pulses)
    ensures Heard(a, pulses[..|a|]) && Heard(b, pulses[|a|..])
  {
    forall i | 0 <= i < |a| ensures Hears(a[i], pulses[i]) {
      assert (a + b)[i] == a[i];
    }
    forall i | 0 <= i < |b| ensures Hears(b[i], pulses[|a|..][i]) {
      assert (a + b)[|a| + i] == b[i];
    }
  }

  function Out(m: Option<Message>): seq<Message> {
    if m.Some? then [m.value] else []
  }

  ghost function StreamRun(s: State, pulses: seq<Pulse>): (State, seq<Message>)
    requires Inv(s)
    decreases pulses
  {
    if pulses == [] then (s, [])
    else
      var (t, m) := Step(s, pulses[0].level, pulses[0].count);
      StepKeepsInv(s, pulses[0].level, pulses[0].count);
      var (u, ms) := StreamRun(t, pulses[1..]);
      (u, Out(m) + ms)
  }

  lemma {:induction false} RunCons(s: State, p: Pulse, rest: seq<Pulse>)
    requires Inv(s)
    ensures var (t, m) := Step(s, p.level, p.count);
            && Inv(t)
            && StreamRun(s, [p] + rest) == (StreamRun(t, rest).0, Out(m) + StreamRun(t, rest).1)
  {
    StepKeepsInv(s, p.level, p.count);
    assert ([p] + rest)[1..] == rest;
  }

  lemma {:induction false} RunAppend(s: State, a: seq<Pulse>, t: State, ms: seq<Message>, b: seq<Pulse>)
    requires Inv(s) && StreamRun(s, a) == (t, ms)
    ensures Inv(t)
    ensures StreamRun(s, a + b).0 == StreamRun(t, b).0
    ensures StreamRun(s, a + b).1 == ms + StreamRun(t, b).1
    decreases a
  {
    if a == [] {
      assert a + b == b;
      NothingAdded(StreamRun(t, b).1);
    } else {
      var p, rest := a[0], a[1..];
      var (u, m) := Step(s, p.level, p.count);
      RunCons(s, p, rest);
      assert [p] + rest == a;
      var mid := StreamRun(u, rest).1;
      RunAppend(u, rest, t, mid, b);
      RunCons(s, p, rest + b);
      Associate([p], rest, b);
      Associate(Out(m), mid, StreamRun(t, b).1);
    }
  }

  lemma {:induction false} RunOne(s: State, p: Pulse)
    requires Inv(s)
    ensures StreamRun(s, [p]) == (var (t, m) := Step(s, p.level, p.count); (t, Out(m)))
  {
    RunCons(s, p, []);
    assert [p] + [] == [p];
    NothingAdded(Out(Step(s, p.level, p.count).1));
  }

  // ---------------------------------------------------------------- pulses to bits

  predicate Reading(s: State) {
    Inv(s) && (s.phase == ParseId || s.phase == ParsePayload)
  }

  /** A decoded bit takes two half-bit times. */
  function TakeBit(s: State, b: bool): (State, Option<Message>)
    requires Reading(s)
  {
    FeedBit(s.(halfTime := Add16(s.halfTime, 2)), b)
  }

  lemma {:induction false} TakeKeepsInv(s: State, b: bool)
    requires Reading(s)
    ensures Inv(TakeBit(s, b).0)
  {
    FeedKeepsInv(s, Add16(s.halfTime, 2), b);
  }

  /** The register is cleared before the first bit of a byte, however often that is done. */
  lemma {:induction false} StaleByte(s: State, b: bool)
    requires s.nibble <= 4
    ensures FeedBit(s.(byte := if s.byteCnt == 0 then 0 else s.byte), b) == FeedBit(s, b)
  {
  }

  /** On a half-bit boundary, the pulses of one bit give that bit. */
  lemma {:induction false} OneBit(s: State, last: bool, b: bool, pulses: seq<Pulse>)
    requires Reading(s) && s.halfTime % 2 == 0 && Heard(BitRuns(last, b), pulses)
    ensures StreamRun(s, pulses) == (TakeBit(s, b).0, Out(TakeBit(s, b).1))
  {
    var runs := BitRuns(last, b);
    assert Hears(runs[0], pulses[0]);
    if b == !last {
      StaleByte(s.(halfTime := Add16(s.halfTime, 2)), b);
      RunOne(s, pulses[0]);
      assert pulses == [pulses[0]];
    } else {
      assert Hears(runs[1], pulses[1]);
      TwoShorts(s, b, pulses[0], pulses[1]);
      assert pulses == [pulses[0]] + [pulses[1]];
    }
  }

  lemma {:induction false} TwoShorts(s: State, b: bool, p: Pulse, q: Pulse)
    requires Reading(s) && s.halfTime % 2 == 0 && IsShort(p) && IsShort(q) && q.level == b
    ensures StreamRun(s, [p] + [q]) == (TakeBit(s, b).0, Out(TakeBit(s, b).1))
  {
    var half := s.(halfTime := Add16(s.halfTime, 1), byte := if s.byteCnt == 0 then 0 else s.byte);
    StaleByte(s.(halfTime := Add16(s.halfTime, 2)), b);
    HalfWay(s.halfTime);
    RunOne(s, p);
    RunOne(half, q);
    RunAppend(s, [p], half, [], [q]);
    NothingAdded(Out(TakeBit(s, b).1));
  }

  lemma {:induction false} HalfWay(h: nat)
    requires h < 0x1_0000 && h % 2 == 0
    ensures Add16(h, 1) % 2 == 1 && Add16(Add16(h, 1), 1) == Add16(h, 2) && Add16(h, 2) % 2 == 0
  {
  }

  /** The bits on their way through the byte and the stream machine, while it reads. */
  function FeedBits(s: State, bits: seq<bool>): (State, seq<Message>)
    requires Inv(s)
    decreases bits
  {
    if bits == [] || !Reading(s) then (s, [])
    else
      var (t, m) := TakeBit(s, bits[0]);
      TakeKeepsInv(s, bits[0]);
      var (u, ms) := FeedBits(t, bits[1..]);
      (u, Out(m) + ms)
  }

  /** The machine reads until the last of the bits is in. */
  predicate Listens(s: State, bits: seq<bool>)
    requires Inv(s)
    decreases bits
  {
    bits == [] || (Reading(s) && (TakeKeepsInv(s, bits[0]); |bits| == 1 || Listens(TakeBit(s, bits[0]).0, bits[1..])))
  }

  lemma {:induction false} TakeHalfTime(s: State, b: bool)
    requires Reading(s)
    ensures var t := TakeBit(s, b).0; Reading(t) ==> t.halfTime == Add16(s.halfTime, 2)
  {
  }

  lemma {:induction false} FeedCons(s: State, b: bool, rest: seq<bool>)
    requires Reading(s)
    ensures var (t, m) := TakeBit(s, b);
            Inv(t) && FeedBits(s, [b] + rest) == (FeedBits(t, rest).0, Out(m) + FeedBits(t, rest).1)
  {
    TakeKeepsInv(s, b);
    assert ([b] + rest)[1..] == rest;
  }

  /** The pulses of the first bit, cut from those of all. */
  lemma {:induction false} CutBit(last: bool, b: bool, rest: seq<bool>, pulses: seq<Pulse>)
    returns (own: seq<Pulse>, later: seq<Pulse>)
    requires Heard(BitRuns(last, b) + CodeRuns(b, rest), pulses)
    ensures own + later == pulses && Heard(BitRuns(last, b), own) && Heard(CodeRuns(b, rest), later)
  {
    var k := |BitRuns(last, b)|;
    HeardSplit(BitRuns(last, b), CodeRuns(b, rest), pulses);
    own, later := pulses[..k], pulses[k..];
  }

  /** For every bit sequence: while it reads, the decoder gets exactly the bits, two half times each. */
  lemma {:induction false} PulsesAreBits(s: State, last: bool, bits: seq<bool>, pulses: seq<Pulse>)
    requires Inv(s) && s.halfTime % 2 == 0 && Listens(s, bits) && Heard(CodeRuns(last, bits), pulses)
    ensures StreamRun(s, pulses) == FeedBits(s, bits)
    decreases bits
  {
    if bits != [] {
      var b, rest := bits[0], bits[1..];
      var own, later := CutBit(last, b, rest, pulses);
      assert bits == [b] + rest;
      var t, m := NextState(s, b, rest);
      OneBit(s, last, b, own);
      PulsesAreBits(t, b, rest, later);
      RunAppend(s, own, t, Out(m), later);
    }
  }

  /** After a bit, still on a half-bit boundary, and reading if there is another. */
  lemma {:induction false} NextState(s: State, b: bool, rest: seq<bool>) returns (t: State, m: Option<Message>)
    requires Inv(s) && s.halfTime % 2 == 0 && Listens(s, [b] + rest)
    ensures Reading(s) && (t, m) == TakeBit(s, b) && Inv(t) && t.halfTime % 2 == 0 && Listens(t, rest)
    ensures FeedBits(s, [b] + rest) == (FeedBits(t, rest).0, Out(m) + FeedBits(t, rest).1)
  {
    assert ([b] + rest)[1..] == rest;
    FeedCons(s, b, rest);
    HalfWay(s.halfTime);
    t, m := TakeBit(s, b).0, TakeBit(s, b).1;
  }

  /** What the first pulses of some bits do: n bits are taken, and perhaps half of another. */
  ghost predicate HalfTimeIs(s: State, last: bool, bits: seq<bool>, pulses: seq<Pulse>, n: nat, half: nat)
    requires Inv(s)
  {
    && n <= |bits| && half <= 1 && |CodeRuns(last, bits[..n])| + half == |pulses|
    && BitsAreTaken(s, bits[..n], pulses, half) && TimeIs(s, pulses, 2 * n + half)
  }

  ghost predicate BitsAreTaken(s: State, bits: seq<bool>, pulses: seq<Pulse>, half: nat)
    requires Inv(s)
  {
    half == 0 ==> StreamRun(s, pulses) == FeedBits(s, bits)
  }

  /** As long as the decoder reads, its 16-bit counter has counted the halves. */
  ghost predicate TimeIs(s: State, pulses: seq<Pulse>, halves: nat)
    requires Inv(s)
  {
    var t := StreamRun(s, pulses).0;
    Reading(t) ==> t.halfTime == (s.halfTime + halves) % 0x1_0000
  }

  lemma {:induction false} NoneCount(s: State, last: bool, bits: seq<bool>)
    requires Inv(s)
    ensures HalfTimeIs(s, last, bits, [], 0, 0)
  {
  }

  lemma {:induction false} HalfCounts(s: State, last: bool, bits: seq<bool>, p: Pulse)
    requires Reading(s) && s.halfTime % 2 == 0 && Hears(RunLength.Run(!last, 1), p)
    ensures HalfTimeIs(s, last, bits, [p], 0, 1)
  {
    RunOne(s, p);
  }

  lemma {:induction false} AddHalves(h: nat, x: nat)
    requires h < 0x1_0000
    ensures (Add16(h, 2) + x) % 0x1_0000 == (h + 2 + x) % 0x1_0000
  {
    if h + 2 >= 0x1_0000 {
      assert h + 2 + x == 0x1_0000 + (Add16(h, 2) + x);
    }
  }

  lemma {:induction false} BitIsTaken(s: State, last: bool, b: bool, front: seq<bool>, own: seq<Pulse>,
                                      later: seq<Pulse>, half: nat)
    requires Reading(s) && s.halfTime % 2 == 0 && Heard(BitRuns(last, b), own)
    requires Inv(TakeBit(s, b).0) && BitsAreTaken(TakeBit(s, b).0, front, later, half)
    ensures BitsAreTaken(s, [b] + front, own + later, half)
  {
    var (t, m) := TakeBit(s, b);
    OneBit(s, last, b, own);
    RunAppend(s, own, t, Out(m), later);
    FeedCons(s, b, front);
  }

  lemma {:induction false} BitTakesTime(s: State, last: bool, b: bool, own: seq<Pulse>, later: seq<Pulse>, halves: nat)
    requires Reading(s) && s.halfTime % 2 == 0 && Heard(BitRuns(last, b), own)
    requires Inv(TakeBit(s, b).0) && TimeIs(TakeBit(s, b).0, later, halves) && (later == [] || Reading(TakeBit(s, b).0))
    ensures TimeIs(s, own + later, halves + 2)
  {
    var (t, m) := TakeBit(s, b);
    OneBit(s, last, b, own);
    RunAppend(s, own, t, Out(m), later);
    TakeHalfTime(s, b);
    AddHalves(s.halfTime, halves);
  }

  lemma {:induction false} BitCounts(s: State, last: bool, b: bool, rest: seq<bool>, own: seq<Pulse>, later: seq<Pulse>,
                                     n: nat, half: nat)
    requires Reading(s) && s.halfTime % 2 == 0 && Heard(BitRuns(last, b), own)
    requires Inv(TakeBit(s, b).0) && HalfTimeIs(TakeBit(s, b).0, b, rest, later, n, half)
    requires later == [] || Reading(TakeBit(s, b).0)
    ensures HalfTimeIs(s, last, [b] + rest, own + later, n + 1, half)
  {
    FirstOfMore(b, rest, n);
    CodeCons(last, b, rest[..n]);
    BitIsTaken(s, last, b, rest[..n], own, later, half);
    BitTakesTime(s, last, b, own, later, 2 * n + half);
  }

  lemma {:induction false} FirstOfMore<T>(x: T, rest: seq<T>, n: nat)
    requires n <= |rest|
    ensures ([x] + rest)[..n + 1] == [x] + rest[..n]
  {
  }

  lemma {:induction false} CodeCons(last: bool, b: bool, rest: seq<bool>)
    ensures CodeRuns(last, [b] + rest) == BitRuns(last, b) + CodeRuns(b, rest)
  {
    assert ([b] + rest)[1..] == rest;
  }

  /** The pulses of the first bit, with those behind it that lie among the first k. */
  lemma {:induction false} CutPrefix(last: bool, b: bool, rest: seq<bool>, pulses: seq<Pulse>, k: nat)
    returns (own: seq<Pulse>, later: seq<Pulse>)
    requires Heard(CodeRuns(last, [b] + rest), pulses) && |BitRuns(last, b)| <= k <= |pulses|
    ensures Heard(BitRuns(last, b), own) && Heard(CodeRuns(b, rest), later)
    ensures |own| + |later| == |pulses| && |own| <= k && own + later[..k - |own|] == pulses[..k]
  {
    CodeCons(last, b, rest);
    own, later := CutBit(last, b, rest, pulses);
  }

  /**
   For every bit sequence and after every one of its pulses: as long as the decoder reads,
   halfTime has grown, in 16 bits, by two for each bit taken and by one more between the two
   short pulses of a bit.
   */
  lemma {:induction false} HalfTimeCounts(s: State, last: bool, bits: seq<bool>, pulses: seq<Pulse>, k: nat)
    returns (n: nat, half: nat)
    requires Inv(s) && s.halfTime % 2 == 0 && Listens(s, bits) && Heard(CodeRuns(last, bits), pulses) && k <= |pulses|
    ensures HalfTimeIs(s, last, bits, pulses[..k], n, half)
    decreases bits, 1
  {
    if k == 0 {
      n, half := 0, 0;
      NoneCount(s, last, bits);
    } else {
      var b, rest := bits[0], bits[1..];
      assert bits == [b] + rest;
      n, half := FirstCounts(s, last, b, rest, pulses, k);
    }
  }

  lemma {:induction false} FirstCounts(s: State, last: bool, b: bool, rest: seq<bool>, pulses: seq<Pulse>, k: nat)
    returns (n: nat, half: nat)
    requires Inv(s) && s.halfTime % 2 == 0 && Listens(s, [b] + rest) && Heard(CodeRuns(last, [b] + rest), pulses)
    requires 0 < k <= |pulses|
    ensures HalfTimeIs(s, last, [b] + rest, pulses[..k], n, half)
    decreases [b] + rest, 0
  {
    var t, m := NextState(s, b, rest);
    if k < |BitRuns(last, b)| {
      n, half := 0, 1;
      FirstHalf(last, b, rest, pulses, k);
      HalfCounts(s, last, [b] + rest, pulses[0]);
    } else {
      var own, later := CutPrefix(last, b, rest, pulses, k);
      n, half := HalfTimeCounts(t, b, rest, later, k - |own|);
      BitCounts(s, last, b, rest, own, later[..k - |own|], n, half);
      n := n + 1;
    }
  }

  lemma {:induction false} FirstHalf(last: bool, b: bool, rest: seq<bool>, pulses: seq<Pulse>, k: nat)
    requires Heard(CodeRuns(last, [b] + rest), pulses) && 0 < k < |BitRuns(last, b)| && k <= |pulses|
    ensures pulses[..k] == [pulses[0]] && Hears(RunLength.Run(!last, 1), pulses[0])
  {
    CodeCons(last, b, rest);
    assert Hears(CodeRuns(last, [b] + rest)[0], pulses[0]);
  }

  // ---------------------------------------------------------------- bits to bytes

  /** The bits of a byte as they are sent: the high nibble first, each nibble lowest bit first. */
  function ByteBits(v: bv8): (r: seq<bool>)
    ensures |r| == 8
  {
    [BitOf(v, 3), BitOf(v, 2), BitOf(v, 1), BitOf(v, 0), BitOf(v, 7), BitOf(v, 6), BitOf(v, 5), BitOf(v, 4)]
  }

  function PacketBits(bytes: seq<bv8>): seq<bool> {
    if bytes == [] then [] else ByteBits(bytes[0]) + PacketBits(bytes[1..])
  }

  /** The register after the first k bits of a byte. */
  function Assembled(v: bv8, k: nat): bv8
    requires k <= 8
    decreases k, v
  {
    if k == 0 then 0 else Assemble(Assembled(v, k - 1), if k - 1 <= 4 then k - 1 else k - 5, ByteBits(v)[k - 1])
  }

  lemma {:induction false} AllAssembled(v: bv8)
    ensures Assembled(v, 8) == v
  {
    var b := ByteBits(v);
    var x1 := Assemble(0, 0, b[0]);
    var x2 := Assemble(x1, 1, b[1]);
    var x3 := Assemble(x2, 2, b[2]);
    var x4 := Assemble(x3, 3, b[3]);
    var x5 := Assemble(x4, 4, b[4]);
    var x6 := Assemble(x5, 1, b[5]);
    var x7 := Assemble(x6, 2, b[6]);
    assert Assembled(v, 0) == 0;
    assert Assembled(v, 1) == x1;
    assert Assembled(v, 2) == x2;
    assert Assembled(v, 3) == x3;
    assert Assembled(v, 4) == x4;
    assert Assembled(v, 5) == x5;
    assert Assembled(v, 6) == x6;
    assert Assembled(v, 7) == x7;
    AssembleHigh(v);
    AssembleLow(x4, v);
  }

  lemma {:induction false} AssembleHigh(v: bv8)
    ensures Assemble(Assemble(Assemble(Assemble(0, 0, BitOf(v, 3)), 1, BitOf(v, 2)), 2, BitOf(v, 1)), 3, BitOf(v, 0))
         == v >> 4
  {
  }

  lemma {:induction false} AssembleLow(x: bv8, v: bv8)
    requires x == v >> 4
    ensures Assemble(Assemble(Assemble(Assemble(x, 4, BitOf(v, 7)), 1, BitOf(v, 6)), 2, BitOf(v, 5)), 3, BitOf(v, 4))
         == v
  {
  }

  /** The state after the first k bits of a byte. */
  function Partly(s: State, v: bv8, k: nat): State
    requires k < 8
  {
    if k == 0 then s
    else s.(byte := Assembled(v, k), byteCnt := k, nibble := (if k <= 4 then k else k - 4),
            halfTime := s.halfTime + 2 * k)
  }

  lemma {:induction false} TakePartly(s: State, v: bv8, k: nat)
    requires Reading(s) && s.byteCnt == 0 && s.halfTime < 1000 && k < 7
    ensures Reading(Partly(s, v, k)) && Reading(Partly(s, v, k + 1))
    ensures TakeBit(Partly(s, v, k), ByteBits(v)[k]) == (Partly(s, v, k + 1), None)
  {
  }

  lemma {:induction false} FeedPartly(s: State, v: bv8, k: nat)
    requires Reading(s) && s.byteCnt == 0 && s.halfTime < 1000 && k <= 7
    ensures Reading(Partly(s, v, k)) && Listens(Partly(s, v, k), ByteBits(v)[k..])
    ensures FeedBits(Partly(s, v, k), ByteBits(v)[k..]) == FeedBits(Partly(s, v, 7), [ByteBits(v)[7]])
    decreases 7 - k
  {
    if k == 7 {
      assert ByteBits(v)[7..] == [ByteBits(v)[7]];
      TakePartly(s, v, 6);
    } else {
      TakePartly(s, v, k);
      FeedPartly(s, v, k + 1);
      assert ByteBits(v)[k..][1..] == ByteBits(v)[k + 1..];
      NothingAdded(FeedBits(Partly(s, v, k + 1), ByteBits(v)[k + 1..]).1);
    }
  }

  /** The state in which a complete byte arrives, and what it does. */
  function ByteArrives(s: State, v: bv8): (State, Option<Message>)
    requires Reading(s)
  {
    var u := s.(byte := v, byteCnt := 0, nibble := 0, halfTime := s.halfTime + 16);
    if s.phase == ParsePayload then PayloadByte(u, v, s.expected - 1) else (IdByte(u, v), None)
  }

  lemma {:induction false} FeedLast(s: State, b: bool)
    requires Reading(s)
    ensures FeedBits(s, [b]) == (TakeBit(s, b).0, Out(TakeBit(s, b).1))
  {
    TakeKeepsInv(s, b);
    assert [b][1..] == [];
    NothingAdded(Out(TakeBit(s, b).1));
  }

  lemma {:induction false} FeedByte(s: State, v: bv8)
    requires Reading(s) && s.byteCnt == 0 && s.halfTime < 1000
    ensures Inv(ByteArrives(s, v).0) && Listens(s, ByteBits(v))
    ensures FeedBits(s, ByteBits(v)) == (ByteArrives(s, v).0, Out(ByteArrives(s, v).1))
  {
    FeedPartly(s, v, 0);
    assert ByteBits(v)[0..] == ByteBits(v);
    FeedPartly(s, v, 7);
    FeedLast(Partly(s, v, 7), ByteBits(v)[7]);
    TakeLast(s, v);
  }

  lemma {:induction false} TakeLast(s: State, v: bv8)
    requires Reading(s) && s.byteCnt == 0 && s.halfTime < 1000 && Reading(Partly(s, v, 7))
    ensures TakeBit(Partly(s, v, 7), ByteBits(v)[7]) == ByteArrives(s, v) && Inv(ByteArrives(s, v).0)
  {
    AllAssembled(v);
    TakeKeepsInv(Partly(s, v, 7), ByteBits(v)[7]);
  }

  lemma {:induction false} FeedAppend(s: State, a: seq<bool>, t: State, ms: seq<Message>, b: seq<bool>)
    requires Inv(s) && FeedBits(s, a) == (t, ms) && Reading(t)
    ensures FeedBits(s, a + b).0 == FeedBits(t, b).0
    ensures FeedBits(s, a + b).1 == ms + FeedBits(t, b).1
    decreases a
  {
    if a == [] {
      NothingAdded(b);
      NothingAdded(FeedBits(t, b).1);
    } else if Reading(s) {
      var x, rest := a[0], a[1..];
      var (u, m) := TakeBit(s, x);
      FeedCons(s, x, rest);
      assert [x] + rest == a;
      var mid := FeedBits(u, rest).1;
      FeedAppend(u, rest, t, mid, b);
      FeedCons(s, x, rest + b);
      Associate([x], rest, b);
      Associate(Out(m), mid, FeedBits(t, b).1);
    }
  }

  lemma {:induction false} ListensAppend(s: State, a: seq<bool>, t: State, b: seq<bool>)
    requires Inv(s) && Listens(s, a) && FeedBits(s, a).0 == t && Reading(t) && Listens(t, b)
    ensures Listens(s, a + b)
    decreases a
  {
    if a == [] {
      assert a + b == b;
    } else {
      assert (a + b)[1..] == a[1..] + b && (a + b)[0] == a[0];
      TakeKeepsInv(s, a[0]);
      ListensAppend(TakeBit(s, a[0]).0, a[1..], t, b);
    }
  }

  /** Bits that only bring the decoder to another state. */
  ghost predicate Collects(s: State, bits: seq<bool>, t: State)
    requires Inv(s)
  {
    Listens(s, bits) && FeedBits(s, bits) == (t, []) && Reading(t)
  }

  lemma {:induction false} CollectMore(s: State, a: seq<bool>, t: State, b: seq<bool>, u: State)
    requires Inv(s) && Collects(s, a, t) && Collects(t, b, u)
    ensures Collects(s, a + b, u)
  {
    FeedAppend(s, a, t, [], b);
    ListensAppend(s, a, t, b);
    NothingAdded(FeedBits(t, b).1);
  }

  lemma {:induction false} CollectByte(s: State, v: bv8) returns (t: State)
    requires Reading(s) && s.byteCnt == 0 && s.halfTime < 1000
    requires ByteArrives(s, v).1 == None && Reading(ByteArrives(s, v).0)
    ensures t == ByteArrives(s, v).0 && Collects(s, ByteBits(v), t)
  {
    FeedByte(s, v);
    t := ByteArrives(s, v).0;
  }

  /** Bits after which the whole payload has been sent on. */
  ghost predicate Sends(s: State, bits: seq<bool>, payload: seq<bv8>)
    requires Inv(s) && Listens(s, bits)
  {
    FeedBits(s, bits).0.phase == Preamble && FeedBits(s, bits).1 == [Message(s.id, s.payload + payload)]
  }

  lemma {:induction false} LastPayload(s: State, v: bv8)
    requires Reading(s) && s.phase == ParsePayload && s.byteCnt == 0 && PayloadLength(s.id).Some?
    requires s.expected == 1 && s.halfTime + 16 <= 400
    ensures Listens(s, ByteBits(v)) && Sends(s, ByteBits(v), [v])
  {
    FeedByte(s, v);
  }

  lemma {:induction false} ThenPayload(s: State, bits: seq<bool>, t: State, v: bv8, rest: seq<bv8>, later: seq<bool>)
    requires Inv(s) && Collects(s, bits, t) && t.id == s.id && t.payload == s.payload + [v]
    requires Listens(t, later) && Sends(t, later, rest)
    ensures Listens(s, bits + later) && Sends(s, bits + later, [v] + rest)
  {
    FeedAppend(s, bits, t, [], later);
    ListensAppend(s, bits, t, later);
    Associate(s.payload, [v], rest);
    NothingAdded(FeedBits(t, later).1);
  }

  /** The payload of a known id is sent on when its last byte is in. */
  lemma {:induction false} PayloadFeeds(s: State, payload: seq<bv8>)
    requires Reading(s) && s.phase == ParsePayload && s.byteCnt == 0 && PayloadLength(s.id).Some?
    requires |payload| == s.expected && s.halfTime + 16 * |payload| <= 400
    ensures Listens(s, PacketBits(payload)) && Sends(s, PacketBits(payload), payload)
    decreases payload
  {
    var v, rest := payload[0], payload[1..];
    assert payload == [v] + rest;
    if |payload| == 1 {
      assert payload == [v] && PacketBits(rest) == [];
      NothingAdded(ByteBits(v));
      LastPayload(s, v);
    } else {
      MorePayload(s, v);
      var t := CollectByte(s, v);
      PayloadFeeds(t, rest);
      ThenPayload(s, ByteBits(v), t, v, rest, PacketBits(rest));
    }
  }

  lemma {:induction false} MorePayload(s: State, v: bv8)
    requires Reading(s) && s.phase == ParsePayload && s.byteCnt == 0 && s.expected != 1 && s.halfTime + 16 <= 400
    ensures ByteArrives(s, v).1 == None
    ensures var t := ByteArrives(s, v).0;
            && Reading(t) && t.phase == ParsePayload && t.byteCnt == 0 && t.id == s.id
            && t.expected == s.expected - 1 && t.halfTime == s.halfTime + 16 && t.payload == s.payload + [v]
  {
  }

  lemma {:induction false} FirstIdByte(s: State, hi: bv8) returns (u: State)
    requires Reading(s) && s.phase == ParseId && s.id == ZERO && s.byteCnt == 0 && s.halfTime == 0
    ensures Reading(u) && u.phase == ParseId && u.id == Id(hi, 0) && u.byteCnt == 0 && u.halfTime == 16
    ensures Collects(s, ByteBits(hi), u)
  {
    u := CollectByte(s, hi);
  }

  lemma {:induction false} SecondIdByte(u: State, id: Id) returns (t: State)
    requires Reading(u) && u.phase == ParseId && u.id == Id(id.hi, 0) && u.byteCnt == 0 && u.halfTime == 16 &&
             id.hi != 0
    ensures Reading(t) && t.phase == ParsePayload && t.byteCnt == 0 && t.id == id && t.payload == [] && t.halfTime == 32
    ensures t.expected == ExpectedLength(id) && Collects(u, ByteBits(id.lo), t)
  {
    OrZero(id.lo);
    FeedByte(u, id.lo);
    t := ByteArrives(u, id.lo).0;
  }

  lemma {:induction false} IdFeeds(s: State, id: Id) returns (t: State)
    requires Reading(s) && s.phase == ParseId && s.id == ZERO && s.byteCnt == 0 && s.halfTime == 0
    requires id.hi != 0
    ensures Reading(t) && t.phase == ParsePayload && t.byteCnt == 0 && t.id == id && t.payload == [] && t.halfTime == 32
    ensures t.expected == ExpectedLength(id)
    ensures Collects(s, ByteBits(id.hi) + ByteBits(id.lo), t)
  {
    var u := FirstIdByte(s, id.hi);
    t := SecondIdByte(u, id);
    CollectMore(s, ByteBits(id.hi), u, ByteBits(id.lo), t);
  }

  lemma {:induction false} OrZero(b: bv8)
    ensures 0 | b == b
  {
  }

  /** The nine models and their payloads. */
  predicate KnownId(id: Id, payload: seq<bv8>) {
    || ((id == Id(0xD8, 0x74) || id == Id(0xC8, 0x44)) && |payload| == 5)
    || ((id == Id(0xF8, 0x24) || id == Id(0xF8, 0xB4) || id == Id(0x2D, 0x10)) && |payload| == 7)
    || ((id == Id(0x19, 0x84) || id == Id(0x19, 0x94) || id == Id(0x29, 0x14)) && |payload| == 8)
    || (id == Id(0x5D, 0x60) && |payload| == 9)
  }

  predicate IsKnown(id: Id) {
    || id == Id(0xD8, 0x74) || id == Id(0xC8, 0x44) || id == Id(0xF8, 0x24) || id == Id(0xF8, 0xB4)
    || id == Id(0x2D, 0x10) || id == Id(0x19, 0x84) || id == Id(0x19, 0x94) || id == Id(0x29, 0x14)
    || id == Id(0x5D, 0x60)
  }

  /** The table says the same. */
  lemma {:induction false} TableOfIds(id: Id, payload: seq<bv8>)
    ensures KnownId(id, payload) <==> PayloadLength(id) == Some(|payload|)
    ensures IsKnown(id) <==> PayloadLength(id).Some?
  {
  }

  lemma {:induction false} PacketFeeds(s: State, id: Id, payload: seq<bv8>)
    requires Reading(s) && s.phase == ParseId && s.id == ZERO && s.byteCnt == 0 && s.halfTime == 0
    requires id.hi != 0 && KnownId(id, payload)
    ensures var bits := ByteBits(id.hi) + ByteBits(id.lo) + PacketBits(payload);
            && FeedBits(s, bits).0.phase == Preamble && FeedBits(s, bits).1 == [Message(id, payload)]
            && Listens(s, bits)
  {
    TableOfIds(id, payload);
    var t := IdFeeds(s, id);
    PayloadFeeds(t, payload);
    FeedAppend(s, ByteBits(id.hi) + ByteBits(id.lo), t, [], PacketBits(payload));
    ListensAppend(s, ByteBits(id.hi) + ByteBits(id.lo), t, PacketBits(payload));
    NothingAdded(payload);
    NothingAdded(FeedBits(t, PacketBits(payload)).1);
  }

  // ---------------------------------------------------------------- ids that are not in the table

  /** The payload of an unknown id is only collected. */
  lemma {:induction false} UnknownFeeds(s: State, payload: seq<bv8>) returns (t: State)
    requires Reading(s) && s.phase == ParsePayload && s.byteCnt == 0 && s.expected < 0
    requires s.halfTime + 16 * |payload| <= 400
    ensures Reading(t) && t.phase == ParsePayload && t.id == s.id && t.expected < 0
    ensures t.payload == s.payload + payload && t.halfTime == s.halfTime + 16 * |payload|
    ensures Collects(s, PacketBits(payload), t)
    decreases payload
  {
    if payload == [] {
      t := s;
      NothingAdded(s.payload);
    } else {
      var v, rest := payload[0], payload[1..];
      MorePayload(s, v);
      var u := CollectByte(s, v);
      t := UnknownFeeds(u, rest);
      CollectMore(s, ByteBits(v), u, PacketBits(rest), t);
      Associate(s.payload, [v], rest);
      assert payload == [v] + rest;
    }
  }

  lemma {:induction false} UnknownPacketFeeds(s: State, id: Id, payload: seq<bv8>) returns (t: State)
    requires Reading(s) && s.phase == ParseId && s.id == ZERO && s.byteCnt == 0 && s.halfTime == 0
    requires id.hi != 0 && !IsKnown(id) && |payload| <= 23
    ensures Reading(t) && t.phase == ParsePayload && t.id == id && t.expected < 0
    ensures t.payload == payload && t.halfTime == 32 + 16 * |payload|
    ensures Collects(s, ByteBits(id.hi) + ByteBits(id.lo) + PacketBits(payload), t)
  {
    TableOfIds(id, payload);
    var u := IdFeeds(s, id);
    t := UnknownFeeds(u, payload);
    CollectMore(s, ByteBits(id.hi) + ByteBits(id.lo), u, PacketBits(payload), t);
    NothingAdded(payload);
  }

  /** Silence ends a payload of unknown length, with a zero byte added, if it is not too short. */
  lemma {:induction false} SilenceEnds(s: State, silence: Pulse)
    requires Reading(s) && s.phase == ParsePayload && s.expected < 0 && !silence.level && silence.count > 31
    ensures StreamRun(s, [silence]).0.phase == Preamble
    ensures StreamRun(s, [silence]).1 == if s.halfTime / 2 > 55 then [Message(s.id, s.payload + [0])] else []
  {
    RunOne(s, silence);
  }

  /** Any other pulse that is out of tolerance, or long inside a bit, ends the packet with nothing sent. */
  lemma {:induction false} OthersClear(s: State, p: Pulse)
    requires Reading(s) && !IsShort(p) && !(IsLong(p) && s.halfTime % 2 == 0) && 0 < p.count
    requires s.phase == ParsePayload && s.expected < 0 ==> p.level || p.count <= 31
    ensures Step(s, p.level, p.count).0.phase == Preamble && Step(s, p.level, p.count).1 == None
  {
    HearsIsExact(s.halfTime, p);
  }

  // ---------------------------------------------------------------- the whole packet on the air

  /** A preamble of short pulses, enough of them, and the four long pulses of the sync. */
  ghost predicate IsHeader(c: nat, shorts: seq<Pulse>, sync: seq<Pulse>) {
    && (forall i :: 0 <= i < |shorts| ==> IsShort(shorts[i])) && Bumps(c, |shorts|) > 20
    && |sync| == 4 && (forall i :: 0 <= i < 4 ==> IsLong(sync[i]))
  }

  lemma {:induction false} ShortPulses(s: State, shorts: seq<Pulse>)
    requires Inv(s) && s.phase == Preamble
    requires forall i :: 0 <= i < |shorts| ==> IsShort(shorts[i])
    ensures StreamRun(s, shorts) == (s.(syncCount := Bumps(s.syncCount, |shorts|)), [])
    decreases |shorts|
  {
    if shorts != [] {
      var n := |shorts| - 1;
      var t := s.(syncCount := Bumps(s.syncCount, n));
      ShortPulses(s, shorts[..n]);
      RunAppend(s, shorts[..n], t, [], [shorts[n]]);
      RunOne(t, shorts[n]);
      assert shorts == shorts[..n] + [shorts[n]];
    }
  }

  /** A long pulse of the sync. */
  lemma {:induction false} SyncPulse(s: State, before: seq<Pulse>, t: State, p: Pulse)
    requires Inv(s) && StreamRun(s, before) == (t, [])
    requires (t.phase == Preamble && t.syncCount > 20) || t.phase == Sync
    requires IsLong(p)
    ensures Inv(t)
    ensures var u := if t.phase == Preamble then t.(phase := Sync, syncCount := 3)
                     else if t.syncCount == 1 then t.(syncCount := 0, id := ZERO, phase := ParseId)
                     else t.(syncCount := t.syncCount - 1);
            StreamRun(s, before + [p]) == (u, [])
  {
    RunAppend(s, before, t, [], [p]);
    RunOne(t, p);
  }

  /** The header opens the id with all counters at zero. */
  lemma {:induction false} HeaderOpens(s: State, shorts: seq<Pulse>, sync: seq<Pulse>)
    requires Inv(s) && s.phase == Preamble && IsHeader(s.syncCount, shorts, sync)
    ensures StreamRun(s, shorts + sync) == (s.(syncCount := 0, id := ZERO, phase := ParseId), [])
  {
    var counted := s.(syncCount := Bumps(s.syncCount, |shorts|));
    var syncing := s.(phase := Sync);
    ShortPulses(s, shorts);
    SyncPulse(s, shorts, counted, sync[0]);
    SyncPulse(s, shorts + [sync[0]], syncing.(syncCount := 3), sync[1]);
    SyncPulse(s, shorts + [sync[0]] + [sync[1]], syncing.(syncCount := 2), sync[2]);
    SyncPulse(s, shorts + [sync[0]] + [sync[1]] + [sync[2]], syncing.(syncCount := 1), sync[3]);
    assert shorts + [sync[0]] + [sync[1]] + [sync[2]] + [sync[3]] == shorts + sync;
  }

  /** Before the id, every other pulse clears the decoder: a long one too early, a short one in the sync, or neither. */
  lemma {:induction false} HeaderBroken(s: State, p: Pulse)
    requires Inv(s) && (s.phase == Preamble || s.phase == Sync)
    requires !IsLong(p) || (s.phase == Preamble && s.syncCount <= 20)
    requires s.phase == Sync || !IsShort(p)
    ensures Step(s, p.level, p.count) == (s.(phase := Preamble, syncCount := 0), None)
  {
  }

  /**
   Whatever the decoder did before: a header, and then the pulses of any packet with an id of
   the table, each in tolerance, make it send on exactly that id and payload, and look for
   the next preamble.
   */
  lemma {:induction false} DecodesPacket(s: State, shorts: seq<Pulse>, sync: seq<Pulse>, id: Id, payload: seq<bv8>,
                                         pulses: seq<Pulse>)
    requires Inv(s) && s.phase == Preamble && IsHeader(s.syncCount, shorts, sync)
    requires KnownId(id, payload)
    requires Heard(CodeRuns(sync[3].level, ByteBits(id.hi) + ByteBits(id.lo) + PacketBits(payload)), pulses)
    ensures StreamRun(s, shorts + sync + pulses).0.phase == Preamble
    ensures StreamRun(s, shorts + sync + pulses).1 == [Message(id, payload)]
  {
    var bits := ByteBits(id.hi) + ByteBits(id.lo) + PacketBits(payload);
    var open := s.(syncCount := 0, id := ZERO, phase := ParseId);
    HeaderOpens(s, shorts, sync);
    PacketFeeds(open, id, payload);
    PulsesAreBits(open, sync[3].level, bits, pulses);
    RunAppend(s, shorts + sync, open, [], pulses);
  }

  /**
   The same for every id that is not in the table, but begins with a nonzero byte: a payload of
   5 to 23 bytes, then silence, is sent on with a zero byte added, and a shorter one is not. The
   nine bytes of the source's buffer hold all that is sent if the payload has at most 8.
   */
  lemma {:induction false} DecodesUnknown(s: State, shorts: seq<Pulse>, sync: seq<Pulse>, id: Id, payload: seq<bv8>,
                                          pulses: seq<Pulse>, silence: Pulse)
    requires Inv(s) && s.phase == Preamble && IsHeader(s.syncCount, shorts, sync)
    requires id.hi != 0 && !IsKnown(id) && |payload| <= 23
    requires Heard(CodeRuns(sync[3].level, ByteBits(id.hi) + ByteBits(id.lo) + PacketBits(payload)), pulses)
    requires !silence.level && silence.count > 31
    ensures var (t, messages) := StreamRun(s, shorts + sync + pulses + [silence]);
            t.phase == Preamble && messages == if |payload| >= 5 then [Message(id, payload + [0])] else []
  {
    var bits := ByteBits(id.hi) + ByteBits(id.lo) + PacketBits(payload);
    var open := s.(syncCount := 0, id := ZERO, phase := ParseId);
    HeaderOpens(s, shorts, sync);
    var t := UnknownPacketFeeds(open, id, payload);
    PulsesAreBits(open, sync[3].level, bits, pulses);
    RunAppend(s, shorts + sync, open, [], pulses);
    SilenceEnds(t, silence);
    RunAppend(s, shorts + sync + pulses, t, [], [silence]);
    NothingAdded(StreamRun(t, [silence]).1);
  }
}
