/**
 From the encoder of firmware/transmit_arctech.c to the backward decoder of rf/arctech.c:
 the word read is the word sent, for all lengths of pulses in tolerance.
 */
module ArctechRoundTrip {
  import opened Options
  import opened Sequences
  import opened Words
  import opened RunLength
  import opened BackwardScan
  import opened Arctech
  import opened TransmitArctech

  /** How many samples a delay may take. */
  predicate Fits(length: Length, samples: nat) {
    match length
    case Short => 3 <= samples <= 9
    case Long => 16 <= samples <= 255
    case StartLong => 16 <= samples <= 255
  }

  /** The runs that a receiver sees of the segments sent. */
  ghost predicate Timed(segments: seq<Segment>, runs: seq<Run>) {
    |runs| == |segments| &&
    forall i :: 0 <= i < |runs| ==> FitsAt(segments, runs, i)
  }

  predicate FitsAt(segments: seq<Segment>, runs: seq<Run>, i: nat)
    requires i < |segments| && i < |runs|
  {
    runs[i].level == segments[i].level && Fits(segments[i].length, runs[i].count)
  }

  lemma {:induction false} TimedSplit(a: seq<Segment>, b: seq<Segment>, runs: seq<Run>)
    requires Timed(a + b, runs)
    ensures Timed(a, runs[..|a|]) && Timed(b, runs[|a|..])
  {
    forall i | 0 <= i < |a| ensures FitsAt(a, runs[..|a|], i) {
      assert FitsAt(a + b, runs, i);
    }
    forall i | 0 <= i < |b| ensures FitsAt(b, runs[|a|..], i) {
      assert FitsAt(a + b, runs, |a| + i);
    }
  }

  /** Counting one run that does not overflow. */
  lemma {:induction false} BackOne(base: seq<Run>, r: Run, n: nat)
    requires r.count <= 255
    ensures BackCounts(base + [r], n + 1) == [r.count] + BackCounts(base, n)
  {
    assert (base + [r])[..|base|] == base;
  }

  lemma {:induction false} BackFour(base: seq<Run>, g: seq<Run>, n: nat)
    requires |g| == 4 && forall i :: 0 <= i < 4 ==> g[i].count <= 255
    ensures BackCounts(base + g, n + 4) == [g[3].count, g[2].count, g[1].count, g[0].count] + BackCounts(base, n)
  {
    BackOne(base, g[0], n);
    BackOne(base + [g[0]], g[1], n + 1);
    BackOne(base + [g[0]] + [g[1]], g[2], n + 2);
    BackOne(base + [g[0]] + [g[1]] + [g[2]], g[3], n + 3);
    assert base + g == base + [g[0]] + [g[1]] + [g[2]] + [g[3]];
  }

  /** The four pulses of a bit, read backwards, are a group for that bit. */
  lemma {:induction false} GroupOfBit(b: bool, g: seq<Run>)
    requires Timed(if b then OnePulses() else ZeroPulses(), g)
    ensures forall i :: 0 <= i < 4 ==> g[i].count <= 255
    ensures SelflearningBit(g[3].count, g[2].count, g[1].count, g[0].count) == if b then 1 else 0
  {
    var s := if b then OnePulses() else ZeroPulses();
    assert FitsAt(s, g, 0) && FitsAt(s, g, 1) && FitsAt(s, g, 2) && FitsAt(s, g, 3);
  }

  lemma {:induction false} LeadingGroup(group: seq<nat>, rest: seq<nat>, max: nat, b: bool)
    requires |group| == 4 && SelflearningBit(group[0], group[1], group[2], group[3]) == if b then 1 else 0
    ensures LeadingBits(group + rest, max + 1) == [b] + LeadingBits(rest, max)
  {
    assert (group + rest)[4..] == rest;
  }

  /** One bit's group in front of the cursor. */
  lemma {:induction false} BitBackwards(base: seq<Run>, b: bool, group: seq<Run>, n: nat, max: nat)
    requires Timed(if b then OnePulses() else ZeroPulses(), group)
    ensures LeadingBits(BackCounts(base + group, n + 4), max + 1) == [b] + LeadingBits(BackCounts(base, n), max)
  {
    GroupOfBit(b, group);
    BackFour(base, group, n);
    LeadingGroup([group[3].count, group[2].count, group[1].count, group[0].count], BackCounts(base, n), max, b);
  }

  lemma {:induction false} SplitTrain(bits: seq<bool>, train: seq<Run>) returns (k: nat)
    requires bits != [] && Timed(Train(bits), train)
    ensures k <= |train| && Timed(Train(bits[..|bits| - 1]), train[..k])
    ensures Timed(if bits[|bits| - 1] then OnePulses() else ZeroPulses(), train[k..])
  {
    var front := Train(bits[..|bits| - 1]);
    k := |front|;
    TimedSplit(front, if bits[|bits| - 1] then OnePulses() else ZeroPulses(), train);
  }

  /** A train of bits in front of the cursor: the decoder reads it off in reverse. */
  lemma {:induction false} TrainBackwards(base: seq<Run>, bits: seq<bool>, train: seq<Run>, n: nat, max: nat)
    requires Timed(Train(bits), train)
    ensures LeadingBits(BackCounts(base + train, 4 * |bits| + n), |bits| + max)
         == Reverse(bits) + LeadingBits(BackCounts(base, n), max)
  {
    var later := LeadingBits(BackCounts(base, n), max);
    if bits == [] {
      NothingAdded(base);
      NothingAdded(later);
    } else {
      var front, b := bits[..|bits| - 1], bits[|bits| - 1];
      var k := SplitTrain(bits, train);
      TrainBackwards(base, front, train[..k], n, max);
      BitBackwards(base + train[..k], b, train[k..], 4 * |front| + n, |front| + max);
      ReverseSnoc(front, b);
      Associate([b], Reverse(front), later);
      Rejoin(base, train, k);
      assert front + [b] == bits;
    }
  }

  lemma {:induction false} Rejoin<T>(a: seq<T>, b: seq<T>, k: nat)
    requires k <= |b|
    ensures (a + b[..k]) + b[k..] == a + b
  {
  }

  /** Whether the pause before a frame, after a pulse of h samples, ends the reading of it. */
  predicate GapEnds(h: nat, g: nat) {
    if g <= 255 then g >= 10 || 10 <= h <= 255 else 265 <= g <= 510
  }

  /** The two counts that follow the frame's own. */
  lemma {:induction false} GapCounts(before: seq<Run>, h: Run, g: Run)
    requires h.count > 0 && g.count > 0
    ensures var c := BackCounts(before + [h] + [g], 2);
            |c| == 2 && (c[0] >= 10 || c[1] >= 10 <==> GapEnds(h.count, g.count))
  {
    var runs := before + [h] + [g];
    var rest := Pop(runs).1;
    assert BackCounts(runs, 2) == [Pop(runs).0] + BackCounts(rest, 1);
    assert runs[..|runs| - 1] == before + [h];
    assert BackCounts(rest, 1) == [Pop(rest).0] + BackCounts(Pop(rest).1, 0);
  }

  /** Start pulse, bits, stop pulse. */
  lemma {:induction false} FrameRunParts(bits: seq<bool>, frame: seq<Run>)
    requires Timed(Frame(bits), frame)
    ensures |frame| == |Train(bits)| + 3
    ensures Timed(Train(bits), frame[2..|frame| - 1])
    ensures 3 <= frame[0].count <= 9 && 16 <= frame[1].count <= 255
  {
    var head := [Segment(true, Short), Segment(false, StartLong)];
    TimedSplit(head + Train(bits), [Segment(true, Short)], frame);
    var body := frame[..|frame| - 1];
    TimedSplit(head, Train(bits), body);
    HeadFits(body[..2]);
    assert body[2..] == frame[2..|frame| - 1];
  }

  lemma {:induction false} HeadFits(start: seq<Run>)
    requires Timed([Segment(true, Short), Segment(false, StartLong)], start)
    ensures 3 <= start[0].count <= 9 && 16 <= start[1].count <= 255
  {
    var head := [Segment(true, Short), Segment(false, StartLong)];
    var first, second := FitsAt(head, start, 0), FitsAt(head, start, 1);
    assert first && second;
  }

  /** The counts of a frame in front of the cursor, its stop pulse already skipped. */
  lemma {:induction false} FrameBackwards(earlier: seq<Run>, bits: seq<bool>, frame: seq<Run>, n: nat)
    requires Timed(Frame(bits), frame)
    ensures |frame| == 4 * |bits| + 3 && 3 <= frame[0].count <= 9 && 16 <= frame[1].count <= 255
    ensures var c := BackCounts(earlier + frame[..|frame| - 1], 4 * |bits| + 2 + n);
            && LeadingBits(c, |bits|) == Reverse(bits)
            && |c| >= 4 * |bits| && c[4 * |bits|..] == [frame[1].count, frame[0].count] + BackCounts(earlier, n)
  {
    var k := |frame| - 1;
    FrameRunParts(bits, frame);
    TrainLength(bits);
    var train := frame[2..k];
    var base := earlier + [frame[0]] + [frame[1]];
    BackOne(earlier, frame[0], n);
    BackOne(earlier + [frame[0]], frame[1], n + 1);
    assert earlier + frame[..k] == base + train;
    TrainBackwards(base, bits, train, n + 2, 0);
    assert Reverse(bits) + [] == Reverse(bits);
    AllShort(Train(bits), train);
    ShortRuns(base, train, n + 2);
  }

  /** Valid groups in front, and what is read behind them. */
  lemma {:induction false} LeadingSplit(prefix: seq<nat>, counts: seq<nat>, k: nat, max: nat)
    requires prefix <= counts && |prefix| >= 4 * k && max >= k && |LeadingBits(prefix, k)| == k
    ensures LeadingBits(counts, max) == LeadingBits(prefix, k) + LeadingBits(counts[4 * k..], max - k)
    decreases k
  {
    if k == 0 {
      assert counts[0..] == counts;
      assert [] + LeadingBits(counts, max) == LeadingBits(counts, max);
    } else {
      var b := SelflearningBit(counts[0], counts[1], counts[2], counts[3]) == 1;
      LeadingSplit(prefix[4..], counts[4..], k - 1, max - 1);
      assert counts[4..][4 * (k - 1)..] == counts[4 * k..];
      Associate([b], LeadingBits(prefix[4..], k - 1), LeadingBits(counts[4 * k..], max - k));
    }
  }

  /** The bits read on behind a frame's own: its start pulse with the pause, and what lies before. */
  function Surplus(counts: seq<nat>): seq<bool>
    requires |counts| >= 128
  {
    LeadingBits(counts[128..], 4)
  }

  /** The bits of which the number is made when some are read on behind the 32 of a frame. */
  function Kept(surplus: seq<bool>, bits: seq<bool>): (r: seq<bool>)
    requires |bits| == 32
    ensures |r| == 32
  {
    (Reverse(surplus) + bits)[..32]
  }

  /** All that is read of the counts of a frame. */
  lemma {:induction false} FrameAndSurplus(earlier: seq<Run>, bits: seq<bool>, frame: seq<Run>, counts: seq<nat>)
    requires Timed(Frame(bits), frame) && |bits| == 32 && |counts| == 144
    requires BackCounts(earlier + frame[..|frame| - 1], 132) <= counts
    ensures LeadingBits(counts, 36) == Reverse(bits) + Surplus(counts)
    ensures [frame[1].count, frame[0].count] + BackCounts(earlier, 2) <= counts[128..]
  {
    var prefix := BackCounts(earlier + frame[..|frame| - 1], 132);
    FrameBackwards(earlier, bits, frame, 2);
    LeadingSplit(prefix, counts, 32, 36);
    DropPrefix(prefix, counts, 128);
  }

  lemma {:induction false} DropPrefix<T>(a: seq<T>, b: seq<T>, n: nat)
    requires a <= b && n <= |a|
    ensures a[n..] <= b[n..]
  {
  }

  /** However many valid bits are read, the word is made of the 32 that were sent first. */
  lemma {:induction false} KeepsFirstSent(bits: seq<bool>)
    requires |bits| >= 32
    ensures SelflearningData(Reverse(bits)) == Some(MsbValue(bits[..32]))
  {
    LastOfReverse(bits, 32);
    MsbIsReversedLsb(bits[..32]);
  }

  lemma {:induction false} LastOfReverse<T>(s: seq<T>, n: nat)
    requires n <= |s|
    ensures Reverse(s)[|s| - n..] == Reverse(s[..n])
  {
  }

  lemma {:induction false} ReverseBoth<T>(a: seq<T>, b: seq<T>)
    ensures Reverse(Reverse(a) + b) == Reverse(b) + a
  {
  }

  /** The start pulse's pair and the two counts behind it: a bit, and then a zero, or none. */
  lemma {:induction false} SurplusStarts(pair: seq<nat>, c: seq<nat>, counts: seq<nat>)
    requires |counts| == 144 && |pair| == |c| == 2 && pair + c <= counts[128..]
    requires 16 <= pair[0] && pair[1] <= 9
    ensures Surplus(counts) == [] <==> c[0] >= 10 || c[1] >= 10
    ensures Surplus(counts) != [] ==> !Surplus(counts)[0]
  {
    var rest := counts[128..];
    assert (pair + c)[0] == pair[0] && (pair + c)[1] == pair[1] && (pair + c)[2] == c[0] && (pair + c)[3] == c[1];
    assert rest[0] == pair[0] && rest[1] == pair[1] && rest[2] == c[0] && rest[3] == c[1];
  }

  /**
   What the pause before a frame does. Let the counts be those of any frame in tolerance, after
   any pulse and any pause. The decoder stops at the start pulse if and only if the pause is
   neither too short nor one of the long ones whose overflowed counts look like short pulses.
   Otherwise it reads on, and the last bits of the frame are pushed out by what it finds there;
   the number sent on is then right if and only if the frame repeats what was found.
   */
  lemma {:induction false} PauseDecides(before: seq<Run>, h: Run, g: Run, bits: seq<bool>, frame: seq<Run>,
                                        counts: seq<nat>)
    requires Timed(Frame(bits), frame) && |bits| == 32 && h.count > 0 && g.count > 0 && |counts| == 144
    requires BackCounts(before + [h] + [g] + frame[..|frame| - 1], 132) <= counts
    ensures GapEnds(h.count, g.count) <==> Surplus(counts) == []
    ensures Surplus(counts) != [] ==> !Surplus(counts)[0]
    ensures SelflearningData(LeadingBits(counts, 36)) == Some(MsbValue(Kept(Surplus(counts), bits)))
    ensures SelflearningData(LeadingBits(counts, 36)) == Some(MsbValue(bits)) <==> Kept(Surplus(counts), bits) == bits
  {
    var earlier, surplus := before + [h] + [g], Surplus(counts);
    FrameAndSurplus(earlier, bits, frame, counts);
    FrameBackwards(earlier, bits, frame, 2);
    GapCounts(before, h, g);
    SurplusStarts([frame[1].count, frame[0].count], BackCounts(earlier, 2), counts);
    ReverseBoth(surplus, bits);
    KeepsFirstSent(Reverse(surplus) + bits);
    if MsbValue(Kept(surplus, bits)) == MsbValue(bits) {
      MsbInjective(Kept(surplus, bits), bits);
    }
  }

  /**
   After a pause that does not end the reading, say of 256 to 264 samples or of more than 510, a
   frame whose first four bits are ones is taken for another number.
   */
  lemma {:induction false} PauseSpoils(before: seq<Run>, h: Run, g: Run, bits: seq<bool>, frame: seq<Run>,
                                       counts: seq<nat>)
    requires Timed(Frame(bits), frame) && |bits| == 32 && h.count > 0 && g.count > 0 && |counts| == 144
    requires BackCounts(before + [h] + [g] + frame[..|frame| - 1], 132) <= counts
    requires !GapEnds(h.count, g.count)
    requires bits[0] && bits[1] && bits[2] && bits[3]
    ensures SelflearningData(LeadingBits(counts, 36)) != Some(MsbValue(bits))
  {
    PauseDecides(before, h, g, bits, frame, counts);
    var surplus := Surplus(counts);
    var k := |surplus| - 1;
    assert Kept(surplus, bits)[k] == Reverse(surplus)[k] == surplus[0];
  }

  /**
   A decoder that gets the true counts of a frame, after a pause that ends the reading, sends on
   exactly the number sent.
   */
  lemma {:induction false} DecodesFrame(before: seq<Run>, h: Run, g: Run, bits: seq<bool>, frame: seq<Run>,
                                        counts: seq<nat>)
    requires Timed(Frame(bits), frame) && |bits| == 32 && h.count > 0 && g.count > 0 && |counts| == 144
    requires BackCounts(before + [h] + [g] + frame[..|frame| - 1], 132) <= counts
    requires GapEnds(h.count, g.count)
    ensures SelflearningData(LeadingBits(counts, 36)) == Some(MsbValue(bits))
  {
    PauseDecides(before, h, g, bits, frame, counts);
  }

  lemma {:induction false} AllShort(segments: seq<Segment>, runs: seq<Run>)
    requires Timed(segments, runs)
    ensures forall i :: 0 <= i < |runs| ==> runs[i].count <= 255
  {
    forall i | 0 <= i < |runs| ensures runs[i].count <= 255 {
      assert FitsAt(segments, runs, i);
    }
  }
}
