/** From the pulses of an arctech command on the antenna to the message of the parser. */
module EndToEnd {
  import opened Options
  import opened Words
  import opened RunLength
  import opened Ring
  import opened BackwardScan
  import opened Receive
  import opened Reception
  import opened Arctech
  import opened TransmitArctech
  import opened ArctechRoundTrip

  // ---------------------------------------------------------------- the counts of a frame

  /**
   The runs before a frame end in a pulse and a pause behind which the decoder stops, and the
   two counts that tell it lie in the ring.
   */
  ghost predicate Paused(past: seq<Run>, written: nat) {
    && |past| >= 2 && GapEnds(past[|past| - 2].count, past[|past| - 1].count)
    && InWindow(past, 2, written)
  }

  /** The counts that the parser works on, and the word it finds. */
  lemma {:induction false} RingDecodes(ring: seq<bv8>, stream: seq<bool>, written: nat,
                                       past: seq<Run>, bits: seq<bool>, frame: seq<Run>, m: nat)
    requires Holds(ring, stream, written) && Timed(Frame(bits), frame) && |bits| == 32
    requires RunsUpTo(past + frame, stream, m) && 1 <= m <= 8 * written
    requires Maximal(past) && Paused(past, written)
    ensures SelflearningData(LeadingBits(Counts(ring, AfterLast(ring, PosOf(m)), 144), 36)) == Some(MsbValue(bits))
  {
    FrameWindow(past, bits, frame, written);
    StopFits(bits, frame);
    var body, stop := frame[..|frame| - 1], frame[|frame| - 1];
    assert (past + body) + [stop] == past + frame;
    var rest := SkipsLast(ring, stream, written, past + body, stop, m, 132);
    BackwardIsReverse(ring, stream, written, past + body, rest, 132);
    CountsPrefix(ring, PosOf(rest - 1), 132, 12);
    PausedDecodes(past, written, bits, frame, Counts(ring, PosOf(rest - 1), 144));
  }

  lemma {:induction false} PausedDecodes(past: seq<Run>, written: nat, bits: seq<bool>, frame: seq<Run>,
                                         counts: seq<nat>)
    requires Timed(Frame(bits), frame) && |bits| == 32 && |counts| == 144
    requires Maximal(past) && Paused(past, written)
    requires BackCounts(past + frame[..|frame| - 1], 132) <= counts
    ensures SelflearningData(LeadingBits(counts, 36)) == Some(MsbValue(bits))
  {
    var k := |past| - 2;
    var before, h, g := past[..k], past[k], past[k + 1];
    assert before + [h] + [g] == past;
    DecodesFrame(before, h, g, bits, frame, counts);
  }

  lemma {:induction false} StopFits(bits: seq<bool>, frame: seq<Run>)
    requires Timed(Frame(bits), frame)
    ensures |frame| >= 1 && frame[|frame| - 1].count <= 255
  {
    assert FitsAt(Frame(bits), frame, |frame| - 1);
  }

  lemma {:induction false} FrameWindow(past: seq<Run>, bits: seq<bool>, frame: seq<Run>, written: nat)
    requires Timed(Frame(bits), frame) && |bits| == 32 && InWindow(past, 2, written)
    ensures |frame| == 131 && InWindow(past + frame[..130], 132, written)
  {
    FrameRunParts(bits, frame);
    TrainLength(bits);
    AllShort(Frame(bits), frame);
    ShortRuns(past, frame[..130], 2);
  }

  // ---------------------------------------------------------------- the pulses of a frame

  /** The pulses of a bit alternate and begin with a high one that cannot be filtered out. */
  lemma {:induction false} GroupIsSound(b: bool, g: seq<Run>)
    requires Timed(if b then OnePulses() else ZeroPulses(), g)
    ensures Sound(g) && |g| == 4 && g[0].level && !g[3].level
  {
    var f := if b then OnePulses() else ZeroPulses();
    assert FitsAt(f, g, 0) && FitsAt(f, g, 1) && FitsAt(f, g, 2) && FitsAt(f, g, 3);
  }

  lemma {:induction false} TrainIsSound(bits: seq<bool>, train: seq<Run>)
    requires Timed(Train(bits), train)
    ensures Sound(train) && (train == [] || !train[|train| - 1].level)
  {
    if bits != [] {
      var k := SplitTrain(bits, train);
      var front, group := train[..k], train[k..];
      TrainIsSound(bits[..|bits| - 1], front);
      GroupIsSound(bits[|bits| - 1], group);
      if front != [] {
        JoinSound(front, group);
      }
      assert front + group == train;
    }
  }

  /** So do the runs of a whole frame. */
  lemma {:induction false} FrameIsSound(bits: seq<bool>, frame: seq<Run>)
    requires Timed(Frame(bits), frame)
    ensures Sound(frame)
  {
    FrameRunParts(bits, frame);
    var k := |frame| - 1;
    var head, train, stop := frame[..2], frame[2..k], frame[k..];
    var f := Frame(bits);
    assert FitsAt(f, frame, 0) && FitsAt(f, frame, 1) && FitsAt(f, frame, k);
    assert f[k] == Segment(true, Short);
    TrainIsSound(bits, train);
    EndsSound(head, train, stop);
    assert head + train + stop == frame;
  }

  lemma {:induction false} FrameEndsHigh(bits: seq<bool>, frame: seq<Run>)
    requires Timed(Frame(bits), frame)
    ensures frame != [] && frame[|frame| - 1].level
  {
    assert FitsAt(Frame(bits), frame, |frame| - 1);
  }

  lemma {:induction false} EndsSound(head: seq<Run>, train: seq<Run>, stop: seq<Run>)
    requires |head| == 2 && head[0].level && !head[1].level && 3 <= head[0].count <= 255 && head[1].count >= 1
    requires Sound(train) && (train == [] || !train[|train| - 1].level)
    requires |stop| == 1 && stop[0].level && 3 <= stop[0].count <= 255
    ensures Sound(head + train + stop)
  {
    JoinSound(head, train);
    JoinSound(head + train, stop);
  }

  // ---------------------------------------------------------------- the theorem

  /**
   A receiver has sampled anything whose filtered form ends in a pause at which the decoder stops,
   then the pulses of one frame with shorts of 3 to 9 and longs of 16 to 255 samples, and silence;
   it has not yet scanned to where the silence is recognised, and the ring still holds all of it.
   The call of `rfReceiveTask` that reports this silence has a certain number.
   */
  ghost predicate Awaits(r: Receiver, calls: nat, bits: seq<bool>, before: seq<bool>, frame: seq<Run>)
    reads r, r.data
  {
    && r.Valid() && Timed(Frame(bits), frame) && Heard(r.samples, before, frame, REQUIRED_SILENCE + 7)
    && Ahead(r, EndOf(before, frame) + REQUIRED_SILENCE)
    && |before| + 7 <= |r.stream| && Paused(Runs(r.stream[..|before| + 7]), r.written)
    && calls == Silences(r.stream, r.consumed, EndOf(before, frame) + REQUIRED_SILENCE)
  }

  /**
   For every house, unit and method: the parser accepts the command so received, and sends on
   (house mod 2^26) * 64 + (16 if the method is 1) + unit mod 16.
   */
  method ReceiveCommand(r: Receiver, calls: nat, house: Word32, unit: Word16, command: int,
                        ghost before: seq<bool>, ghost frame: seq<Run>) returns (message: Option<nat>)
    requires Awaits(r, calls, CommandBits(house, unit, command), before, frame)
    modifies r`scanP, r`scanBit, r`startSilenceP, r`startSilenceBit
    modifies r`count0, r`count1, r`consumed, r`emitted
    ensures message == Some(house.Value() % 0x400_0000 * 64 + (if command == 1 then 16 else 0) + unit.Value() % 16)
  {
    CommandValue(house, unit, command);
    message := ReceiveBits(r, calls, CommandBits(house, unit, command), before, frame);
  }

  /** The same for any 32 bits. */
  method ReceiveBits(r: Receiver, calls: nat, ghost bits: seq<bool>, ghost before: seq<bool>, ghost frame: seq<Run>)
    returns (message: Option<nat>)
    requires Awaits(r, calls, bits, before, frame) && |bits| == 32
    modifies r`scanP, r`scanBit, r`startSilenceP, r`startSilenceBit
    modifies r`count0, r`count1, r`consumed, r`emitted
    ensures message == Some(MsbValue(bits))
  {
    ghost var end := EndOf(before, frame);
    var found := Await(r, calls, bits, before, frame, end);
    if !found {
      return None;
    }
    message := ParseSelflearning(r.data[..], r.startSilenceP, r.startSilenceBit, PosOf(end));
  }

  method Await(r: Receiver, calls: nat, ghost bits: seq<bool>, ghost before: seq<bool>, ghost frame: seq<Run>,
               ghost end: nat)
    returns (found: bool)
    requires Awaits(r, calls, bits, before, frame) && |bits| == 32 && end == EndOf(before, frame)
    modifies r`scanP, r`scanBit, r`startSilenceP, r`startSilenceBit
    modifies r`count0, r`count1, r`consumed, r`emitted
    ensures found && IsRing(r.data[..]) && Points(r.startSilenceP, r.startSilenceBit, PosOf(end))
    ensures SelflearningData(LeadingBits(Counts(r.data[..], AfterLast(r.data[..], PosOf(end)), 144), 36)) ==
            Some(MsbValue(bits))
  {
    SilentFrame(r, calls, bits, before, frame);
    found := Listen(r, calls, end + REQUIRED_SILENCE);
    CursorHeard(r, bits, before, frame, end);
  }

  lemma {:induction false} SilentFrame(r: Receiver, calls: nat, bits: seq<bool>, before: seq<bool>, frame: seq<Run>)
    requires Awaits(r, calls, bits, before, frame)
    ensures Silent(r.stream, EndOf(before, frame) + REQUIRED_SILENCE)
  {
    FrameIsSound(bits, frame);
    FrameEndsHigh(bits, frame);
    SilentBehind(r, before, frame);
  }

  lemma {:induction false} CursorHeard(r: Receiver, bits: seq<bool>, before: seq<bool>, frame: seq<Run>, end: nat)
    requires r.Valid() && Timed(Frame(bits), frame) && |bits| == 32
    requires Heard(r.samples, before, frame, REQUIRED_SILENCE + 7)
    requires end == EndOf(before, frame) && r.consumed == end + REQUIRED_SILENCE
    requires |before| + 7 <= |r.stream| && Paused(Runs(r.stream[..|before| + 7]), r.written)
    ensures IsRing(r.data[..]) && Points(r.startSilenceP, r.startSilenceBit, PosOf(end))
    ensures SelflearningData(LeadingBits(Counts(r.data[..], AfterLast(r.data[..], PosOf(end)), 144), 36)) ==
            Some(MsbValue(bits))
  {
    Refines(r);
    SilenceFound(r.data[..], r.stream, r.written, r.samples, r.startSilenceP, r.startSilenceBit, before, bits,
      frame, end);
  }

  lemma {:induction false} SilenceFound(ring: seq<bv8>, stream: seq<bool>, written: nat, xs: seq<bool>, p: nat, b: bv8,
                                        before: seq<bool>, bits: seq<bool>, frame: seq<Run>, end: nat)
    requires Holds(ring, stream, written) && IsFiltered(stream, xs)
    requires Timed(Frame(bits), frame) && |bits| == 32
    requires Heard(xs, before, frame, REQUIRED_SILENCE + 7)
    requires end == EndOf(before, frame) && end + REQUIRED_SILENCE <= 8 * written <= |stream|
    requires Paused(Runs(stream[..|before| + 7]), written)
    requires CursorAt(p, b, stream, REQUIRED_SILENCE, end)
    ensures Points(p, b, PosOf(end))
    ensures SelflearningData(LeadingBits(Counts(ring, AfterLast(ring, PosOf(end)), 144), 36)) == Some(MsbValue(bits))
  {
    var h := |before| + 7;
    var past := Runs(stream[..h]);
    FrameIsSound(bits, frame);
    FrameEndsHigh(bits, frame);
    HeardIsFiltered(stream, xs, before, frame, end);
    FilteredCount(stream, h, frame, end);
    FilteredRuns(stream, h, frame, end, past);
    RingDecodes(ring, stream, written, past, bits, frame, end);
  }
}
