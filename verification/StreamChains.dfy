/** From the antenna to the messages of the decoders that are handed one pulse after another. */
module StreamChains {
  import opened Sequences
  import opened Pulses
  import opened RunLength
  import opened ForwardScan
  import opened Receive
  import opened Reception
  import Hasta
  import Oregon
  import Line = OregonRoundTrip
  import OregonV3
  import LineV3 = OregonV3RoundTrip

  // ---------------------------------------------------------------- what is handed on

  lemma {:induction false} ScanNext(stream: seq<bool>, n: nat, s: Scan)
    requires n < |stream| && s == ScanBits(stream[..n])
    ensures ScanBits(stream[..n + 1]) == ScanBit(s, stream[n])
  {
    ScanSnoc(stream, n);
  }

  /** A run of the stream, c samples of it scanned. */
  lemma {:induction false} RunScanned(stream: seq<bool>, a: nat, r: Run, s: Scan, c: nat)
    requires a + r.count <= |stream| && 1 <= c <= r.count <= 255 && s == ScanBits(stream[..a])
    requires forall j :: a <= j < a + r.count ==> stream[j] == r.level
    requires if r.level then s.count1 == 0 else s.count0 == 0
    ensures ScanBits(stream[..a + c]) ==
            if r.level then Scan(0, c, Flush(s.emitted, false, s.count0))
            else Scan(c, 0, Flush(s.emitted, true, s.count1))
  {
    if c == 1 {
      ScanNext(stream, a, s);
    } else {
      RunScanned(stream, a, r, s, c - 1);
      ScanNext(stream, a + c - 1, ScanBits(stream[..a + c - 1]));
    }
  }

  /** The scan while it counts a run, with some pulses handed on. */
  function Counting(r: Run, emitted: seq<Run>): Scan {
    if r.level then Scan(0, r.count, emitted) else Scan(r.count, 0, emitted)
  }

  /** The pulses handed on when the first sample of a train is scanned. */
  function Earlier(stream: seq<bool>, h: nat): seq<Run>
    requires h <= |stream|
  {
    var s := ScanBits(stream[..h]);
    Flush(s.emitted, false, s.count0)
  }

  lemma {:induction false} NextScanned(stream: seq<bool>, a: nat, last: Run, emitted: seq<Run>, r: Run)
    requires a + r.count <= |stream| && 1 <= r.count <= 255 && ScanBits(stream[..a]) == Counting(last, emitted)
    requires forall j :: a <= j < a + r.count ==> stream[j] == r.level
    requires r.level != last.level && last.count > 0
    ensures ScanBits(stream[..a + r.count]) == Counting(r, emitted + [last])
  {
    RunScanned(stream, a, r, Counting(last, emitted), r.count);
  }

  lemma {:induction false} FirstScanned(stream: seq<bool>, h: nat, r: Run)
    requires 1 <= h && h + r.count <= |stream| && 1 <= r.count <= 255 && !stream[h - 1] && r.level
    requires forall j :: h <= j < h + r.count ==> stream[j] == r.level
    ensures ScanBits(stream[..h + r.count]) == Counting(r, Earlier(stream, h))
  {
    ScanSnoc(stream, h - 1);
    RunScanned(stream, h, r, ScanBits(stream[..h]), r.count);
  }

  /** A train, and where it is in the stream. */
  ghost predicate TrainAt(stream: seq<bool>, h: nat, train: seq<Run>, end: nat) {
    && 1 <= h && end == h + |Expand(train)| && end <= |stream| && !stream[h - 1] && stream[h..end] == Expand(train)
    && Sound(train) && Countable(train) && train != []
  }

  /** The last run of a train. */
  lemma {:induction false} LastOfTrain(stream: seq<bool>, h: nat, train: seq<Run>, end: nat)
    returns (front: seq<Run>, r: Run, a: nat)
    requires TrainAt(stream, h, train, end)
    ensures train == front + [r] && h <= a && end == a + r.count && 1 <= r.count <= 255
    ensures forall j :: a <= j < end ==> stream[j] == r.level
    ensures if front == [] then a == h && r.level
            else TrainAt(stream, h, front, a) && front[|front| - 1].level != r.level && front[|front| - 1].count > 0
  {
    var n := |train| - 1;
    front, r := train[..n], train[n];
    a := h + |Expand(front)|;
    MaximalLast(train);
    assert train == front + [r];
    SliceOfExpand(stream, h, front, r);
    SoundPrefix(train);
  }

  lemma {:induction false} FrontOf<T>(front: seq<T>, r: T)
    ensures var all := front + [r]; all[|all| - 1] == r && all[..|all| - 1] == front
  {
  }

  lemma {:induction false} TrainScanned(stream: seq<bool>, h: nat, train: seq<Run>, end: nat)
    requires TrainAt(stream, h, train, end)
    ensures ScanBits(stream[..end]) == Counting(train[|train| - 1], Earlier(stream, h) + train[..|train| - 1])
    decreases |train|
  {
    var front, r, a := LastOfTrain(stream, h, train, end);
    FrontOf(front, r);
    if front == [] {
      FirstScanned(stream, h, r);
      NothingAdded(Earlier(stream, h));
    } else {
      TrainScanned(stream, h, front, a);
      MoreScanned(stream, a, Earlier(stream, h), front, r, end);
    }
  }

  lemma {:induction false} MoreScanned(stream: seq<bool>, a: nat, before: seq<Run>, front: seq<Run>, r: Run, end: nat)
    requires front != [] && end == a + r.count <= |stream| && 1 <= r.count <= 255
    requires ScanBits(stream[..a]) == Counting(front[|front| - 1], before + front[..|front| - 1])
    requires front[|front| - 1].level != r.level && front[|front| - 1].count > 0
    requires forall j :: a <= j < end ==> stream[j] == r.level
    ensures ScanBits(stream[..end]) == Counting(r, before + front)
  {
    var n := |front| - 1;
    NextScanned(stream, a, front[n], before + front[..n], r);
    Snoc(before, front);
  }

  /** With the first sample of silence all pulses of a train have been handed on. */
  lemma {:induction false} TrainHandedOn(stream: seq<bool>, h: nat, train: seq<Run>, end: nat, j: nat)
    requires TrainAt(stream, h, train, end) && train[|train| - 1].level && 1 <= j <= 255 && end + j <= |stream|
    requires forall i :: end <= i < end + j ==> !stream[i]
    ensures ScanBits(stream[..end + j]) == Scan(j, 0, Earlier(stream, h) + train)
  {
    var n := |train| - 1;
    TrainScanned(stream, h, train, end);
    MaximalLast(train);
    NextScanned(stream, end, train[n], Earlier(stream, h) + train[..n], RunLength.Run(false, j));
    Snoc(Earlier(stream, h), train);
  }

  lemma {:induction false} IsTrain(stream: seq<bool>, h: nat, train: seq<Run>, end: nat)
    requires Filtered(stream, h, train, end) && Countable(train) && train != []
    ensures TrainAt(stream, h, train, end)
  {
  }

  /**
   A receiver has sampled anything that ends low, a train of pulses from 3 to 255 samples with
   pauses up to 255 between them, and silence, of which j samples have been scanned.
   */
  ghost predicate HasHeard(xs: seq<bool>, consumed: nat, before: seq<bool>, train: seq<Run>) {
    && Heard(xs, before, train, REQUIRED_SILENCE + 7)
    && Sound(train) && Countable(train) && train != [] && train[|train| - 1].level
    && 1 <= consumed - (|before| + 7 + |Expand(train)|) <= REQUIRED_SILENCE
  }

  /** What the receiver's invariant says about its scan. */
  lemma {:induction false} Scanned(r: Receiver)
    requires r.Valid()
    ensures r.consumed <= |r.stream| && IsFiltered(r.stream, r.samples)
    ensures ScanBits(r.stream[..r.consumed]).emitted == r.emitted
  {
  }

  lemma {:induction false} EmittedIs(stream: seq<bool>, h: nat, train: seq<Run>, end: nat, consumed: nat)
    requires Filtered(stream, h, train, end) && Countable(train) && train != [] && train[|train| - 1].level
    requires 1 <= consumed - end <= REQUIRED_SILENCE && consumed <= |stream|
    ensures ScanBits(stream[..consumed]).emitted == Earlier(stream, h) + train
  {
    IsTrain(stream, h, train, end);
    TrainHandedOn(stream, h, train, end, consumed - end);
  }

  /** Runs as a decoder is handed them. */
  ghost predicate Carries(pulses: seq<Pulse>, runs: seq<Run>) {
    |pulses| == |runs| && forall i :: 0 <= i < |runs| ==>
      pulses[i].level == runs[i].level && pulses[i].count == runs[i].count
  }

  lemma {:induction false} CarriesBoth(signal: seq<Pulse>, a: seq<Run>, b: seq<Run>, all: seq<Pulse>)
    returns (more: seq<Pulse>)
    requires Carries(signal, a) && Carries(all, a + b)
    ensures all == signal + more
  {
    more := all[|a|..];
    forall i | 0 <= i < |all| ensures all[i] == (signal + more)[i] {
      assert all[i].level == (a + b)[i].level && all[i].count == (a + b)[i].count;
    }
  }

  /** The pulses that the scan has handed on since it reached a train. */
  ghost predicate Handed(pulses: seq<Pulse>, emitted: seq<Run>, n: nat) {
    n <= |emitted| && Carries(pulses, emitted[|emitted| - n..])
  }

  /** They are those of the train, the first of them those of its first part. */
  lemma {:induction false} HandedOn(r: Receiver, before: seq<bool>, signal: seq<Pulse>, a: seq<Run>, b: seq<Run>,
                                    pulses: seq<Pulse>)
    returns (more: seq<Pulse>)
    requires r.Valid() && HasHeard(r.samples, r.consumed, before, a + b) && Handed(pulses, r.emitted, |a + b|)
    requires Carries(signal, a)
    ensures pulses == signal + more
  {
    var h, end := |before| + 7, |before| + 7 + |Expand(a + b)|;
    Scanned(r);
    HeardIsFiltered(r.stream, r.samples, before, a + b, end);
    EmittedIs(r.stream, h, a + b, end, r.consumed);
    LastPart(Earlier(r.stream, |before| + 7), a + b);
    more := CarriesBoth(signal, a, b, pulses);
  }

  lemma {:induction false} LastPart<T>(a: seq<T>, b: seq<T>)
    ensures (a + b)[|a + b| - |b|..] == b
  {
  }

  // ---------------------------------------------------------------- the decoders

  method StepHasta(d: Hasta.Decoder, x: Pulse, ghost start: seq<Pulse>, ghost done: seq<Pulse>,
                   ghost base: seq<Hasta.Message>)
    requires d.Valid() && d.history == start + done && d.sent == base + Hasta.SentAlong(start, done)
    modifies d
    ensures d.Valid() && d.history == start + (done + [x]) && d.sent == base + Hasta.SentAlong(start, done + [x])
  {
    ghost var along := Hasta.SentAlong(start, done);
    Hasta.AlongOne(start, done, x);
    d.Stream(x.level, x.count);
    Associate(start, done, [x]);
    Associate(base, along, Hasta.ListOf(Hasta.Sent(d.history)));
  }

  method RelayHasta(d: Hasta.Decoder, pulses: seq<Pulse>)
    requires d.Valid()
    modifies d
    ensures d.Valid() && d.history == old(d.history) + pulses
    ensures d.sent == old(d.sent) + Hasta.SentAlong(old(d.history), pulses)
  {
    ghost var start, base := d.history, d.sent;
    var i := 0;
    NothingAdded(start);
    NothingAdded(base);
    while i < |pulses|
      invariant 0 <= i <= |pulses| && d.Valid()
      invariant d.history == start + pulses[..i] && d.sent == base + Hasta.SentAlong(start, pulses[..i])
    {
      TakeSnoc(pulses, i);
      StepHasta(d, pulses[i], start, pulses[..i], base);
      i := i + 1;
    }
    assert pulses[..i] == pulses;
  }

  /**
   Every frame of either variant, sent while the decoder is idle: it is handed from the antenna to
   the decoder as it was sent, and its message is sent on first.
   */
  method HearHasta(r: Receiver, d: Hasta.Decoder, pulses: seq<Pulse>, ghost bits: seq<bool>, ghost before: seq<bool>,
                   ghost frame: seq<Pulse>, ghost sent: seq<Run>, ghost more: seq<Run>)
    requires r.Valid() && HasHeard(r.samples, r.consumed, before, sent + more) &&
             Handed(pulses, r.emitted, |sent + more|)
    requires d.Valid() && Hasta.ProgressAfter(d.history) == Hasta.Idle
    requires Carries(frame, sent) && (Hasta.IsOldFrame(frame, bits) || Hasta.IsNewFrame(frame, bits))
    modifies d
    ensures d.Valid() && old(d.sent) + Hasta.MessagesOf(bits) <= d.sent
  {
    ghost var start := d.history;
    ghost var later := HandedOn(r, before, frame, sent, more, pulses);
    Hasta.SentAlongConcat(start, frame, later);
    Hasta.FrameAlongBits(start, frame, bits);
    RelayHasta(d, pulses);
  }

  method RelayOregon(d: Oregon.Decoder, pulses: seq<Pulse>)
    requires Oregon.Inv(d.Current())
    modifies d, d.buffer
    ensures Oregon.Inv(d.Current())
    ensures var run := Line.StreamRun(old(d.Current()), pulses);
            d.Current() == run.0 && d.sent == old(d.sent) + run.1
  {
    ghost var start, done: seq<Pulse> := d.Current(), [];
    var i := 0;
    while i < |pulses|
      invariant 0 <= i <= |pulses| && done == pulses[..i] && Oregon.Inv(d.Current())
      invariant var run := Line.StreamRun(start, done);
                d.Current() == run.0 && d.sent == old(d.sent) + run.1
    {
      ghost var x, now := pulses[i], d.Current();
      Line.RunAppend(start, done, now, Line.StreamRun(start, done).1, [x]);
      Line.RunOne(now, x);
      d.Stream(pulses[i].level, pulses[i].count);
      done := done + [x];
      i := i + 1;
    }
    assert done == pulses;
  }

  /** Every packet with a known id, sent behind a preamble while the decoder waits, is sent on first. */
  method HearOregon(r: Receiver, d: Oregon.Decoder, pulses: seq<Pulse>, ghost before: seq<bool>,
                    ghost longs: seq<Pulse>, ghost trigger: Pulse, ghost hi: bv8, ghost lo: bv8,
                    ghost payload: seq<bv8>, ghost packet: seq<Pulse>, ghost sent: seq<Run>, ghost more: seq<Run>)
    requires r.Valid() && HasHeard(r.samples, r.consumed, before, sent + more) &&
             Handed(pulses, r.emitted, |sent + more|)
    requires Oregon.Inv(d.Current()) && d.phase == Oregon.Wait && Line.IsPreamble(d.cnt, longs, trigger)
    requires Line.KnownId(hi, lo, payload)
    requires var bits := Line.ByteBits(hi) + Line.ByteBits(lo) + Line.PacketBits(payload);
             Line.Heard(Line.PacketRuns(bits), 0, packet)
    requires Carries(longs + [trigger] + packet, sent)
    modifies d, d.buffer
    ensures old(d.sent) + [Oregon.Message(Line.IdOf(hi, lo), payload)] <= d.sent
  {
    ghost var start, signal := d.Current(), longs + [trigger] + packet;
    ghost var later := HandedOn(r, before, signal, sent, more, pulses);
    Line.DecodesPacket(start, longs, trigger, hi, lo, payload, packet);
    ghost var middle := Line.StreamRun(start, signal);
    Line.RunAppend(start, signal, middle.0, middle.1, later);
    RelayOregon(d, pulses);
  }

  method RelayOregonV3(d: OregonV3.Decoder, pulses: seq<Pulse>)
    requires OregonV3.Inv(d.Current())
    modifies d
    ensures OregonV3.Inv(d.Current())
    ensures var run := LineV3.StreamRun(old(d.Current()), pulses);
            d.Current() == run.0 && d.sent == old(d.sent) + run.1
  {
    ghost var start, done: seq<Pulse> := d.Current(), [];
    var i := 0;
    while i < |pulses|
      invariant 0 <= i <= |pulses| && done == pulses[..i] && OregonV3.Inv(d.Current())
      invariant var run := LineV3.StreamRun(start, done);
                d.Current() == run.0 && d.sent == old(d.sent) + run.1
    {
      ghost var x, now := pulses[i], d.Current();
      LineV3.RunAppend(start, done, now, LineV3.StreamRun(start, done).1, [x]);
      LineV3.RunOne(now, x);
      d.Stream(pulses[i].level, pulses[i].count);
      done := done + [x];
      i := i + 1;
    }
    assert done == pulses;
  }

  /** The same for every id of the table and the newer line code. */
  method HearOregonV3(r: Receiver, d: OregonV3.Decoder, pulses: seq<Pulse>, ghost before: seq<bool>,
                      ghost shorts: seq<Pulse>, ghost sync: seq<Pulse>, ghost id: OregonV3.Id, ghost payload: seq<bv8>,
                      ghost packet: seq<Pulse>, ghost sent: seq<Run>, ghost more: seq<Run>)
    requires r.Valid() && HasHeard(r.samples, r.consumed, before, sent + more) &&
             Handed(pulses, r.emitted, |sent + more|)
    requires OregonV3.Inv(d.Current()) && d.phase == OregonV3.Preamble
    requires LineV3.IsHeader(d.preambleSyncCount, shorts, sync) &&
             LineV3.KnownId(id, payload)
    requires var bits := LineV3.ByteBits(id.hi) + LineV3.ByteBits(id.lo) + LineV3.PacketBits(payload);
             LineV3.Heard(LineV3.CodeRuns(sync[3].level, bits), packet)
    requires Carries(shorts + sync + packet, sent)
    modifies d
    ensures old(d.sent) + [OregonV3.Message(id, payload)] <= d.sent
  {
    ghost var start, signal := d.Current(), shorts + sync + packet;
    ghost var later := HandedOn(r, before, signal, sent, more, pulses);
    LineV3.DecodesPacket(start, shorts, sync, id, payload, packet);
    ghost var middle := LineV3.StreamRun(start, signal);
    LineV3.RunAppend(start, signal, middle.0, middle.1, later);
    RelayOregonV3(d, pulses);
  }
}
