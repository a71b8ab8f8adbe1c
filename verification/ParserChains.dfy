/** From the antenna to the messages of the parsers that count backwards. */
module ParserChains {
  import opened Options
  import opened Sequences
  import opened Words
  import opened RunLength
  import opened ForwardScan
  import opened Ring
  import opened BackwardScan
  import opened Receive
  import opened Reception
  import Arctech
  import Crc
  import FineOffset
  import Mandolyn
  import Pt2262
  import X10

  /** The lengths of the last n runs of a train, the last one first. */
  function Lengths(train: seq<Run>, n: nat): (r: seq<nat>)
    requires n <= |train|
    ensures |r| == n && forall j :: 0 <= j < n ==> r[j] == train[|train| - 1 - j].count
  {
    seq(n, j requires 0 <= j < n => train[|train| - 1 - j].count)
  }

  /** All but the last run, which most parsers skip. */
  function Front(train: seq<Run>): (r: seq<Run>)
    requires train != []
    ensures |r| == |train| - 1
  {
    train[..|train| - 1]
  }

  // ---------------------------------------------------------------- what is counted

  /** The ring holds everything back to the beginning of a train, and the sample before it. */
  ghost predicate InRing(past: seq<Run>, written: nat) {
    past != [] && 8 * written < |Expand(past)| + 8 * DATA_BYTES
  }

  lemma {:induction false} ShortAtEnd(past: seq<Run>, train: seq<Run>, n: nat)
    requires n <= |train| && Countable(train)
    ensures var runs := past + train; forall i :: |runs| - n <= i < |runs| ==> runs[i].count <= 255
  {
    var runs := past + train;
    forall i | |runs| - n <= i < |runs| ensures runs[i].count <= 255 {
      assert runs[i] == train[i - |past|];
    }
  }

  lemma {:induction false} AreLengths(past: seq<Run>, train: seq<Run>, counts: seq<nat>, n: nat)
    requires n <= |train| && |counts| == n && LengthsBackward(counts, past + train)
    ensures counts == Lengths(train, n)
  {
    var runs := past + train;
    forall j | 0 <= j < n ensures counts[j] == Lengths(train, n)[j] {
      assert runs[|runs| - 1 - j] == train[|train| - 1 - j];
    }
  }

  lemma {:induction false} TotalOfMore(past: seq<Run>, more: seq<Run>)
    ensures Total(past + more) >= |Expand(past)|
  {
    ExpandAppend(past, more);
    TotalIsLength(past + more);
  }

  lemma {:induction false} EnoughLeft(past: seq<Run>, train: seq<Run>, n: nat, written: nat)
    requires n <= |train| && InRing(past, written) && Countable(train)
    ensures InWindow(past + train, n, written) && BackCounts(past + train, n) == Lengths(train, n)
  {
    var runs, k := past + train, |train| - n;
    ShortAtEnd(past, train, n);
    BackCountsAreLengths(runs, n);
    AreLengths(past, train, BackCounts(runs, n), n);
    assert runs[..|runs| - n] == past + train[..k];
    TotalOfMore(past, train[..k]);
  }

  /** The runs of the stream up to the end of a train. */
  lemma {:induction false} PastAndTrain(stream: seq<bool>, h: nat, train: seq<Run>, end: nat) returns (past: seq<Run>)
    requires Filtered(stream, h, train, end)
    ensures past != [] && |Expand(past)| == h && RunsUpTo(past + train, stream, end) && end >= 1
  {
    past := Runs(stream[..h]);
    FilteredRuns(stream, h, train, end, past);
    PastRuns(stream, past, h);
  }

  /** What a parser is given: a ring, the runs of the stream up to the end of a train, and a cursor there. */
  ghost predicate Given(ring: seq<bv8>, p: nat, b: bv8, stream: seq<bool>, written: nat, past: seq<Run>,
                        train: seq<Run>, end: nat) {
    && Holds(ring, stream, written) && Points(p, b, PosOf(end))
    && RunsUpTo(past + train, stream, end) && InRing(past, written) && Countable(train) && 1 <= end <= 8 * written
  }

  lemma {:induction false} CountsFrom(ring: seq<bv8>, stream: seq<bool>, written: nat, past: seq<Run>, train: seq<Run>,
                                      end: nat, n: nat)
    requires Holds(ring, stream, written) && RunsUpTo(past + train, stream, end) && InRing(past, written)
    requires Countable(train) && n <= |train| && 1 <= end <= 8 * written
    ensures Counts(ring, PosOf(end - 1), n) == Lengths(train, n)
  {
    EnoughLeft(past, train, n, written);
    BackwardIsReverse(ring, stream, written, past + train, end, n);
  }

  /** From the last sample of a train backwards. */
  lemma {:induction false} CountsAll(ring: seq<bv8>, p: nat, b: bv8, stream: seq<bool>, written: nat,
                                     past: seq<Run>, train: seq<Run>, end: nat, n: nat)
    requires Given(ring, p, b, stream, written, past, train, end) && n <= |train|
    ensures Counts(ring, Retreat(PosOf(end)), n) == Lengths(train, n)
  {
    OneBefore(end);
    CountsFrom(ring, stream, written, past, train, end, n);
  }

  /** From behind the last pulse, which is skipped. */
  lemma {:induction false} CountsFront(ring: seq<bv8>, p: nat, b: bv8, stream: seq<bool>, written: nat,
                                       past: seq<Run>, train: seq<Run>, end: nat, n: nat)
    requires Given(ring, p, b, stream, written, past, train, end) && n < |train|
    ensures Counts(ring, AfterLast(ring, PosOf(end)), n) == Lengths(Front(train), n)
  {
    var front, last := Front(train), train[|train| - 1];
    EnoughLeft(past, front, n, written);
    assert (past + front) + [last] == past + train;
    var rest := SkipsLast(ring, stream, written, past + front, last, end, n);
    CountsFrom(ring, stream, written, past, front, rest, n);
  }

  // ---------------------------------------------------------------- at the receiver

  /**
   A receiver has sampled anything that ends low, a train of pulses from 3 to 255 samples with
   pauses up to 255 between them, and silence; it has scanned up to the point where the silence
   is recognised; and its ring still holds the train.
   */
  ghost predicate HasHeard(xs: seq<bool>, consumed: nat, written: nat, before: seq<bool>, train: seq<Run>) {
    && Heard(xs, before, train, REQUIRED_SILENCE + 7)
    && Sound(train) && Countable(train) && train != [] && train[|train| - 1].level
    && consumed == EndOf(before, train) + REQUIRED_SILENCE
    && 8 * written < |before| + 7 + 8 * DATA_BYTES
  }

  lemma {:induction false} SilenceFound(stream: seq<bool>, xs: seq<bool>, consumed: nat, written: nat, p: nat, b: bv8,
                                        before: seq<bool>, train: seq<Run>, end: nat)
    requires IsFiltered(stream, xs) && HasHeard(xs, consumed, written, before, train) && end == EndOf(before, train)
    requires consumed <= |stream| && CursorAt(p, b, stream, REQUIRED_SILENCE, end)
    ensures Filtered(stream, |before| + 7, train, end) && Points(p, b, PosOf(end))
  {
    HeardIsFiltered(stream, xs, before, train, end);
    FilteredCount(stream, |before| + 7, train, end);
  }

  /** What a receiver's invariant says when it has heard a train. */
  ghost predicate Ready(ring: seq<bv8>, p: nat, b: bv8, stream: seq<bool>, written: nat, xs: seq<bool>, consumed: nat,
                        before: seq<bool>, train: seq<Run>, end: nat) {
    && Holds(ring, stream, written) && IsFiltered(stream, xs) && consumed <= 8 * written <= |stream|
    && HasHeard(xs, consumed, written, before, train) && end == EndOf(before, train)
    && CursorAt(p, b, stream, REQUIRED_SILENCE, end)
  }

  lemma {:induction false} AtSilence(ring: seq<bv8>, p: nat, b: bv8, stream: seq<bool>, written: nat, xs: seq<bool>,
                                     consumed: nat, before: seq<bool>, train: seq<Run>, end: nat)
    returns (past: seq<Run>)
    requires Ready(ring, p, b, stream, written, xs, consumed, before, train, end)
    ensures Given(ring, p, b, stream, written, past, train, end)
  {
    SilenceFound(stream, xs, consumed, written, p, b, before, train, end);
    past := PastAndTrain(stream, |before| + 7, train, end);
  }

  lemma {:induction false} PastOf(r: Receiver, before: seq<bool>, train: seq<Run>, end: nat) returns (past: seq<Run>)
    requires r.Valid() && HasHeard(r.samples, r.consumed, r.written, before, train) && end == EndOf(before, train)
    ensures Given(r.data[..], r.startSilenceP, r.startSilenceBit, r.stream, r.written, past, train, end)
  {
    Refines(r);
    past := AtSilence(r.data[..], r.startSilenceP, r.startSilenceBit, r.stream, r.written, r.samples, r.consumed,
                      before, train, end);
  }

  /**
   A receiver has sampled the same, has completed all its bytes, and has scanned not yet so far;
   the call of `rfReceiveTask` that reports the silence behind the train has a certain number.
   */
  ghost predicate Awaits(r: Receiver, calls: nat, before: seq<bool>, train: seq<Run>)
    reads r, r.data
  {
    && r.Valid() && Heard(r.samples, before, train, REQUIRED_SILENCE + 7)
    && Sound(train) && Countable(train) && train != [] && train[|train| - 1].level
    && Ahead(r, EndOf(before, train) + REQUIRED_SILENCE) && 8 * r.written < |before| + 7 + 8 * DATA_BYTES
    && calls == Silences(r.stream, r.consumed, EndOf(before, train) + REQUIRED_SILENCE)
  }

  method Await(r: Receiver, calls: nat, ghost before: seq<bool>, ghost train: seq<Run>) returns (found: bool)
    requires Awaits(r, calls, before, train)
    modifies r`scanP, r`scanBit, r`startSilenceP, r`startSilenceBit
    modifies r`count0, r`count1, r`consumed, r`emitted
    ensures r.Valid() && HasHeard(r.samples, r.consumed, r.written, before, train) && found
  {
    SilentBehind(r, before, train);
    found := Listen(r, calls, EndOf(before, train) + REQUIRED_SILENCE);
  }

  // ---------------------------------------------------------------- the parsers

  lemma {:induction false} FineOffsetHeard(r: Receiver, before: seq<bool>, train: seq<Run>, end: nat)
    requires r.Valid() && HasHeard(r.samples, r.consumed, r.written, before, train) && end == EndOf(before, train)
    requires |train| >= 80
    ensures IsRing(r.data[..]) && Points(r.startSilenceP, r.startSilenceBit, PosOf(end))
    ensures Counts(r.data[..], Retreat(PosOf(end)), 80) == Lengths(train, 80)
  {
    var past := PastOf(r, before, train, end);
    CountsAll(r.data[..], r.startSilenceP, r.startSilenceBit, r.stream, r.written, past, train, end, 80);
  }

  /** Every five bytes in the last eighty runs come out as they are, if they leave no remainder, and else nothing. */
  method ReceiveFineOffset(r: Receiver, calls: nat, ghost bytes: seq<bv8>, ghost before: seq<bool>,
                           ghost train: seq<Run>)
    returns (message: Option<seq<bv8>>)
    requires Awaits(r, calls, before, train) && |train| >= 80
    requires |bytes| == FineOffset.DATA_LENGTH
    requires FineOffset.Sends(Lengths(train, 80), Reverse(FineOffset.FrameOf(bytes)))
    modifies r`scanP, r`scanBit, r`startSilenceP, r`startSilenceBit
    modifies r`count0, r`count1, r`consumed, r`emitted
    ensures message == if Crc.Accepted(FineOffset.FrameOf(bytes)) then Some(bytes) else None
  {
    var found := Await(r, calls, before, train);
    if !found {
      return None;
    }
    ghost var end := EndOf(before, train);
    FineOffsetHeard(r, before, train, end);
    message := FineOffset.Parse(r.data[..], r.startSilenceP, r.startSilenceBit, PosOf(end));
    FineOffset.DecodesFrame(bytes, Lengths(train, 80), message);
  }

  lemma {:induction false} Pt2262Heard(r: Receiver, before: seq<bool>, train: seq<Run>, end: nat, digits: seq<nat>)
    requires r.Valid() && HasHeard(r.samples, r.consumed, r.written, before, train) && end == EndOf(before, train)
    requires |train| > 48 && |digits| == 12 && Pt2262.Word(digits)
    requires Pt2262.Sends(Lengths(Front(train), 48), digits, 12)
    ensures IsRing(r.data[..]) && Points(r.startSilenceP, r.startSilenceBit, PosOf(end))
    ensures Pt2262.Pt2262Data(Counts(r.data[..], AfterLast(r.data[..], PosOf(end)), 48)) ==
            Some(Pt2262.Value(digits))
  {
    var past := PastOf(r, before, train, end);
    CountsFront(r.data[..], r.startSilenceP, r.startSilenceBit, r.stream, r.written, past, train, end, 48);
    Pt2262.DecodesWord(digits, Lengths(Front(train), 48), digits);
  }

  /** Every word of twelve ternary digits before the stop pulse comes out as its number. */
  method ReceivePt2262(r: Receiver, calls: nat, ghost digits: seq<nat>, ghost before: seq<bool>, ghost train: seq<Run>)
    returns (message: Option<nat>)
    requires Awaits(r, calls, before, train) && |train| > 48
    requires |digits| == 12 && Pt2262.Word(digits) && Pt2262.Sends(Lengths(Front(train), 48), digits, 12)
    modifies r`scanP, r`scanBit, r`startSilenceP, r`startSilenceBit
    modifies r`count0, r`count1, r`consumed, r`emitted
    ensures message == Some(Pt2262.Value(digits))
  {
    var found := Await(r, calls, before, train);
    if !found {
      return None;
    }
    ghost var end := EndOf(before, train);
    Pt2262Heard(r, before, train, end, digits);
    message := Pt2262.Parse(r.data[..], r.startSilenceP, r.startSilenceBit, PosOf(end));
  }

  lemma {:induction false} X10Heard(r: Receiver, before: seq<bool>, train: seq<Run>, end: nat, frame: seq<bool>)
    requires r.Valid() && HasHeard(r.samples, r.consumed, r.written, before, train) && end == EndOf(before, train)
    requires |train| > 64 && |frame| == 32 && X10.Sends(Lengths(Front(train), 64), Reverse(frame), 32)
    ensures IsRing(r.data[..]) && Points(r.startSilenceP, r.startSilenceBit, PosOf(end))
    ensures X10.X10Data(Counts(r.data[..], AfterLast(r.data[..], PosOf(end)), 64)) ==
            if X10.Complemented(frame) then Some(MsbValue(frame)) else None
  {
    var past := PastOf(r, before, train, end);
    CountsFront(r.data[..], r.startSilenceP, r.startSilenceBit, r.stream, r.written, past, train, end, 64);
    X10.DecodesFrame(frame, Lengths(Front(train), 64));
  }

  /**
   Every frame of 32 bits before the stop pulse comes out as its number, if its complements are
   right, and else nothing.
   */
  method ReceiveX10(r: Receiver, calls: nat, ghost frame: seq<bool>, ghost before: seq<bool>, ghost train: seq<Run>)
    returns (message: Option<nat>)
    requires Awaits(r, calls, before, train) && |train| > 64
    requires |frame| == 32 && X10.Sends(Lengths(Front(train), 64), Reverse(frame), 32)
    modifies r`scanP, r`scanBit, r`startSilenceP, r`startSilenceBit
    modifies r`count0, r`count1, r`consumed, r`emitted
    ensures message == if X10.Complemented(frame) then Some(MsbValue(frame)) else None
  {
    var found := Await(r, calls, before, train);
    if !found {
      return None;
    }
    ghost var end := EndOf(before, train);
    X10Heard(r, before, train, end, frame);
    message := X10.Parse(r.data[..], r.startSilenceP, r.startSilenceBit, PosOf(end));
  }

  lemma {:induction false} MandolynHeard(r: Receiver, before: seq<bool>, train: seq<Run>, end: nat, n: nat,
                                         frame: seq<bool>)
    requires r.Valid() && HasHeard(r.samples, r.consumed, r.written, before, train) && end == EndOf(before, train)
    requires n < |train| && n <= 72 && |frame| == 36
    requires Mandolyn.Sends(Lengths(Front(train), n), Reverse(frame))
    ensures IsRing(r.data[..]) && Points(r.startSilenceP, r.startSilenceBit, PosOf(end))
    ensures Mandolyn.MandolynData(Counts(r.data[..], AfterLast(r.data[..], PosOf(end)), 72)) ==
            if MsbValue(frame[..4]) == 0xC then Some(MsbValue(frame[4..])) else None
  {
    var past := PastOf(r, before, train, end);
    CountsFront(r.data[..], r.startSilenceP, r.startSilenceBit, r.stream, r.written, past, train, end, n);
    CountsPrefix(r.data[..], AfterLast(r.data[..], PosOf(end)), n, 72 - n);
    Mandolyn.DecodesFrame(frame, Lengths(Front(train), n), Counts(r.data[..], AfterLast(r.data[..], PosOf(end)), 72));
  }

  /** Every frame of 36 bits, of one or two pulses each, comes out if it begins with 0xC, and else nothing. */
  method ReceiveMandolyn(r: Receiver, calls: nat, ghost frame: seq<bool>, ghost n: nat, ghost before: seq<bool>,
                         ghost train: seq<Run>)
    returns (message: Option<nat>)
    requires Awaits(r, calls, before, train) && n < |train| && n <= 72
    requires |frame| == 36 && Mandolyn.Sends(Lengths(Front(train), n), Reverse(frame))
    modifies r`scanP, r`scanBit, r`startSilenceP, r`startSilenceBit
    modifies r`count0, r`count1, r`consumed, r`emitted
    ensures message == if MsbValue(frame[..4]) == 0xC then Some(MsbValue(frame[4..])) else None
  {
    var found := Await(r, calls, before, train);
    if !found {
      return None;
    }
    ghost var end := EndOf(before, train);
    MandolynHeard(r, before, train, end, n, frame);
    message := Mandolyn.Parse(r.data[..], r.startSilenceP, r.startSilenceBit, PosOf(end));
  }
  lemma {:induction false} CodeSwitchHeard(r: Receiver, before: seq<bool>, train: seq<Run>, end: nat, bits: seq<bool>)
    requires r.Valid() && HasHeard(r.samples, r.consumed, r.written, before, train) && end == EndOf(before, train)
    requires |train| > 48 && |bits| == 12 && Arctech.SendsSwitch(Lengths(Front(train), 48), bits)
    ensures IsRing(r.data[..]) && Points(r.startSilenceP, r.startSilenceBit, PosOf(end))
    ensures Arctech.CodeSwitchData(Counts(r.data[..], AfterLast(r.data[..], PosOf(end)), 48)) ==
            if exists i :: 0 <= i < 12 && bits[i] then Some(MsbValue(bits)) else None
  {
    var past := PastOf(r, before, train, end);
    CountsFront(r.data[..], r.startSilenceP, r.startSilenceBit, r.stream, r.written, past, train, end, 48);
    Arctech.DecodesSwitch(Lengths(Front(train), 48), bits);
  }

  /** Every word of twelve bits of a code switch before the stop pulse comes out, except the word of zeros. */
  method ReceiveCodeSwitch(r: Receiver, calls: nat, ghost bits: seq<bool>, ghost before: seq<bool>,
                           ghost train: seq<Run>)
    returns (message: Option<nat>)
    requires Awaits(r, calls, before, train) && |train| > 48
    requires |bits| == 12 && Arctech.SendsSwitch(Lengths(Front(train), 48), bits)
    modifies r`scanP, r`scanBit, r`startSilenceP, r`startSilenceBit
    modifies r`count0, r`count1, r`consumed, r`emitted
    ensures message == if exists i :: 0 <= i < 12 && bits[i] then Some(MsbValue(bits)) else None
  {
    var found := Await(r, calls, before, train);
    if !found {
      return None;
    }
    ghost var end := EndOf(before, train);
    CodeSwitchHeard(r, before, train, end, bits);
    message := Arctech.ParseCodeSwitch(r.data[..], r.startSilenceP, r.startSilenceBit, PosOf(end));
  }
}
