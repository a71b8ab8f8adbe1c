/**
 The receiver of rf/receive.c: the sampling interrupt that filters, packs and stores the
 input, and the scan of the main loop that takes bits from the ring. Calls of `Update` and
 `ScanStep` may come in any order; what holds after each of them holds on every interleaving.
 */
module Receive {
  import opened Bits
  import opened Pulses
  import opened RunLength
  import opened GlitchFilter
  import opened ForwardScan
  import opened Ring

  const REQUIRED_SILENCE := 150

  /** A byte on its way: the last n bits shifted in are the stream bits from `from` on. */
  ghost predicate Packs(buffer: bv8, n: nat, stream: seq<bool>, from: nat)
    requires n <= 8 && from + n <= |stream|
  {
    forall p :: 8 - n <= p < 8 ==> BitOf(buffer, p) == stream[from + p - (8 - n)]
  }

  function Shift(buffer: bv8, b: bool): bv8 {
    if b then (buffer << 1) | 1 else buffer << 1
  }

  lemma {:induction false} PackOne(buffer: bv8, n: nat, stream: seq<bool>, from: nat, b: bool)
    requires n < 8 && |stream| == from + n && Packs(buffer, n, stream, from)
    ensures Packs(Shift(buffer, b), n + 1, stream + [b], from)
  {
    forall p | 8 - (n + 1) <= p < 8
      ensures BitOf(Shift(buffer, b), p) == (stream + [b])[from + p - (8 - (n + 1))]
    {
      ShiftIn(buffer, p);
      if p < 7 {
        assert BitOf(buffer, p + 1) == stream[from + (p + 1) - (8 - n)];
      }
    }
  }

  /** The filter register after the whole history: bit 7 is the latest sample, bit 0 the one 7 back. */
  ghost predicate Registers(pre: bv8, samples: seq<bool>) {
    forall p :: 0 <= p < 8 ==> BitOf(pre, p) == MarkedBack(samples, 7 - p)
  }

  predicate MarkedBack(samples: seq<bool>, j: nat) {
    j < |samples| && Marked(samples, |samples| - 1 - j)
  }

  /** What the filter does to its register when its counter has become c. */
  function Filter(pre: bv8, c: nat): bv8 {
    if c == TRIGGER_LEVEL then (pre << 1) | 7 else if c > TRIGGER_LEVEL then (pre << 1) | 1 else pre << 1
  }

  lemma {:induction false} MarkedBackOne(samples: seq<bool>, b: bool, j: nat)
    ensures var c := Counter(samples + [b]);
            MarkedBack(samples + [b], j) ==
            if j == 0 then c >= TRIGGER_LEVEL else MarkedBack(samples, j - 1) || (c == TRIGGER_LEVEL && j <= 2)
  {
    if j <= |samples| {
      MarkedSnoc(samples, b, |samples| - j);
    } else {
      CounterBound(samples + [b]);
    }
  }

  lemma {:induction false} RegisterOne(pre: bv8, samples: seq<bool>, b: bool)
    requires Registers(pre, samples)
    ensures Registers(Filter(pre, Counter(samples + [b])), samples + [b])
  {
    var next := Filter(pre, Counter(samples + [b]));
    forall p | 0 <= p < 8 ensures BitOf(next, p) == MarkedBack(samples + [b], 7 - p) {
      ShiftIn(pre, p);
      MarkedBackOne(samples, b, 7 - p);
      if p < 7 {
        assert BitOf(pre, p + 1) == MarkedBack(samples, 7 - (p + 1));
      }
    }
  }

  lemma {:induction false} CounterBound(xs: seq<bool>)
    ensures Counter(xs) <= |xs|
  {
    if xs != [] {
      CounterBound(xs[..|xs| - 1]);
    }
  }

  /** The bits of the stream are the filter's outputs, in order. */
  ghost predicate IsFiltered(stream: seq<bool>, samples: seq<bool>) {
    |stream| == |samples| && forall t :: 0 <= t < |stream| ==> stream[t] == Output(samples, t)
  }

  lemma {:induction false} FilteredOne(stream: seq<bool>, samples: seq<bool>, b: bool)
    requires IsFiltered(stream, samples)
    ensures IsFiltered(stream + [Output(samples + [b], |samples|)], samples + [b])
  {
    forall t | 0 <= t < |samples| ensures stream[t] == Output(samples + [b], t) {
      OutputStable(samples, b, t);
    }
  }

  ghost predicate IsCursor(p: nat, b: bv8, i: nat) {
    Points(p, b, PosOf(i))
  }

  /** The counters and the pulses handed on are those of the first n bits. */
  ghost predicate Counted(s: Scan, stream: seq<bool>, n: nat)
    requires n <= |stream|
  {
    s == ScanBits(stream[..n])
  }

  /** While silence is counted, the start cursor points at its first bit. */
  ghost predicate SilenceAt(p: nat, b: bv8, count0: nat, n: nat) {
    count0 > 0 ==> count0 <= n && IsCursor(p, b, n - count0)
  }

  /** Exactly the required silence, 150 samples of it, is counted behind the first n bits. */
  ghost predicate Silent(stream: seq<bool>, n: nat) {
    n <= |stream| && ScanBits(stream[..n]).count0 == 150
  }

  /** It is so nowhere behind `from`, up to n. */
  ghost predicate Quiet(stream: seq<bool>, from: nat, n: nat) {
    forall k :: from < k <= n ==> !Silent(stream, k)
  }

  /** How far the scan comes: to the last completed byte, or nowhere if the ring is exactly full. */
  function Reach(consumed: nat, written: nat): nat {
    if written == consumed / 8 + DATA_BYTES then consumed else 8 * written
  }

  lemma {:induction false} CountedOnAppend(s: Scan, stream: seq<bool>, n: nat, b: bool)
    requires n <= |stream| && Counted(s, stream, n)
    ensures Counted(s, stream + [b], n)
  {
    assert (stream + [b])[..n] == stream[..n];
  }

  lemma {:induction false} CountedStep(s: Scan, stream: seq<bool>, n: nat)
    requires n < |stream| && Counted(s, stream, n)
    ensures Counted(ScanBit(s, stream[n]), stream, n + 1) && s.count0 < 256 && s.count1 < 256
  {
    ScanSnoc(stream, n);
    CountsFitBytes(stream[..n]);
  }

  class Receiver {
    const data: array<bv8>
    var dataP: nat

    // statics of rfReceiveUpdate
    var buffer: bv8
    var cnt: nat
    var preFilterBuffer: bv8
    var preFilterCnt: nat

    // statics of rfReceiveTask
    var scanP: nat
    var scanBit: bv8
    var startSilenceP: nat
    var startSilenceBit: bv8
    var count0: nat
    var count1: nat

    ghost var samples: seq<bool>  // everything sampled since start-up
    ghost var stream: seq<bool>   // everything the filter put out
    ghost var written: nat        // completed bytes
    ghost var consumed: nat       // bits taken by the scan
    ghost var emitted: seq<Run>   // pulses handed to the stream decoders

    ghost predicate FilterValid()
      reads this`preFilterCnt, this`preFilterBuffer, this`samples
    {
      preFilterCnt == Counter(samples) && Registers(preFilterBuffer, samples)
    }

    ghost predicate RingValid()
      reads this`cnt, this`buffer, this`dataP, this`stream, this`written, data
    {
      && cnt < 8 && |stream| == 8 * written + cnt
      && dataP == Slot(written)
      && Holds(data[..], stream, written)
      && Packs(buffer, cnt, stream, 8 * written)
    }

    ghost predicate ScanValid()
      reads this
    {
      && consumed <= 8 * written <= |stream|
      && IsCursor(scanP, scanBit, consumed)
      && Counted(Scan(count0, count1, emitted), stream, consumed)
      && SilenceAt(startSilenceP, startSilenceBit, count0, consumed)
    }

    ghost predicate Valid()
      reads this, data
    {
      FilterValid() && RingValid() && IsFiltered(stream, samples) && ScanValid()
    }

    /** The writer has not overtaken the reader: at most a ring full of bytes is unread. */
    ghost predicate InReach()
      reads this
    {
      written <= consumed / 8 + DATA_BYTES
    }

    constructor ()
      ensures Valid() && fresh(data) && samples == [] && stream == [] && consumed == 0 && emitted == []
    {
      data := new bv8[DATA_BYTES](_ => 0);
      dataP, buffer, cnt, preFilterBuffer, preFilterCnt := 0, 0, 0, 0, 0;
      scanP, scanBit, startSilenceP, startSilenceBit := 0, 0x80, 0, 0;
      count0, count1 := 0, 0;
      samples, stream, written, consumed, emitted := [], [], 0, 0, [];
      new;
      forall k | 0 <= k < 8 ensures !BitOf(0, k) {
        ZeroByte(k);
      }
    }

    /** The first half of `rfReceiveUpdate`: one sample into the filter, one bit out of it. */
    method FilterSample(antenna: bool) returns (bit: bool)
      requires FilterValid()
      modifies this`preFilterBuffer, this`preFilterCnt, this`samples
      ensures FilterValid() && samples == old(samples) + [antenna]
      ensures bit == Output(samples, |samples| - 1)
    {
      CounterSnoc(samples, antenna);
      RegisterOne(preFilterBuffer, samples, antenna);
      samples := samples + [antenna];
      preFilterBuffer := preFilterBuffer << 1;
      if antenna {
        preFilterCnt := Bump(preFilterCnt);
        if preFilterCnt == TRIGGER_LEVEL {
          preFilterBuffer := preFilterBuffer | 7;
        } else if preFilterCnt > TRIGGER_LEVEL {
          preFilterBuffer := preFilterBuffer | 1;
        }
      } else {
        preFilterCnt := 0;
      }
      assert BitOf(preFilterBuffer, 0) == MarkedBack(samples, 7);
      bit := preFilterBuffer & 0x80 != 0;
    }

    /** The second half: pack the bit, and store the byte when it is full. */
    method StoreBit(bit: bool)
      requires RingValid()
      modifies this`buffer, this`cnt, this`dataP, this`stream, this`written, data
      ensures RingValid() && stream == old(stream) + [bit] && written >= old(written)
    {
      HoldsOnAppend(data[..], stream, written, bit);
      ShiftBit(bit);
      if cnt == 8 {
        cnt := 0;
        StoreByte();
      }
    }

    method ShiftBit(bit: bool)
      requires cnt < 8 && |stream| == 8 * written + cnt && Packs(buffer, cnt, stream, 8 * written)
      modifies this`buffer, this`cnt, this`stream
      ensures stream == old(stream) + [bit] && cnt == old(cnt) + 1
      ensures Packs(buffer, cnt, stream, 8 * written)
    {
      PackOne(buffer, cnt, stream, 8 * written, bit);
      buffer := buffer << 1;
      cnt := cnt + 1;
      if bit {
        buffer := buffer | 1;
      }
      stream := stream + [bit];
    }

    method StoreByte()
      requires |stream| == 8 * written + 8 && dataP == Slot(written)
      requires Holds(data[..], stream, written) && Packs(buffer, 8, stream, 8 * written)
      modifies this`dataP, this`written, data
      ensures dataP == Slot(written) && written == old(written) + 1
      ensures Holds(data[..], stream, written)
    {
      HoldsOnWrite(data[..], stream, written, buffer);
      SlotNext(written);
      data[dataP] := buffer;
      dataP := dataP + 1;
      if dataP == DATA_BYTES {
        dataP := 0;
      }
      written := written + 1;
    }

    /** `rfReceiveUpdate`, the sampling interrupt. It leaves the scan alone. */
    method Update(antenna: bool)
      requires Valid()
      modifies this`preFilterBuffer, this`preFilterCnt, this`samples
      modifies this`buffer, this`cnt, this`dataP, this`stream, this`written, data
      ensures Valid() && samples == old(samples) + [antenna]
      ensures stream == old(stream) + [Output(samples, |samples| - 1)]
    {
      ghost var before, history := stream, samples;
      var bit := FilterSample(antenna);
      FilteredOne(before, history, antenna);
      StoreBeforeScan(bit);
    }

    /** What is stored does not disturb the scan. */
    method StoreBeforeScan(bit: bool)
      requires RingValid() && ScanValid()
      modifies this`buffer, this`cnt, this`dataP, this`stream, this`written, data
      ensures RingValid() && ScanValid() && stream == old(stream) + [bit]
    {
      CountedOnAppend(Scan(count0, count1, emitted), stream, consumed, bit);
      StoreBit(bit);
    }

    /** The body of the scan loop up to the advance: the bit at the cursor is counted. */
    method CountBit(bit: bool)
      modifies this`startSilenceP, this`startSilenceBit, this`count0, this`count1, this`emitted
      requires count0 < 256 && count1 < 256
      requires IsCursor(scanP, scanBit, consumed) && SilenceAt(startSilenceP, startSilenceBit, count0, consumed)
      ensures Scan(count0, count1, emitted) == ScanBit(old(Scan(count0, count1, emitted)), bit)
      ensures SilenceAt(startSilenceP, startSilenceBit, count0, consumed + 1)
    {
      if bit {
        if count0 > 0 {
          emitted := emitted + [RunLength.Run(false, count0)];
        }
        count1 := Bump(count1);
        count0 := 0;
      } else {
        if count0 == 0 {
          startSilenceP := scanP;
          startSilenceBit := scanBit;
        }
        if count1 > 0 {
          emitted := emitted + [RunLength.Run(true, count1)];
        }
        count0 := Bump(count0);
        count1 := 0;
      }
    }

    /**
     One turn of the loop of `rfReceiveTask`, whose guard found the cursors apart: the next
     bit of the stream is taken, and the pulse it ends, if any, is handed on.
     */
    method ScanStep() returns (found: bool)
      requires Valid() && InReach() && scanP != dataP
      modifies this`scanP, this`scanBit, this`startSilenceP, this`startSilenceBit
      modifies this`count0, this`count1, this`consumed, this`emitted
      ensures Valid() && consumed == old(consumed) + 1
      ensures found <==> Silent(stream, consumed)
    {
      var bit := CurrentBit();
      TakeBit(bit);
      found := count0 == REQUIRED_SILENCE;
    }

    method TakeBit(bit: bool)
      requires ScanValid() && consumed < 8 * written && bit == stream[consumed]
      modifies this`scanP, this`scanBit, this`startSilenceP, this`startSilenceBit
      modifies this`count0, this`count1, this`consumed, this`emitted
      ensures ScanValid() && consumed == old(consumed) + 1
    {
      CountedStep(Scan(count0, count1, emitted), stream, consumed);
      CountBit(bit);
      NextPosition();
    }

    /**
     `rfReceiveTask` up to the parsing. It reports silence if and only if there is a position to
     which the scan comes, before the cursors meet, and at which the required silence is counted;
     it stops at the first such position, and otherwise where the cursors meet.
     */
    method ReceiveTask() returns (found: bool)
      requires Valid() && InReach()
      modifies this`scanP, this`scanBit, this`startSilenceP, this`startSilenceBit
      modifies this`count0, this`count1, this`consumed, this`emitted
      ensures Valid() && InReach()
      ensures found <==> !Quiet(stream, old(consumed), Reach(old(consumed), written))
      ensures found ==> old(consumed) < consumed <= Reach(old(consumed), written) && Silent(stream, consumed)
      ensures found ==> Quiet(stream, old(consumed), consumed - 1)
      ensures !found ==> consumed == Reach(old(consumed), written)
    {
      found := false;
      ghost var start := consumed;
      CursorsMeet(start, consumed, written);
      while scanP != dataP
        invariant Scanning(start)
        decreases 8 * written - consumed
      {
        found := ScanOn(start);
        if found {
          return;
        }
      }
    }

    /** A call that began at `start` has come this far, with nothing to report. */
    ghost predicate Scanning(start: nat)
      reads this, data
    {
      && Valid() && InReach() && start <= consumed <= Reach(start, written)
      && written <= start / 8 + DATA_BYTES
      && (scanP == dataP <==> consumed == Reach(start, written))
      && Quiet(stream, start, consumed)
    }

    method ScanOn(ghost start: nat) returns (found: bool)
      requires Scanning(start) && scanP != dataP
      modifies this`scanP, this`scanBit, this`startSilenceP, this`startSilenceBit
      modifies this`count0, this`count1, this`consumed, this`emitted
      ensures Valid() && InReach() && consumed == old(consumed) + 1
      ensures !found ==> Scanning(start)
      ensures found ==> start < consumed <= Reach(start, written) && Silent(stream, consumed)
      ensures found ==> Quiet(stream, start, consumed - 1) && !Quiet(stream, start, Reach(start, written))
    {
      ghost var before, bits := consumed, stream;
      found := ScanStep();
      OneFurther(bits, start, before, Reach(start, written));
      CursorsMeet(start, consumed, written);
    }

    method NextPosition()
      requires IsCursor(scanP, scanBit, consumed)
      modifies this`scanP, this`scanBit, this`consumed
      ensures consumed == old(consumed) + 1 && IsCursor(scanP, scanBit, consumed)
    {
      PosAdvances(consumed);
      scanP, scanBit := AdvanceBit(scanP, scanBit, PosOf(consumed));
      consumed := consumed + 1;
    }

    /** The bit at the cursor is the next bit of the stream, however often the ring has wrapped. */
    method CurrentBit() returns (bit: bool)
      requires RingValid() && ScanValid() && InReach() && scanP != dataP
      ensures consumed < 8 * written && bit == stream[consumed]
    {
      Unread(consumed, written);
      HeldBit(data[..], stream, written, consumed);
      bit := GetBit(data[..], scanP, scanBit, PosOf(consumed));
    }
  }

  /** What may happen next: a sample arrives, or the main loop turns once more. */
  datatype Event = Sample(level: bool) | ScanTurn

  function SamplesOf(events: seq<Event>): seq<bool> {
    if events == [] then []
    else SamplesOf(events[..|events| - 1])
         + (if events[|events| - 1].Sample? then [events[|events| - 1].level] else [])
  }

  /**
   The schedule never lets the writer get more than a ring full of bytes ahead: whenever the
   loop turns, with `produced` samples in and `consumed` bits out.
   */
  ghost predicate KeepsUp(events: seq<Event>, produced: nat, consumed: nat) {
    events == [] ||
    match events[0]
    case Sample(_) => KeepsUp(events[1..], produced + 1, consumed)
    case ScanTurn =>
      && produced / 8 <= consumed / 8 + DATA_BYTES
      && KeepsUp(events[1..], produced, if Slot(consumed / 8) == Slot(produced / 8) then consumed else consumed + 1)
  }

  /**
   Any interleaving of samples and scan turns, from start-up. Afterwards, by `Valid`, the
   bits taken are the first `consumed` bits of the filtered stream, each once and in order,
   and the pulses handed on are their runs.
   */
  method Interleave(events: seq<Event>) returns (r: Receiver)
    requires KeepsUp(events, 0, 0)
    ensures fresh(r) && fresh(r.data) && r.Valid()
    ensures r.samples == SamplesOf(events) && IsFiltered(r.stream, SamplesOf(events))
    ensures r.emitted == ScanBits(r.stream[..r.consumed]).emitted
  {
    r := new Receiver();
    var i := 0;
    assert events[..0] == [] && events[0..] == events;
    while i < |events|
      invariant 0 <= i <= |events|
      invariant fresh(r) && fresh(r.data) && r.Valid() && r.samples == SamplesOf(events[..i])
      invariant KeepsUp(events[i..], |r.stream|, r.consumed)
    {
      NextEvent(events, i, |r.stream|, r.consumed);
      Turn(r, events[i]);
      i := i + 1;
    }
    assert events[..i] == events;
  }

  lemma {:induction false} NextEvent(events: seq<Event>, i: nat, produced: nat, consumed: nat)
    requires i < |events| && KeepsUp(events[i..], produced, consumed)
    ensures SamplesOf(events[..i + 1]) == SamplesOf(events[..i]) + if events[i].Sample? then [events[i].level] else []
    ensures events[i] == ScanTurn ==> produced / 8 <= consumed / 8 + DATA_BYTES
    ensures KeepsUp(events[i + 1..], if events[i].Sample? then produced + 1 else produced,
                    if events[i] == ScanTurn && Slot(consumed / 8) != Slot(produced / 8) then consumed + 1
                    else consumed)
  {
    assert events[i..][1..] == events[i + 1..];
    assert events[..i + 1][..i] == events[..i];
  }

  /** The two cursors of the ring, by the bytes they stand at. */
  lemma {:induction false} Cursors(r: Receiver)
    requires r.Valid()
    ensures r.scanP == Slot(r.consumed / 8) && r.dataP == Slot(|r.stream| / 8)
  {
    PosParts(r.consumed / 8, r.consumed % 8);
  }

  /** One event of a schedule. */
  method Turn(r: Receiver, e: Event)
    requires r.Valid() && (e == ScanTurn ==> r.InReach())
    modifies r, r.data
    ensures r.Valid()
    ensures r.samples == old(r.samples) + if e.Sample? then [e.level] else []
    ensures |r.stream| == |r.samples|
    ensures r.consumed == old(r.consumed) +
            if e == ScanTurn && Slot(old(r.consumed) / 8) != Slot(|r.stream| / 8) then 1 else 0
  {
    Cursors(r);
    if e.Sample? {
      r.Update(e.level);
    } else if r.scanP != r.dataP {
      var found := r.ScanStep();
    }
  }

  /** Were the writer to get further ahead, the reader would be given bits from a lap later. */
  lemma {:induction false} OvertakenReadsLaterBit(ring: seq<bv8>, stream: seq<bool>, written: nat, i: nat)
    requires Holds(ring, stream, written)
    requires i + 4096 < 8 * written <= i + 8192
    ensures BitAt(ring, PosOf(i)) == stream[i + 4096]
  {
    HeldBit(ring, stream, written, i + 8 * DATA_BYTES);
    LapLater(i);
  }

  lemma {:induction false} LapLater(i: nat)
    ensures PosOf(i + 8 * DATA_BYTES) == PosOf(i)
  {
    var w, k := i / 8, i % 8;
    SlotPeriod(w);
    PosParts(w, k);
    PosParts(w + DATA_BYTES, k);
  }

  /** A ring that is exactly full looks empty to the scan. */
  lemma {:induction false} FullLooksEmpty(written: nat, consumed: nat)
    requires consumed / 8 <= written <= consumed / 8 + DATA_BYTES
    ensures PosOf(consumed).p == Slot(written) <==> written == consumed / 8 || written == consumed / 8 + DATA_BYTES
  {
    PosParts(consumed / 8, consumed % 8);
    SlotPeriod(consumed / 8);
    if consumed / 8 < written < consumed / 8 + DATA_BYTES {
      SlotDistinct(consumed / 8, written);
    }
  }

  lemma {:induction false} OneFurther(stream: seq<bool>, start: nat, n: nat, limit: nat)
    requires start <= n < limit && Quiet(stream, start, n)
    ensures if Silent(stream, n + 1) then !Quiet(stream, start, limit) else Quiet(stream, start, n + 1)
  {
  }

  /** On its way the scan finds the cursors apart until it has come as far as it can. */
  lemma {:induction false} CursorsMeet(start: nat, consumed: nat, written: nat)
    requires written <= start / 8 + DATA_BYTES && start <= consumed <= Reach(start, written)
    ensures PosOf(consumed).p == Slot(written) <==> consumed == Reach(start, written)
    ensures written <= consumed / 8 + DATA_BYTES
  {
    FullLooksEmpty(written, consumed);
  }

  lemma {:induction false} Unread(consumed: nat, written: nat)
    requires consumed <= 8 * written && written <= consumed / 8 + DATA_BYTES
    requires PosOf(consumed).p != Slot(written)
    ensures consumed < 8 * written <= consumed + 8 * DATA_BYTES
  {
    PosParts(consumed / 8, consumed % 8);
    SlotPeriod(consumed / 8);
  }

  lemma {:induction false} SlotPeriod(w: nat)
    ensures Slot(w + DATA_BYTES) == Slot(w)
  {
  }
}
