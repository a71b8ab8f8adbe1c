/**
 What a receiver makes of a transmission, whichever it is. The proof follows the samples: pulses
 of at least three samples pass the filter unchanged but for a delay of seven; the bits are then
 the runs of the transmission; counting backwards from the silence behind it gives these runs in
 reverse; and the forward scan hands them on in their order.
 */
module Reception {
  import opened RunLength
  import opened GlitchFilter
  import opened ForwardScan
  import opened Ring
  import opened BackwardScan
  import opened Receive

  // ---------------------------------------------------------------- through the filter

  /** The filter passes sample s on unchanged. */
  ghost predicate Clear(xs: seq<bool>, s: nat)
    requires s < |xs|
  {
    (xs[s] ==> InPulse(xs, s)) && TrailingHigh(xs[..s + 1]) < 256
  }

  lemma {:induction false} ClearPasses(xs: seq<bool>, s: nat)
    requires s + 7 < |xs| && Clear(xs, s)
    ensures Output(xs, s + 7) == xs[s]
  {
    MarkedIsInPulse(xs, s);
  }

  lemma {:induction false} LowIsClear(xs: seq<bool>, s: nat)
    requires s < |xs| && !xs[s]
    ensures Clear(xs, s)
  {
    TrailingHighSnoc(xs, s);
  }

  /** The length of a high run that starts after a low sample. */
  lemma {:induction false} TrailingRun(xs: seq<bool>, a: nat, s: nat)
    requires 1 <= a <= s < |xs| && !xs[a - 1]
    requires forall j :: a <= j <= s ==> xs[j]
    ensures TrailingHigh(xs[..s + 1]) == s + 1 - a
  {
    TrailingHighSnoc(xs, s);
    if s == a {
      TrailingHighSnoc(xs, a - 1);
    } else {
      TrailingRun(xs, a, s - 1);
    }
  }

  lemma {:induction false} HighRunIsClear(xs: seq<bool>, a: nat, n: nat, s: nat)
    requires 1 <= a <= s < a + n <= |xs| && 3 <= n <= 255 && !xs[a - 1]
    requires forall j :: a <= j < a + n ==> xs[j]
    ensures Clear(xs, s)
  {
    TrailingRun(xs, a, s);
    var i := if s + 3 <= a + n then s else a + n - 3;
    assert HighAt(xs, i);
  }

  /** Pulses of a transmission: the high runs are long enough and do not overflow the filter. */
  ghost predicate Sound(runs: seq<Run>) {
    Maximal(runs) && (runs != [] ==> runs[0].level) &&
    forall i :: 0 <= i < |runs| && runs[i].level ==> 3 <= runs[i].count <= 255
  }

  lemma {:induction false} SoundPrefix(runs: seq<Run>)
    requires Sound(runs) && runs != []
    ensures Sound(runs[..|runs| - 1])
    ensures |runs| > 1 ==> runs[|runs| - 2].level != runs[|runs| - 1].level
  {
    MaximalLast(runs);
  }

  lemma {:induction false} JoinSound(a: seq<Run>, b: seq<Run>)
    requires Sound(a) && Sound(b) && a != [] && !a[|a| - 1].level
    ensures Sound(a + b)
  {
    JoinMaximal(a, b);
  }

  /** Every sample of the runs, heard after a low sample, is clear. */
  lemma {:induction false} RunsAreClear(xs: seq<bool>, off: nat, runs: seq<Run>)
    requires Sound(runs) && 1 <= off && off + |Expand(runs)| <= |xs| && !xs[off - 1]
    requires xs[off..off + |Expand(runs)|] == Expand(runs)
    ensures forall s :: off <= s < off + |Expand(runs)| ==> Clear(xs, s)
    ensures runs != [] ==> |Expand(runs)| > 0 && xs[off + |Expand(runs)| - 1] == runs[|runs| - 1].level
  {
    if runs != [] {
      var n := |runs| - 1;
      var before, last := runs[..n], runs[n];
      var m := |Expand(before)|;
      SoundPrefix(runs);
      MaximalLast(runs);
      SliceOfExpand(xs, off, before, last);
      RunsAreClear(xs, off, before);
      forall s | off + m <= s < off + m + last.count ensures Clear(xs, s) {
        if last.level {
          HighRunIsClear(xs, off + m, last.count, s);
        } else {
          LowIsClear(xs, s);
        }
      }
    }
  }

  lemma {:induction false} SliceOfExpand(xs: seq<bool>, off: nat, before: seq<Run>, last: Run)
    requires off + |Expand(before + [last])| <= |xs|
    requires xs[off..off + |Expand(before + [last])|] == Expand(before + [last])
    ensures |Expand(before + [last])| == |Expand(before)| + last.count
    ensures xs[off..off + |Expand(before)|] == Expand(before)
    ensures forall j :: off + |Expand(before)| <= j < off + |Expand(before)| + last.count ==> xs[j] == last.level
  {
    ExpandSnoc(before, last);
    var m, all := |Expand(before)|, xs[off..off + |Expand(before + [last])|];
    assert all[..m] == xs[off..off + m];
    forall j | off + m <= j < off + m + last.count ensures xs[j] == last.level {
      assert all[j - off] == Repeat(last.level, last.count)[j - off - m];
    }
  }

  // ---------------------------------------------------------------- what the receiver hears

  /** A transmission that starts after a low sample, with at least `tail` low samples behind it. */
  ghost predicate Heard(xs: seq<bool>, before: seq<bool>, frame: seq<Run>, tail: nat) {
    && before + Expand(frame) + Repeat(false, tail) <= xs
    && before != [] && !before[|before| - 1]
  }

  /** Where a train ends in the filtered stream. */
  function EndOf(before: seq<bool>, train: seq<Run>): nat {
    |before| + 7 + |Expand(train)|
  }

  lemma {:induction false} HeardAt(xs: seq<bool>, before: seq<bool>, frame: seq<Run>, tail: nat)
    requires Heard(xs, before, frame, tail)
    ensures var h, f := |before|, |Expand(frame)|;
            && h + f + tail <= |xs| && 1 <= h && !xs[h - 1]
            && xs[h..h + f] == Expand(frame)
            && (forall j :: h + f <= j < h + f + tail ==> !xs[j])
  {
    var h, f := |before|, |Expand(frame)|;
    var all := before + Expand(frame) + Repeat(false, tail);
    assert all == xs[..|all|];
    assert all[h - 1] == before[h - 1] && all[h..h + f] == Expand(frame);
    assert xs[..|all|][h..h + f] == xs[h..h + f];
    forall j | h + f <= j < h + f + tail ensures !xs[j] {
      assert all[j] == Repeat(false, tail)[j - h - f];
    }
  }

  /** From the last sample before the frame on, all that is heard is clear. */
  lemma {:induction false} HeardIsClear(xs: seq<bool>, before: seq<bool>, frame: seq<Run>, tail: nat)
    requires Heard(xs, before, frame, tail) && Sound(frame)
    ensures var h, f := |before|, |Expand(frame)|;
            h + f + tail <= |xs| && forall s :: h - 1 <= s < h + f + tail ==> Clear(xs, s)
  {
    var h, f := |before|, |Expand(frame)|;
    HeardAt(xs, before, frame, tail);
    RunsAreClear(xs, h, frame);
    forall s | h - 1 <= s < h + f + tail ensures Clear(xs, s) {
      if !(h <= s < h + f) {
        LowIsClear(xs, s);
      }
    }
  }

  /** Behind the filter: the same, seven samples later. */
  lemma {:induction false} FilteredFrame(xs: seq<bool>, stream: seq<bool>, before: seq<bool>, frame: seq<Run>)
    requires Heard(xs, before, frame, REQUIRED_SILENCE + 7) && Sound(frame) && IsFiltered(stream, xs)
    ensures var h, f := |before| + 7, |Expand(frame)|;
            && h + f + REQUIRED_SILENCE <= |stream| && !stream[h - 1]
            && stream[h..h + f] == Expand(frame)
            && forall j :: h + f <= j < h + f + REQUIRED_SILENCE ==> !stream[j]
  {
    var h, f := |before|, |Expand(frame)|;
    HeardIsClear(xs, before, frame, REQUIRED_SILENCE + 7);
    HeardAt(xs, before, frame, REQUIRED_SILENCE + 7);
    ClearPasses(xs, h - 1);
    ClearSlice(xs, stream, h, h + f);
    FilteredSilence(xs, stream, h + f, REQUIRED_SILENCE);
  }

  lemma {:induction false} FilteredSilence(xs: seq<bool>, stream: seq<bool>, end: nat, n: nat)
    requires IsFiltered(stream, xs) && end + n + 7 <= |xs|
    requires forall j :: end <= j < end + n ==> !xs[j]
    ensures forall j :: end + 7 <= j < end + 7 + n ==> !stream[j]
  {
    forall j | end + 7 <= j < end + 7 + n ensures !stream[j] {
      LowIsClear(xs, j - 7);
      ClearPasses(xs, j - 7);
    }
  }

  lemma {:induction false} ClearSlice(xs: seq<bool>, stream: seq<bool>, a: nat, b: nat)
    requires a <= b && b + 7 <= |xs| && IsFiltered(stream, xs)
    requires forall s :: a <= s < b ==> Clear(xs, s)
    ensures stream[a + 7..b + 7] == xs[a..b]
  {
    forall s | a <= s < b ensures stream[s + 7] == xs[s] {
      ClearPasses(xs, s);
    }
    ShiftedSlice(xs, stream, a, b);
  }

  lemma {:induction false} ShiftedSlice(xs: seq<bool>, stream: seq<bool>, a: nat, b: nat)
    requires a <= b && b + 7 <= |stream| && b <= |xs|
    requires forall s :: a <= s < b ==> stream[s + 7] == xs[s]
    ensures stream[a + 7..b + 7] == xs[a..b]
  {
    forall i | 0 <= i < b - a ensures stream[a + 7..b + 7][i] == xs[a..b][i] {
      assert stream[(a + i) + 7] == xs[a + i];
    }
  }

  /** What has come out of the filter when the silence behind a frame is over. */
  ghost predicate Filtered(stream: seq<bool>, h: nat, frame: seq<Run>, end: nat) {
    && 1 <= h <= end && end == h + |Expand(frame)| && end + REQUIRED_SILENCE <= |stream|
    && !stream[h - 1] && stream[h..end] == Expand(frame) && Sound(frame)
    && forall j :: end <= j < end + REQUIRED_SILENCE ==> !stream[j]
  }

  lemma {:induction false} HeardIsFiltered(stream: seq<bool>, xs: seq<bool>, before: seq<bool>, train: seq<Run>,
                                           end: nat)
    requires IsFiltered(stream, xs) && Sound(train)
    requires Heard(xs, before, train, REQUIRED_SILENCE + 7) && end == |before| + 7 + |Expand(train)|
    ensures Filtered(stream, |before| + 7, train, end)
  {
    FilteredFrame(xs, stream, before, train);
  }

  // ---------------------------------------------------------------- the runs and the silence

  /** The runs of the stream up to the end of the frame. */
  lemma {:induction false} FrameRuns(stream: seq<bool>, past: seq<Run>, h: nat, frame: seq<Run>)
    requires 1 <= h && Sound(frame) && h + |Expand(frame)| <= |stream|
    requires !stream[h - 1] && stream[h..h + |Expand(frame)|] == Expand(frame)
    requires past == Runs(stream[..h])
    ensures RunsUpTo(past + frame, stream, h + |Expand(frame)|)
  {
    PastRuns(stream, past, h);
    ExpandAppend(past, frame);
    JoinMaximal(past, frame);
    UpTo(past + frame, stream, h, Expand(frame));
  }

  lemma {:induction false} PastRuns(stream: seq<bool>, past: seq<Run>, h: nat)
    requires 1 <= h <= |stream| && past == Runs(stream[..h])
    ensures Maximal(past) && past != [] && past[|past| - 1].level == stream[h - 1] && Expand(past) == stream[..h]
  {
    RunsAreMaximal(stream[..h]);
    ExpandRuns(stream[..h]);
  }

  lemma {:induction false} UpTo(all: seq<Run>, stream: seq<bool>, h: nat, tail: seq<bool>)
    requires all != [] && Maximal(all) && h + |tail| <= |stream|
    requires Expand(all) == stream[..h] + tail && stream[h..h + |tail|] == tail
    ensures RunsUpTo(all, stream, h + |tail|)
  {
    SplitAt(stream, h, h + |tail|);
  }

  lemma {:induction false} SplitAt(stream: seq<bool>, h: nat, m: nat)
    requires h <= m <= |stream|
    ensures stream[..h] + stream[h..m] == stream[..m]
  {
  }

  lemma {:induction false} FilteredRuns(stream: seq<bool>, h: nat, frame: seq<Run>, end: nat, past: seq<Run>)
    requires Filtered(stream, h, frame, end) && past == Runs(stream[..h])
    ensures Maximal(past) && RunsUpTo(past + frame, stream, end)
  {
    FrameRuns(stream, past, h, frame);
    PastRuns(stream, past, h);
  }

  /** Silence after a high bit is counted from its first bit. */
  lemma {:induction false} SilenceCount(stream: seq<bool>, m: nat, n: nat)
    requires 1 <= m && m + n <= |stream| && stream[m - 1] && 1 <= n <= 255
    requires forall j :: m <= j < m + n ==> !stream[j]
    ensures ScanBits(stream[..m + n]).count0 == n
  {
    ScanSnoc(stream, m + n - 1);
    if n == 1 {
      ScanSnoc(stream, m - 1);
    } else {
      SilenceCount(stream, m, n - 1);
    }
  }

  /** Silence behind a train that ends high is counted to its end. */
  lemma {:induction false} FilteredCount(stream: seq<bool>, h: nat, train: seq<Run>, end: nat)
    requires Filtered(stream, h, train, end) && train != [] && train[|train| - 1].level
    ensures ScanBits(stream[..end + REQUIRED_SILENCE]).count0 == REQUIRED_SILENCE
  {
    EndsHigh(stream, h, train, end);
    SilenceCount(stream, end, REQUIRED_SILENCE);
  }

  lemma {:induction false} EndsHigh(stream: seq<bool>, h: nat, train: seq<Run>, end: nat)
    requires Filtered(stream, h, train, end) && train != [] && train[|train| - 1].level
    ensures end >= 1 && stream[end - 1]
  {
    var n := |train| - 1;
    MaximalLast(train);
    var part, all := stream[h..end], Expand(train);
    var last := Repeat(true, train[n].count);
    assert all == Expand(train[..n]) + last && last[|last| - 1];
    assert part[|part| - 1] == all[|all| - 1] == last[|last| - 1];
  }

  // ---------------------------------------------------------------- counting backwards

  lemma {:induction false} CountsPrefix(ring: seq<bv8>, pos: Pos, n: nat, k: nat)
    requires IsRing(ring) && IsPos(pos)
    ensures Counts(ring, pos, n) <= Counts(ring, pos, n + k)
    decreases n
  {
    if n > 0 {
      var (count, next) := CountAt(ring, pos);
      CountsPrefix(ring, next, n - 1, k);
      assert Counts(ring, pos, n) == [count] + Counts(ring, next, n - 1);
      assert Counts(ring, pos, n + k) == [count] + Counts(ring, next, n - 1 + k);
    }
  }

  /** The parser steps onto the last pulse and skips it. */
  lemma {:induction false} SkipsLast(ring: seq<bv8>, stream: seq<bool>, written: nat, runs: seq<Run>, last: Run,
                                     m: nat, n: nat)
    returns (rest: nat)
    requires Holds(ring, stream, written) && RunsUpTo(runs + [last], stream, m) && 1 <= m <= 8 * written
    requires last.count <= 255 && InWindow(runs, n, written)
    ensures RunsUpTo(runs, stream, rest) && 1 <= rest <= m
    ensures AfterLast(ring, PosOf(m)) == PosOf(rest - 1)
  {
    assert Pop(runs + [last]) == (last.count, runs);
    WindowOfAll(runs + [last], n, written);
    rest := OneBack(ring, stream, written, runs + [last], m, n + 1);
    PosAdvances(m - 1);
  }

  lemma {:induction false} WindowOfAll(runs: seq<Run>, n: nat, written: nat)
    requires runs != [] && InWindow(Pop(runs).1, n, written)
    ensures InWindow(runs, n + 1, written)
  {
    WindowStep(runs, n + 1);
  }

  /** If n samples of silence have been counted, the cursor points at the first of them. */
  ghost predicate CursorAt(p: nat, b: bv8, stream: seq<bool>, n: nat, end: nat)
    requires end + n <= |stream|
  {
    ScanBits(stream[..end + n]).count0 == n ==> Points(p, b, PosOf(end))
  }

  /** What the receiver's invariant says about its ring and its silence cursor. */
  lemma {:induction false} Refines(r: Receiver)
    requires r.Valid() && r.consumed >= REQUIRED_SILENCE
    ensures Holds(r.data[..], r.stream, r.written) && IsFiltered(r.stream, r.samples)
    ensures r.consumed <= 8 * r.written <= |r.stream|
    ensures CursorAt(r.startSilenceP, r.startSilenceBit, r.stream, REQUIRED_SILENCE, r.consumed - REQUIRED_SILENCE)
  {
  }
  // ---------------------------------------------------------------- calls until silence is reported

  /** How often silence is recognised behind `from`, up to n. */
  ghost function Silences(stream: seq<bool>, from: nat, n: nat): nat
    decreases n
  {
    if n <= from then 0 else Silences(stream, from, n - 1) + if Silent(stream, n) then 1 else 0
  }

  lemma {:induction false} SilencesSplit(stream: seq<bool>, a: nat, b: nat, c: nat)
    requires a <= b <= c
    ensures Silences(stream, a, c) == Silences(stream, a, b) + Silences(stream, b, c)
    decreases c
  {
    if b < c {
      SilencesSplit(stream, a, b, c - 1);
    }
  }

  lemma {:induction false} QuietHasNone(stream: seq<bool>, from: nat, n: nat)
    requires Quiet(stream, from, n)
    ensures Silences(stream, from, n) == 0
    decreases n
  {
    if from < n {
      assert !Silent(stream, n);
      QuietHasNone(stream, from, n - 1);
    }
  }

  /** A call that reports silence leaves one less to report. */
  lemma {:induction false} OneReported(stream: seq<bool>, from: nat, at: nat, goal: nat)
    requires from < at <= goal && Quiet(stream, from, at - 1) && Silent(stream, at)
    ensures Silences(stream, from, goal) == 1 + Silences(stream, at, goal)
  {
    QuietHasNone(stream, from, at - 1);
    SilencesSplit(stream, from, at, goal);
  }

  /** A position at which silence is recognised is not passed over. */
  lemma {:induction false} NotPassed(stream: seq<bool>, from: nat, at: nat, goal: nat)
    requires from < goal && from < at && Silent(stream, goal) && Quiet(stream, from, at - 1)
    ensures at <= goal
  {
  }

  /** Behind a train silence is recognised. */
  lemma {:induction false} SilentBehind(r: Receiver, before: seq<bool>, train: seq<Run>)
    requires r.Valid() && Heard(r.samples, before, train, REQUIRED_SILENCE + 7) && Sound(train)
    requires train != [] && train[|train| - 1].level
    ensures Silent(r.stream, EndOf(before, train) + REQUIRED_SILENCE)
  {
    HeardIsFiltered(r.stream, r.samples, before, train, EndOf(before, train));
    FilteredCount(r.stream, |before| + 7, train, EndOf(before, train));
  }

  /** The scan has not yet come to `goal`, and the ring is not full. */
  ghost predicate Ahead(r: Receiver, goal: nat)
    reads r
  {
    r.consumed < goal <= 8 * r.written && r.written < r.consumed / 8 + DATA_BYTES
  }

  /** One call of `rfReceiveTask` on the way to a position at which it will report silence. */
  method ListenOnce(r: Receiver, ghost goal: nat) returns (found: bool)
    requires r.Valid() && Ahead(r, goal) && Silent(r.stream, goal)
    modifies r`scanP, r`scanBit, r`startSilenceP, r`startSilenceBit
    modifies r`count0, r`count1, r`consumed, r`emitted
    ensures r.Valid() && found && old(r.consumed) < r.consumed <= goal
    ensures Silences(r.stream, old(r.consumed), goal) == 1 + Silences(r.stream, r.consumed, goal)
    ensures r.consumed < goal ==> Ahead(r, goal)
  {
    ghost var from, stream := r.consumed, r.stream;
    found := r.ReceiveTask();
    NotPassed(stream, from, r.consumed, goal);
    OneReported(stream, from, r.consumed, goal);
  }

  /** The silence at `goal` is reported by exactly the call whose number is that of the silences up to it. */
  method Listen(r: Receiver, calls: nat, ghost goal: nat) returns (found: bool)
    requires r.Valid() && Ahead(r, goal) && Silent(r.stream, goal) && calls == Silences(r.stream, r.consumed, goal)
    modifies r`scanP, r`scanBit, r`startSilenceP, r`startSilenceBit
    modifies r`count0, r`count1, r`consumed, r`emitted
    ensures r.Valid() && found && r.consumed == goal
  {
    ghost var stream := r.stream;
    found := false;
    var i := 0;
    while i < calls
      invariant 0 <= i <= calls && r.Valid() && r.stream == stream
      invariant r.consumed <= goal && calls - i == Silences(stream, r.consumed, goal)
      invariant r.consumed < goal ==> Ahead(r, goal)
      invariant r.consumed == goal ==> found
    {
      SomeLeft(stream, r.consumed, goal);
      found := ListenOnce(r, goal);
      i := i + 1;
    }
  }

  lemma {:induction false} SomeLeft(stream: seq<bool>, from: nat, goal: nat)
    requires Silent(stream, goal)
    ensures Silences(stream, from, goal) > 0 <==> from < goal
  {
  }
}
