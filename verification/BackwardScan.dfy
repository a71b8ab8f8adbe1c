/**
 The two readers of rf/receive.c agree: counting backwards over the ring gives the runs of
 the bit stream in reverse.
 */
module BackwardScan {
  import opened RunLength
  import opened ForwardScan
  import opened Ring

  /**
   What `rfCountSimilar` makes of the last run: its length, and the run is gone; but a run
   beyond 255 gives 0 and only 255 samples of it are gone.
   */
  function Pop(runs: seq<Run>): (r: (nat, seq<Run>))
    requires runs != []
  {
    var last := runs[|runs| - 1];
    if last.count <= 255 then (last.count, runs[..|runs| - 1])
    else (0, runs[..|runs| - 1] + [RunLength.Run(last.level, last.count - 255)])
  }

  /** The first n results of counting backwards from the end of the runs. */
  function BackCounts(runs: seq<Run>, n: nat): seq<nat>
    decreases n, |runs|
  {
    if n == 0 || runs == [] then [] else [Pop(runs).0] + BackCounts(Pop(runs).1, n - 1)
  }

  function Remaining(runs: seq<Run>, n: nat): seq<Run>
    decreases n, |runs|
  {
    if n == 0 || runs == [] then runs else Remaining(Pop(runs).1, n - 1)
  }

  /** The window of n counts ends inside the ring, on a run that has a predecessor in it. */
  ghost predicate InWindow(runs: seq<Run>, n: nat, written: nat) {
    Remaining(runs, n) != [] && Total(Remaining(runs, n)) + 8 * DATA_BYTES > 8 * written
  }

  function Cut(length: nat): nat {
    if length <= 255 then length else 255
  }

  /**
   A run of `length` bits that ends at bit e, c of them counted. It starts after a different
   bit, or it is the first one; a first one beyond 255 overflows before its beginning is reached.
   */
  lemma {:induction false} CountOnRun(ring: seq<bv8>, stream: seq<bool>, written: nat, e: nat, length: nat, c: nat)
    requires Holds(ring, stream, written) && 1 <= length <= e + 1 && e < 8 * written
    requires forall j :: e - length < j <= e ==> stream[j] == stream[e]
    requires if length <= e then stream[e - length] != stream[e] else length > 255
    requires c < Cut(length) <= e && 8 * written <= e - Cut(length) + 8 * DATA_BYTES
    ensures CountOn(ring, PosOf(e - c), stream[e], c) == (if length <= 255 then length else 0, PosOf(e - Cut(length)))
    decreases 255 - c
  {
    PosAdvances(e - c - 1);
    HeldBit(ring, stream, written, e - c - 1);
    if c + 1 < Cut(length) {
      CountOnRun(ring, stream, written, e, length, c + 1);
    }
  }

  /** The maximal runs of the first m bits of the stream. */
  ghost predicate RunsUpTo(runs: seq<Run>, stream: seq<bool>, m: nat) {
    Maximal(runs) && runs != [] && m <= |stream| && Expand(runs) == stream[..m]
  }

  /** How far one count moves the cursor back. */
  function Moved(run: Run): nat {
    Cut(run.count)
  }

  lemma {:induction false} SplitLast(runs: seq<Run>, stream: seq<bool>, m: nat)
    requires RunsUpTo(runs, stream, m)
    ensures var n := |runs| - 1;
            && 1 <= runs[n].count <= m && Maximal(runs[..n])
            && (n > 0 ==> runs[n - 1].level != runs[n].level)
            && Expand(runs[..n]) == stream[..m - runs[n].count]
            && (forall j :: m - runs[n].count <= j < m ==> stream[j] == runs[n].level)
  {
    var n := |runs| - 1;
    MaximalLast(runs);
    var before, last := Expand(runs[..n]), Repeat(runs[n].level, runs[n].count);
    assert stream[..m] == before + last;
    forall j | m - runs[n].count <= j < m ensures stream[j] == runs[n].level {
      assert stream[..m][j] == last[j - |before|];
    }
    assert stream[..m][..|before|] == stream[..|before|];
  }

  /** The last run starts after a different bit, or fills the whole stream. */
  lemma {:induction false} LastRun(runs: seq<Run>, stream: seq<bool>, m: nat)
    requires RunsUpTo(runs, stream, m)
    ensures var length := runs[|runs| - 1].count;
            && 1 <= length <= m
            && (forall j :: m - length <= j < m ==> stream[j] == stream[m - 1])
            && (|runs| == 1 ==> length == m)
            && (|runs| > 1 ==> length < m && stream[m - length - 1] != stream[m - 1])
  {
    var n := |runs| - 1;
    SplitLast(runs, stream, m);
    var before := runs[..n];
    if n > 0 {
      SplitLast(before, stream, m - runs[n].count);
    } else {
      assert before == [];
    }
  }

  /** Part of the last run taken away. */
  lemma {:induction false} ShortenLast(runs: seq<Run>, stream: seq<bool>, m: nat, d: nat)
    requires RunsUpTo(runs, stream, m) && d < runs[|runs| - 1].count
    ensures var n := |runs| - 1;
            d < m && RunsUpTo(runs[..n] + [RunLength.Run(runs[n].level, runs[n].count - d)], stream, m - d)
  {
    var n := |runs| - 1;
    var last := runs[n];
    var short := RunLength.Run(last.level, last.count - d);
    SplitLast(runs, stream, m);
    MaximalSnoc(runs[..n], short);
    ExpandSnoc(runs[..n], short);
    TakeLevel(stream, m - last.count, m, last.level, m - d);
  }

  lemma {:induction false} TakeLevel(stream: seq<bool>, from: nat, to: nat, level: bool, m: nat)
    requires from <= m <= to <= |stream| && forall j :: from <= j < to ==> stream[j] == level
    ensures stream[..m] == stream[..from] + Repeat(level, m - from)
  {
  }

  lemma {:induction false} PopUpTo(runs: seq<Run>, stream: seq<bool>, m: nat)
    requires RunsUpTo(runs, stream, m) && Pop(runs).1 != []
    ensures m > Moved(runs[|runs| - 1]) && RunsUpTo(Pop(runs).1, stream, m - Moved(runs[|runs| - 1]))
  {
    var n := |runs| - 1;
    if runs[n].count <= 255 {
      SplitLast(runs, stream, m);
      SplitLast(runs[..n], stream, m - runs[n].count);
    } else {
      ShortenLast(runs, stream, m, 255);
    }
  }

  lemma {:induction false} WindowStep(runs: seq<Run>, n: nat)
    requires n > 0 && runs != []
    ensures Remaining(runs, n) == Remaining(Pop(runs).1, n - 1)
    ensures BackCounts(runs, n) == [Pop(runs).0] + BackCounts(Pop(runs).1, n - 1)
  {
  }

  lemma {:induction false} PopTotal(runs: seq<Run>)
    requires runs != []
    ensures Total(Pop(runs).1) <= Total(runs)
  {
    var n := |runs| - 1;
    if runs[n].count > 255 {
      TotalSnoc(runs[..n], RunLength.Run(runs[n].level, runs[n].count - 255));
    }
  }

  lemma {:induction false} RemainingShrinks(runs: seq<Run>, n: nat)
    ensures Total(Remaining(runs, n)) <= Total(runs)
    ensures Remaining(runs, n) != [] ==> runs != []
    decreases n
  {
    if n > 0 && runs != [] {
      var rest := Pop(runs).1;
      WindowStep(runs, n);
      PopTotal(runs);
      RemainingShrinks(rest, n - 1);
    }
  }

  /** One `rfCountSimilar` from the last bit of the runs. */
  lemma {:induction false} CountLastRun(ring: seq<bv8>, stream: seq<bool>, written: nat, runs: seq<Run>, m: nat)
    requires Holds(ring, stream, written) && RunsUpTo(runs, stream, m) && m <= 8 * written
    requires var moved := Moved(runs[|runs| - 1]);
             moved < m && 8 * written < m - moved + 8 * DATA_BYTES
    requires Pop(runs).1 != []
    ensures CountAt(ring, PosOf(m - 1)) == (Pop(runs).0, PosOf(m - Moved(runs[|runs| - 1]) - 1))
  {
    var length := runs[|runs| - 1].count;
    LastRun(runs, stream, m);
    assert length > m - 1 ==> length > 255;
    CountFrom(ring, stream, written, m - 1, length);
    assert Pop(runs).0 == if length <= 255 then length else 0;
  }

  lemma {:induction false} CountFrom(ring: seq<bv8>, stream: seq<bool>, written: nat, e: nat, length: nat)
    requires Holds(ring, stream, written) && 1 <= length <= e + 1 && e < 8 * written
    requires forall j :: e - length < j <= e ==> stream[j] == stream[e]
    requires if length <= e then stream[e - length] != stream[e] else length > 255
    requires Cut(length) <= e && 8 * written <= e - Cut(length) + 8 * DATA_BYTES
    ensures CountAt(ring, PosOf(e)) == (if length <= 255 then length else 0, PosOf(e - Cut(length)))
  {
    HeldBit(ring, stream, written, e);
    CountOnRun(ring, stream, written, e, length, 0);
  }

  /** The first count, and what remains to be counted. */
  lemma {:induction false} OneBack(ring: seq<bv8>, stream: seq<bool>, written: nat, runs: seq<Run>, m: nat, n: nat)
    returns (rest: nat)
    requires Holds(ring, stream, written) && RunsUpTo(runs, stream, m) && m <= 8 * written
    requires InWindow(runs, n, written) && n > 0
    ensures RunsUpTo(Pop(runs).1, stream, rest) && 1 <= rest <= m && InWindow(Pop(runs).1, n - 1, written)
    ensures CountAt(ring, PosOf(m - 1)) == (Pop(runs).0, PosOf(rest - 1))
  {
    var later := Pop(runs).1;
    WindowStep(runs, n);
    RemainingShrinks(later, n - 1);
    PopUpTo(runs, stream, m);
    rest := m - Moved(runs[|runs| - 1]);
    TotalIsLength(later);
    CountLastRun(ring, stream, written, runs, m);
  }

  /**
   The two readers agree. Let the runs be those of any prefix of the stream. Counting backwards
   from its last bit returns their lengths from the last to the first, as long as the window
   lies in the ring.
   */
  lemma {:induction false} BackwardIsReverse(ring: seq<bv8>, stream: seq<bool>, written: nat, runs: seq<Run>, m: nat,
                                             n: nat)
    requires Holds(ring, stream, written) && RunsUpTo(runs, stream, m) && 1 <= m <= 8 * written
    requires InWindow(runs, n, written)
    ensures Counts(ring, PosOf(m - 1), n) == BackCounts(runs, n)
    decreases n
  {
    if n > 0 {
      var rest := OneBack(ring, stream, written, runs, m, n);
      BackwardIsReverse(ring, stream, written, Pop(runs).1, rest, n - 1);
    }
  }

  /** Counts that are the lengths of the last runs, from the last one backwards. */
  predicate LengthsBackward(counts: seq<nat>, runs: seq<Run>) {
    |counts| <= |runs| && forall j :: 0 <= j < |counts| ==> counts[j] == runs[|runs| - 1 - j].count
  }

  /** Without runs beyond 255 these are simply the lengths in reverse. */
  lemma {:induction false} BackCountsAreLengths(runs: seq<Run>, n: nat)
    requires n <= |runs| && forall i :: |runs| - n <= i < |runs| ==> runs[i].count <= 255
    ensures |BackCounts(runs, n)| == n && LengthsBackward(BackCounts(runs, n), runs)
    ensures Remaining(runs, n) == runs[..|runs| - n]
    decreases n
  {
    if n > 0 {
      var rest := runs[..|runs| - 1];
      BackCountsAreLengths(rest, n - 1);
      WindowStep(runs, n);
      assert rest[..|rest| - (n - 1)] == runs[..|runs| - n];
    }
  }

  /** Runs up to 255 at the end use up one count each. */
  lemma {:induction false} ShortRuns(base: seq<Run>, last: seq<Run>, n: nat)
    requires forall i :: 0 <= i < |last| ==> last[i].count <= 255
    ensures Remaining(base + last, |last| + n) == Remaining(base, n)
    ensures var c := BackCounts(base + last, |last| + n);
            |c| >= |last| && c[|last|..] == BackCounts(base, n)
  {
    var k := |last| - 1;
    if k < 0 {
      assert base + last == base;
    } else {
      var all := base + last;
      assert all[..|all| - 1] == base + last[..k];
      ShortRuns(base, last[..k], n);
      WindowStep(all, |last| + n);
    }
  }

  /**
   The forward and the backward reader on the same bits: when silence has been found, the
   cursor kept at its first bit, moved back once, counts backwards exactly the pulses that
   were handed to the stream decoders.
   */
  lemma {:induction false} ReadersAgree(ring: seq<bv8>, stream: seq<bool>, written: nat, consumed: nat, s: Scan, n: nat)
    requires Holds(ring, stream, written) && consumed <= 8 * written
    requires Countable(Runs(stream[..consumed])) && s == ScanBits(stream[..consumed])
    requires s.count0 > 0 && InWindow(s.emitted, n, written)
    ensures s.count0 < consumed
    ensures LengthsBackward(Counts(ring, Retreat(PosOf(consumed - s.count0)), n), s.emitted)
  {
    EmittedUpTo(stream, consumed, s);
    PulsesBackward(ring, stream, written, s.emitted, consumed - s.count0, n);
  }

  lemma {:induction false} EmittedUpTo(stream: seq<bool>, n: nat, s: Scan)
    requires n <= |stream| && Countable(Runs(stream[..n])) && s == ScanBits(stream[..n]) && s.count0 > 0
    ensures s.count0 <= n && Maximal(s.emitted) && Countable(s.emitted)
    ensures Expand(s.emitted) == stream[..n - s.count0]
  {
    EmittedRuns(stream[..n]);
    TakeTake(stream, n - s.count0, n);
  }

  lemma {:induction false} TakeTake<T>(s: seq<T>, m: nat, n: nat)
    requires m <= n <= |s|
    ensures s[..n][..m] == s[..m]
  {
  }

  lemma {:induction false} NotAtStart(runs: seq<Run>, stream: seq<bool>, m: nat)
    requires RunsUpTo(runs, stream, m)
    ensures m >= 1
  {
    LastRun(runs, stream, m);
  }

  lemma {:induction false} PulsesBackward(ring: seq<bv8>, stream: seq<bool>, written: nat, pulses: seq<Run>, m: nat,
                                          n: nat)
    requires Holds(ring, stream, written) && Countable(pulses)
    requires Maximal(pulses) && m <= 8 * written && Expand(pulses) == stream[..m]
    requires InWindow(pulses, n, written)
    ensures m >= 1 && LengthsBackward(Counts(ring, Retreat(PosOf(m)), n), pulses)
  {
    EnoughRuns(pulses, n);
    NotAtStart(pulses, stream, m);
    OneBefore(m);
    PulsesCounted(ring, stream, written, pulses, m, n);
  }

  lemma {:induction false} PulsesCounted(ring: seq<bv8>, stream: seq<bool>, written: nat, pulses: seq<Run>, m: nat,
                                         n: nat)
    requires Holds(ring, stream, written) && Countable(pulses) && n <= |pulses|
    requires RunsUpTo(pulses, stream, m) && 1 <= m <= 8 * written && InWindow(pulses, n, written)
    ensures LengthsBackward(Counts(ring, PosOf(m - 1), n), pulses)
  {
    BackwardIsReverse(ring, stream, written, pulses, m, n);
    BackCountsAreLengths(pulses, n);
  }

  /** While silence is counted, the pulses handed on expand to the bits before the silence. */
  lemma {:induction false} EmittedRuns(bits: seq<bool>)
    requires Countable(Runs(bits)) && ScanBits(bits).count0 > 0
    ensures var s := ScanBits(bits);
            && Maximal(s.emitted) && Countable(s.emitted)
            && s.count0 < |bits| + 1 && Expand(s.emitted) == bits[..|bits| - s.count0]
  {
    var s, runs := ScanBits(bits), Runs(bits);
    ScanIsRunLength(bits);
    RunsAreMaximal(bits);
    CountsFitBytes(bits);
    ExpandRuns(bits);
    WithSilence(s, runs, bits);
  }

  lemma {:induction false} WithSilence(s: Scan, runs: seq<Run>, bits: seq<bool>)
    requires s.count0 > 0 && s.count1 == 0 && runs == WithCurrent(s)
    requires Maximal(runs) && Countable(runs) && Expand(runs) == bits
    ensures Maximal(s.emitted) && Countable(s.emitted)
    ensures s.count0 < |bits| + 1 && Expand(s.emitted) == bits[..|bits| - s.count0]
  {
    var silence := RunLength.Run(false, s.count0);
    assert runs == s.emitted + [silence];
    ExpandSnoc(s.emitted, silence);
    MaximalSnoc(s.emitted, silence);
    EmittedCountable(s.emitted, runs);
  }

  lemma {:induction false} EmittedCountable(runs: seq<Run>, all: seq<Run>)
    requires runs <= all && Countable(all)
    ensures Countable(runs)
  {
  }

  /** Each count of a run up to 255 uses the run up. */
  lemma {:induction false} EnoughRuns(runs: seq<Run>, n: nat)
    requires Countable(runs) && Remaining(runs, n) != []
    ensures n < |runs|
    decreases n
  {
    if n > 0 {
      assert runs != [];
      WindowStep(runs, n);
      EnoughRuns(runs[..|runs| - 1], n - 1);
    }
  }
}
