/**
 The forward scan of `rfReceiveTask` (rf/receive.c): the two run counters and the pulses
 handed to the stream decoders, as a fold over the bits taken from the ring.
 */
module ForwardScan {
  import opened Pulses
  import opened RunLength

  /** count0, count1 (8-bit) and the pulses handed on so far. */
  datatype Scan = Scan(count0: nat, count1: nat, emitted: seq<Run>)

  function Flush(emitted: seq<Run>, level: bool, count: nat): seq<Run> {
    if count > 0 then emitted + [RunLength.Run(level, count)] else emitted
  }

  function ScanBit(s: Scan, b: bool): Scan {
    if b then Scan(0, Bump(s.count1), Flush(s.emitted, false, s.count0))
    else Scan(Bump(s.count0), 0, Flush(s.emitted, true, s.count1))
  }

  function ScanBits(bits: seq<bool>): Scan {
    if bits == [] then Scan(0, 0, []) else ScanBit(ScanBits(bits[..|bits| - 1]), bits[|bits| - 1])
  }

  /** The pulses handed on, followed by the one being counted. */
  function WithCurrent(s: Scan): seq<Run> {
    Flush(Flush(s.emitted, false, s.count0), true, s.count1)
  }

  /** Every run fits the counters. */
  predicate Countable(runs: seq<Run>) {
    forall i :: 0 <= i < |runs| ==> runs[i].count < 256
  }

  lemma {:induction false} ScanSnoc(bits: seq<bool>, n: nat)
    requires n < |bits|
    ensures ScanBits(bits[..n + 1]) == ScanBit(ScanBits(bits[..n]), bits[n])
    ensures Runs(bits[..n + 1]) == ExtendRuns(Runs(bits[..n]), bits[n])
  {
    assert bits[..n + 1][..n] == bits[..n];
  }

  /** A run that has reached 256 leads to a lasting mismatch; until then nothing is lost. */
  ghost predicate Faithful(s: Scan, runs: seq<Run>) {
    && WithCurrent(s) == runs
    && (s.count0 == 0 || s.count1 == 0)
    && (runs != [] ==> s.count0 + s.count1 > 0)
    && s.count0 < 256 && s.count1 < 256
  }

  lemma {:induction false} FaithfulStep(s: Scan, runs: seq<Run>, b: bool)
    requires Faithful(s, runs) && Countable(ExtendRuns(runs, b))
    ensures Faithful(ScanBit(s, b), ExtendRuns(runs, b))
  {
    var next := ExtendRuns(runs, b);
    assert next[|next| - 1].count < 256;
    var before := s.emitted;
    if s.count0 > 0 {
      assert runs == before + [RunLength.Run(false, s.count0)];
      assert runs[..|runs| - 1] == before;
    } else if s.count1 > 0 {
      assert runs == before + [RunLength.Run(true, s.count1)];
      assert runs[..|runs| - 1] == before;
    } else {
      assert runs == before;
    }
  }

  lemma {:induction false} ExtendCountable(runs: seq<Run>, b: bool)
    requires Countable(ExtendRuns(runs, b))
    ensures Countable(runs)
  {
    var next := ExtendRuns(runs, b);
    forall i | 0 <= i < |runs| ensures runs[i].count < 256 {
      assert next[i].count < 256;
    }
  }

  lemma {:induction false} ScanIsFaithful(bits: seq<bool>)
    requires Countable(Runs(bits))
    ensures Faithful(ScanBits(bits), Runs(bits))
  {
    if bits != [] {
      var n := |bits| - 1;
      ExtendCountable(Runs(bits[..n]), bits[n]);
      ScanIsFaithful(bits[..n]);
      FaithfulStep(ScanBits(bits[..n]), Runs(bits[..n]), bits[n]);
    }
  }

  // ---------------------------------------------------------------- counting what is lost

  function Total(runs: seq<Run>): nat {
    if runs == [] then 0 else Total(runs[..|runs| - 1]) + runs[|runs| - 1].count
  }

  lemma {:induction false} TotalSnoc(runs: seq<Run>, r: Run)
    ensures Total(runs + [r]) == Total(runs) + r.count
  {
    assert (runs + [r])[..|runs|] == runs;
  }

  lemma {:induction false} TotalIsLength(runs: seq<Run>)
    ensures |Expand(runs)| == Total(runs)
  {
    if runs != [] {
      TotalIsLength(runs[..|runs| - 1]);
    }
  }

  /** Samples accounted for by the scan. */
  function Seen(s: Scan): nat {
    Total(s.emitted) + s.count0 + s.count1
  }

  lemma {:induction false} SeenIsTotal(s: Scan)
    ensures Total(WithCurrent(s)) == Seen(s)
  {
    TotalSnoc(s.emitted, RunLength.Run(false, s.count0));
    TotalSnoc(Flush(s.emitted, false, s.count0), RunLength.Run(true, s.count1));
  }

  lemma {:induction false} SeenStep(s: Scan, b: bool)
    requires s.count0 == 0 || s.count1 == 0
    requires s.count0 < 256 && s.count1 < 256
    ensures var next := ScanBit(s, b);
            && Seen(next) == (if (if b then s.count1 else s.count0) == 255 then Seen(s) - 255 else Seen(s) + 1)
            && (next.count0 == 0 || next.count1 == 0) && next.count0 < 256 && next.count1 < 256
  {
    if b {
      TotalSnoc(s.emitted, RunLength.Run(false, s.count0));
    } else {
      TotalSnoc(s.emitted, RunLength.Run(true, s.count1));
    }
  }

  ghost predicate Bounded(s: Scan, n: nat) {
    Seen(s) <= n && (s.count0 == 0 || s.count1 == 0) && s.count0 < 256 && s.count1 < 256
  }

  lemma {:induction false} BoundedStep(s: Scan, b: bool, n: nat)
    requires Bounded(s, n)
    ensures Bounded(ScanBit(s, b), n + 1)
  {
    SeenStep(s, b);
  }

  lemma {:induction false} CountsFitBytes(bits: seq<bool>)
    ensures Bounded(ScanBits(bits), |bits|)
  {
    if bits != [] {
      var n := |bits| - 1;
      CountsFitBytes(bits[..n]);
      BoundedStep(ScanBits(bits[..n]), bits[n], n);
    }
  }

  /** A counter that wraps forgets 256 samples, for good. */
  lemma {:induction false} AllSeenIsCountable(bits: seq<bool>)
    requires Seen(ScanBits(bits)) == |bits|
    ensures Countable(Runs(bits))
  {
    if bits != [] {
      var n := |bits| - 1;
      NothingWrapped(ScanBits(bits[..n]), bits[n], n, bits[..n]);
      AllSeenIsCountable(bits[..n]);
      ScanIsFaithful(bits[..n]);
      LastCountable(ScanBits(bits[..n]), Runs(bits[..n]), bits[n]);
    }
  }

  lemma {:induction false} NothingWrapped(s: Scan, b: bool, n: nat, bits: seq<bool>)
    requires s == ScanBits(bits) && |bits| == n && Seen(ScanBit(s, b)) == n + 1
    ensures Seen(s) == n && (if b then s.count1 else s.count0) != 255
  {
    CountsFitBytes(bits);
    SeenStep(s, b);
  }

  lemma {:induction false} LastCountable(s: Scan, runs: seq<Run>, b: bool)
    requires Faithful(s, runs) && Countable(runs) && (if b then s.count1 else s.count0) != 255
    ensures Countable(ExtendRuns(runs, b))
  {
    if s.count0 > 0 {
      assert runs == s.emitted + [RunLength.Run(false, s.count0)];
    } else if s.count1 > 0 {
      assert runs == s.emitted + [RunLength.Run(true, s.count1)];
    }
  }

  /**
   For every bit sequence, however the scan is split into calls: the pulses handed on and the
   one being counted expand to exactly the bits taken, if and only if no run exceeds 255.
   They are then the maximal runs.
   */
  lemma {:induction false} ScanIsRunLength(bits: seq<bool>)
    ensures Expand(WithCurrent(ScanBits(bits))) == bits <==> Countable(Runs(bits))
    ensures Countable(Runs(bits)) ==> WithCurrent(ScanBits(bits)) == Runs(bits)
  {
    var s := ScanBits(bits);
    if Countable(Runs(bits)) {
      ScanIsFaithful(bits);
      ExpandRuns(bits);
    } else {
      SeenIsTotal(s);
      TotalIsLength(WithCurrent(s));
      if Seen(s) == |bits| {
        AllSeenIsCountable(bits);
      }
    }
  }
}
