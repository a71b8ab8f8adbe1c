/**
 Run-length coding of a sampled level: the common language of the transmitter, the forward scan,
 the backward scan and the stream decoders. A sequence of runs expands to levels; the maximal runs
 of a sequence of levels are the only runs that expand to it, each at least one long and next to
 runs of the other level. The lemmas say how expanding and coding go along with appending at the
 end, which is how samples arrive, and with cutting in two, which is how frames are taken out of
 a longer stream.
 */
module RunLength {

  datatype Run = Run(level: bool, count: nat)

  function Repeat(level: bool, n: nat): (r: seq<bool>)
    ensures |r| == n
    ensures forall i :: 0 <= i < n ==> r[i] == level
  {
    if n == 0 then [] else Repeat(level, n - 1) + [level]
  }

  function Expand(runs: seq<Run>): seq<bool> {
    if runs == [] then []
    else Expand(runs[..|runs| - 1]) + Repeat(runs[|runs| - 1].level, runs[|runs| - 1].count)
  }

  /** The maximal runs of `bits`, oldest first. */
  function Runs(bits: seq<bool>): seq<Run> {
    if bits == [] then [] else ExtendRuns(Runs(bits[..|bits| - 1]), bits[|bits| - 1])
  }

  /** One more sample: it lengthens the last run or starts a new one. */
  function ExtendRuns(runs: seq<Run>, b: bool): (r: seq<Run>)
    ensures r != [] && r[|r| - 1].level == b
  {
    var n := |runs|;
    if n > 0 && runs[n - 1].level == b
    then runs[..n - 1] + [Run(b, runs[n - 1].count + 1)]
    else runs + [Run(b, 1)]
  }

  /** Adjacent runs differ in level and no run is empty. */
  ghost predicate Maximal(runs: seq<Run>) {
    && (forall i :: 0 <= i < |runs| ==> runs[i].count >= 1)
    && (forall i :: 0 <= i < |runs| - 1 ==> Differs(runs, i))
  }

  predicate Differs(runs: seq<Run>, i: nat)
    requires i + 1 < |runs|
  {
    runs[i].level != runs[i + 1].level
  }

  lemma {:induction false} MaximalSnoc(runs: seq<Run>, r: Run)
    ensures Maximal(runs + [r]) <==>
            Maximal(runs) && r.count >= 1 && (runs != [] ==> runs[|runs| - 1].level != r.level)
  {
    var all := runs + [r];
    assert all[|runs|] == r;
    if Maximal(all) {
      forall i | 0 <= i < |runs| - 1 ensures Differs(runs, i) {
        assert Differs(all, i);
      }
      forall i | 0 <= i < |runs| ensures runs[i].count >= 1 {
        assert all[i].count >= 1;
      }
      assert runs != [] ==> Differs(all, |runs| - 1);
    }
    if Maximal(runs) && r.count >= 1 && (runs != [] ==> runs[|runs| - 1].level != r.level) {
      forall i | 0 <= i < |all| - 1 ensures Differs(all, i) {
        assert i < |runs| - 1 ==> Differs(runs, i);
      }
    }
  }

  /** The same, taking runs apart. */
  lemma {:induction false} MaximalLast(runs: seq<Run>)
    requires runs != []
    ensures var n := |runs| - 1;
            Maximal(runs) <==>
            Maximal(runs[..n]) && runs[n].count >= 1 && (n > 0 ==> runs[n - 1].level != runs[n].level)
  {
    var n := |runs| - 1;
    MaximalSnoc(runs[..n], runs[n]);
    assert runs == runs[..n] + [runs[n]];
  }

  lemma {:induction false} JoinMaximal(a: seq<Run>, b: seq<Run>)
    requires a != [] && Maximal(a) && Maximal(b) && (b != [] ==> b[0].level != a[|a| - 1].level)
    ensures Maximal(a + b)
  {
    if b == [] {
      assert a + b == a;
    } else {
      var n := |b| - 1;
      MaximalLast(b);
      JoinMaximal(a, b[..n]);
      MaximalSnoc(a + b[..n], b[n]);
      assert a + b == (a + b[..n]) + [b[n]];
    }
  }

  lemma {:induction false} MaximalExtend(runs: seq<Run>, b: bool)
    requires Maximal(runs)
    ensures Maximal(ExtendRuns(runs, b))
  {
    var n := |runs| - 1;
    if n >= 0 && runs[n].level == b {
      MaximalLast(runs);
      MaximalSnoc(runs[..n], Run(b, runs[n].count + 1));
    } else {
      MaximalSnoc(runs, Run(b, 1));
    }
  }

  lemma {:induction false} RunsAreMaximal(bits: seq<bool>)
    ensures Maximal(Runs(bits))
    ensures bits != [] ==> Runs(bits) != [] && Runs(bits)[|Runs(bits)| - 1].level == bits[|bits| - 1]
  {
    if bits != [] {
      var prefix := bits[..|bits| - 1];
      RunsAreMaximal(prefix);
      MaximalExtend(Runs(prefix), bits[|bits| - 1]);
    }
  }

  lemma {:induction false} RunsSnoc(bits: seq<bool>, b: bool)
    ensures Runs(bits + [b]) == ExtendRuns(Runs(bits), b)
  {
    assert (bits + [b])[..|bits + [b]| - 1] == bits;
  }

  lemma {:induction false} ExpandSnoc(runs: seq<Run>, r: Run)
    ensures Expand(runs + [r]) == Expand(runs) + Repeat(r.level, r.count)
  {
    assert (runs + [r])[..|runs + [r]| - 1] == runs;
  }

  lemma {:induction false} ExpandAppend(a: seq<Run>, b: seq<Run>)
    ensures Expand(a + b) == Expand(a) + Expand(b)
  {
    if b == [] {
      assert a + b == a;
    } else {
      var n := |b| - 1;
      ExpandAppend(a, b[..n]);
      assert a + b == (a + b[..n]) + [b[n]];
      ExpandSnoc(a + b[..n], b[n]);
    }
  }

  lemma {:induction false} ExpandRunsSnoc(prefix: seq<bool>, last: bool)
    requires Expand(Runs(prefix)) == prefix
    ensures Expand(Runs(prefix + [last])) == prefix + [last]
  {
    RunsSnoc(prefix, last);
    ExpandExtend(Runs(prefix), last);
  }

  lemma {:induction false} ExpandRunsOfPrefix(bits: seq<bool>, n: nat)
    requires n <= |bits|
    ensures Expand(Runs(bits[..n])) == bits[..n]
  {
    if n > 0 {
      ExpandRunsOfPrefix(bits, n - 1);
      ExpandRunsSnoc(bits[..n - 1], bits[n - 1]);
      TakeSnoc(bits, n - 1);
    }
  }

  lemma {:induction false} TakeSnoc<T>(s: seq<T>, n: nat)
    requires n < |s|
    ensures s[..n + 1] == s[..n] + [s[n]]
  {
  }

  /** Expansion undoes run-length coding. */
  lemma {:induction false} ExpandRuns(bits: seq<bool>)
    ensures Expand(Runs(bits)) == bits
  {
    ExpandRunsOfPrefix(bits, |bits|);
    assert bits[..|bits|] == bits;
  }

  lemma {:induction false} ExpandExtend(runs: seq<Run>, b: bool)
    ensures Expand(ExtendRuns(runs, b)) == Expand(runs) + [b]
  {
    var n := |runs| - 1;
    if n >= 0 && runs[n].level == b {
      ExpandSnoc(runs[..n], Run(b, runs[n].count + 1));
      assert Repeat(b, runs[n].count + 1) == Repeat(b, runs[n].count) + [b];
    } else {
      ExpandSnoc(runs, Run(b, 1));
      assert Repeat(b, 1) == [b];
    }
  }

  /** Run-length coding undoes expansion of maximal runs. */
  lemma {:induction false} RunsExpand(runs: seq<Run>)
    requires Maximal(runs)
    ensures Runs(Expand(runs)) == runs
  {
    if runs != [] {
      var before, last := runs[..|runs| - 1], runs[|runs| - 1];
      MaximalLast(runs);
      RunsExpand(before);
      RunsExpandSnoc(before, last);
      assert before + [last] == runs;
    }
  }

  lemma {:induction false} RunsExpandSnoc(runs: seq<Run>, r: Run)
    requires Runs(Expand(runs)) == runs && r.count >= 1
    requires runs != [] ==> runs[|runs| - 1].level != r.level
    ensures Runs(Expand(runs + [r])) == runs + [r]
  {
    ExpandSnoc(runs, r);
    RunsRepeat(Expand(runs), runs, r.level, r.count);
  }

  lemma {:induction false} Snoc<T>(a: seq<T>, b: seq<T>)
    requires b != []
    ensures a + b == (a + b[..|b| - 1]) + [b[|b| - 1]]
  {
  }

  lemma {:induction false} RunsRepeatStep(bits: seq<bool>, level: bool, n: nat)
    requires n >= 1
    ensures Runs(bits + Repeat(level, n)) == ExtendRuns(Runs(bits + Repeat(level, n - 1)), level)
  {
    Snoc(bits, Repeat(level, n));
    RunsSnoc(bits + Repeat(level, n - 1), level);
  }

  lemma {:induction false} ExtendSame(runs: seq<Run>, level: bool, n: nat)
    ensures ExtendRuns(runs + [Run(level, n)], level) == runs + [Run(level, n + 1)]
  {
    assert (runs + [Run(level, n)])[..|runs|] == runs;
  }

  lemma {:induction false} RunsRepeatOnce(bits: seq<bool>, runs: seq<Run>, level: bool)
    requires Runs(bits) == runs && (runs != [] ==> runs[|runs| - 1].level != level)
    ensures Runs(bits + Repeat(level, 1)) == runs + [Run(level, 1)]
  {
    RunsSnoc(bits, level);
    assert Repeat(level, 1) == [level];
  }

  lemma {:induction false} RunsRepeatMore(bits: seq<bool>, runs: seq<Run>, level: bool, n: nat)
    requires Runs(bits + Repeat(level, n)) == runs + [Run(level, n)]
    ensures Runs(bits + Repeat(level, n + 1)) == runs + [Run(level, n + 1)]
  {
    RunsRepeatStep(bits, level, n + 1);
    ExtendSame(runs, level, n);
  }

  lemma {:induction false} RunsRepeat(bits: seq<bool>, runs: seq<Run>, level: bool, n: nat)
    requires n >= 1
    requires Runs(bits) == runs && (runs != [] ==> runs[|runs| - 1].level != level)
    ensures Runs(bits + Repeat(level, n)) == runs + [Run(level, n)]
  {
    if n == 1 {
      RunsRepeatOnce(bits, runs, level);
    } else {
      RunsRepeat(bits, runs, level, n - 1);
      RunsRepeatMore(bits, runs, level, n - 1);
    }
  }

  /** Maximal runs that expand to the bits are the runs of the bits. */
  lemma {:induction false} RunsAre(bits: seq<bool>, runs: seq<Run>)
    requires Maximal(runs) && Expand(runs) == bits
    ensures Runs(bits) == runs
  {
    RunsExpand(runs);
  }

  lemma {:induction false} ExpandOne(r: Run)
    ensures Expand([r]) == Repeat(r.level, r.count)
  {
    assert [r][..0] == [];
  }

  lemma {:induction false} RepeatSmall(level: bool)
    ensures Repeat(level, 1) == [level] && Repeat(level, 2) == [level, level]
  {
  }
}
