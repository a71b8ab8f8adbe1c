/**
 The glitch filter of `rfReceiveUpdate` (rf/receive.c), as a statement about the whole
 sample history: which samples it lets through.
 */
module GlitchFilter {
  import opened Pulses

  const TRIGGER_LEVEL := 3

  /** How long the input has been high. */
  function TrailingHigh(xs: seq<bool>): nat {
    if xs == [] || !xs[|xs| - 1] then 0 else TrailingHigh(xs[..|xs| - 1]) + 1
  }

  /** The same, as the 8-bit counter preFilterCnt sees it. */
  function Counter(xs: seq<bool>): (c: nat)
    ensures c < 256
  {
    if xs == [] || !xs[|xs| - 1] then 0 else Bump(Counter(xs[..|xs| - 1]))
  }

  /** Sample s is set in the filter: the trigger went off at it or within the next two samples. */
  predicate Marked(xs: seq<bool>, s: nat)
    requires s < |xs|
  {
    || Counter(xs[..s + 1]) >= TRIGGER_LEVEL
    || (s + 1 < |xs| && Counter(xs[..s + 2]) == TRIGGER_LEVEL)
    || (s + 2 < |xs| && Counter(xs[..s + 3]) == TRIGGER_LEVEL)
  }

  /** What the filter puts out at sample t. */
  predicate Output(xs: seq<bool>, t: nat)
    requires t < |xs|
  {
    t >= 7 && Marked(xs, t - 7)
  }

  /** Sample s belongs to a pulse: it lies among three consecutive high samples. */
  ghost predicate InPulse(xs: seq<bool>, s: nat) {
    exists i: nat :: HighAt(xs, i) && i <= s <= i + 2
  }

  predicate HighAt(xs: seq<bool>, i: nat) {
    i + 2 < |xs| && xs[i] && xs[i + 1] && xs[i + 2]
  }

  /** How long the input has been high at sample e. */
  function HighRunAt(xs: seq<bool>, e: nat): nat
    requires e < |xs|
  {
    TrailingHigh(xs[..e + 1])
  }

  /** No run of high samples reaches 256 before the last seven samples. */
  ghost predicate NoLongPulse(xs: seq<bool>) {
    forall e :: 0 <= e < |xs| - 7 ==> HighRunAt(xs, e) < 256
  }

  lemma {:induction false} CounterIsTrailingHigh(xs: seq<bool>)
    ensures TrailingHigh(xs) < 256 ==> Counter(xs) == TrailingHigh(xs)
    ensures TrailingHigh(xs) == 256 ==> Counter(xs) == 0
  {
    if xs != [] && xs[|xs| - 1] {
      CounterIsTrailingHigh(xs[..|xs| - 1]);
    }
  }

  lemma {:induction false} TrailingHighSnoc(xs: seq<bool>, n: nat)
    requires n < |xs|
    ensures TrailingHigh(xs[..n + 1]) == if xs[n] then TrailingHigh(xs[..n]) + 1 else 0
    ensures Counter(xs[..n + 1]) == if xs[n] then Bump(Counter(xs[..n])) else 0
  {
    assert xs[..n + 1][..n] == xs[..n];
  }

  lemma {:induction false} ThreeHigh(xs: seq<bool>, e: nat)
    requires e < |xs|
    ensures TrailingHigh(xs[..e + 1]) >= 3 <==> e >= 2 && HighAt(xs, e - 2)
  {
    TrailingHighSnoc(xs, e);
    if e >= 1 {
      TrailingHighSnoc(xs, e - 1);
    }
    if e >= 2 {
      TrailingHighSnoc(xs, e - 2);
    }
    assert xs[..0] == [];
  }

  lemma {:induction false} InPulseByCount(xs: seq<bool>, s: nat)
    requires s + 2 < |xs|
    ensures InPulse(xs, s) <==>
            TrailingHigh(xs[..s + 1]) >= 3 || TrailingHigh(xs[..s + 2]) >= 3 || TrailingHigh(xs[..s + 3]) >= 3
  {
    ThreeHigh(xs, s);
    ThreeHigh(xs, s + 1);
    ThreeHigh(xs, s + 2);
    if InPulse(xs, s) {
      var i: nat :| HighAt(xs, i) && i <= s <= i + 2;
      assert i == s || i + 1 == s || i + 2 == s;
    }
  }

  /** Up to 255 highs in a row the trigger is right about every sample; at the 256th it is wrong. */
  lemma {:induction false} MarkedIsInPulse(xs: seq<bool>, s: nat)
    requires s + 2 < |xs|
    ensures TrailingHigh(xs[..s + 1]) < 256 ==> (Marked(xs, s) <==> InPulse(xs, s))
    ensures TrailingHigh(xs[..s + 1]) == 256 ==> !Marked(xs, s) && InPulse(xs, s)
  {
    InPulseByCount(xs, s);
    CounterIsTrailingHigh(xs[..s + 1]);
    TrailingHighSnoc(xs, s + 1);
    TrailingHighSnoc(xs, s + 2);
    if TrailingHigh(xs[..s + 1]) < 3 {
      CounterIsTrailingHigh(xs[..s + 2]);
      CounterIsTrailingHigh(xs[..s + 3]);
    }
  }

  /** A run beyond 256 was once exactly 256 long. */
  lemma {:induction false} ReachedLimit(xs: seq<bool>, e: nat) returns (s: nat)
    requires e < |xs| && TrailingHigh(xs[..e + 1]) >= 256
    ensures s <= e && TrailingHigh(xs[..s + 1]) == 256
  {
    if TrailingHigh(xs[..e + 1]) == 256 {
      s := e;
    } else {
      TrailingHighSnoc(xs, e);
      assert e > 0 by {
        assert xs[..0] == [];
      }
      s := ReachedLimit(xs, e - 1);
    }
  }

  /**
   For every input: the filter delays by seven samples and passes exactly the pulses of at
   least three samples, if and only if no pulse is so long that the 8-bit counter wraps.
   */
  lemma {:induction false} FilterPassesPulses(xs: seq<bool>)
    ensures (forall t :: 7 <= t < |xs| ==> (Output(xs, t) <==> InPulse(xs, t - 7))) <==> NoLongPulse(xs)
  {
    if NoLongPulse(xs) {
      forall t | 7 <= t < |xs| ensures Output(xs, t) <==> InPulse(xs, t - 7) {
        assert HighRunAt(xs, t - 7) < 256;
        MarkedIsInPulse(xs, t - 7);
      }
    } else {
      var e :| 0 <= e < |xs| - 7 && HighRunAt(xs, e) >= 256;
      var s := ReachedLimit(xs, e);
      MarkedIsInPulse(xs, s);
      assert Output(xs, s + 7) != InPulse(xs, s + 7 - 7);
    }
  }

  /** One more sample: it may set itself and, when it triggers, the two before it. */
  lemma {:induction false} MarkedSnoc(xs: seq<bool>, b: bool, s: nat)
    requires s <= |xs|
    ensures var c := Counter(xs + [b]);
            Marked(xs + [b], s) ==
            if s == |xs| then c >= TRIGGER_LEVEL
            else Marked(xs, s) || (c == TRIGGER_LEVEL && s + 2 >= |xs|)
  {
    var ys := xs + [b];
    assert ys[..|xs| + 1] == ys;
    if s < |xs| {
      assert ys[..s + 1] == xs[..s + 1];
      assert s + 1 < |xs| ==> ys[..s + 2] == xs[..s + 2];
      assert s + 2 < |xs| ==> ys[..s + 3] == xs[..s + 3];
    }
  }

  lemma {:induction false} CounterSnoc(xs: seq<bool>, b: bool)
    ensures Counter(xs + [b]) == if b then Bump(Counter(xs)) else 0
  {
    assert (xs + [b])[..|xs|] == xs;
  }

  /** Outputs do not change when more samples arrive. */
  lemma {:induction false} OutputStable(xs: seq<bool>, b: bool, t: nat)
    requires t < |xs|
    ensures Output(xs + [b], t) == Output(xs, t)
  {
    if t >= 7 {
      MarkedSnoc(xs, b, t - 7);
    }
  }
}
