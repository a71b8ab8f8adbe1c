/**
 The Oregon 2.1 line code and its round trip through the decoder of rf/oregon.c. Each bit b
 is sent as the four half-cells (not b, b, b, not b); what is heard are the runs of these.
 */
module OregonRoundTrip {
  import opened Options
  import opened Sequences
  import opened Bits
  import opened Pulses
  import opened RunLength
  import opened Oregon

  /** The bits of a byte, lowest first. */
  function ByteBits(v: bv8): (r: seq<bool>)
    ensures |r| == 8
  {
    [BitOf(v, 7), BitOf(v, 6), BitOf(v, 5), BitOf(v, 4), BitOf(v, 3), BitOf(v, 2), BitOf(v, 1), BitOf(v, 0)]
  }

  function PacketBits(bytes: seq<bv8>): seq<bool> {
    if bytes == [] then [] else ByteBits(bytes[0]) + PacketBits(bytes[1..])
  }

  function Halves(bits: seq<bool>): seq<bool> {
    if bits == [] then [] else [!bits[0], bits[0], bits[0], !bits[0]] + Halves(bits[1..])
  }

  /**
   A pulse heard for a run of half-cells, by its samples; high pulses come three samples short and
   low ones three samples long. Some lengths can be both a short and a long pulse. Inside a bit the
   decoder knows which of the two must come and takes them for that. At a joint, where the last
   cell of one bit meets the first of the next, it takes them for short on a high pulse and for
   long on a low one.
   */
  predicate Hears(run: Run, joint: bool, p: Pulse) {
    && p.level == run.level
    && if run.count == 1 then (if p.level then 1 <= p.count <= 10 else 7 <= p.count <= if joint then 14 else 16)
       else run.count == 2 && if p.level then (if joint then 11 else 9) <= p.count <= 19 else 15 <= p.count <= 25
  }

  /** A pulse of the length of two half-cells. */
  predicate IsLong(p: Pulse) {
    Hears(RunLength.Run(p.level, 2), false, p)
  }

  /** In every state of the pulse machine: exactly these pulses are taken for the run, and what is made of them. */
  lemma {:induction false} HearsIsExact(s: State, p: Pulse)
    requires s.bitCnt <= 2
    ensures var step := BitStep(s, p.level, Width(p.level, p.count));
            var short, long := RunLength.Run(p.level, 1), RunLength.Run(p.level, 2);
            && (s.bitCnt == 0 ==> step == if Hears(short, false, p) then (1, MoreData) else (0, Invalid))
            && (s.bitCnt == 1 ==>
                step == if Hears(long, false, p) || s.totByteCnt == s.byteLength then (2, Bit(p.level))
                        else (0, Invalid))
            && (s.bitCnt == 2 ==>
                step == (if Hears(short, true, p) then 0 else if Hears(long, true, p) then 1 else 2, MoreData))
  {
  }

  /** The cells of the current bit sent after a run, of the four of each. */
  function CellsAfter(cells: nat, run: Run): nat {
    if cells + run.count < 4 then cells + run.count else cells + run.count - 4
  }

  /** The pulses heard for the runs, with some cells of a bit already sent; of the last one only the level matters. */
  predicate Heard(runs: seq<Run>, cells: nat, pulses: seq<Pulse>) {
    |pulses| == |runs| &&
    (runs == [] ||
     (HeardFirst(runs[0], cells == 3, |runs| == 1, pulses[0]) &&
      Heard(runs[1..], CellsAfter(cells, runs[0]), pulses[1..])))
  }

  predicate HeardFirst(run: Run, joint: bool, last: bool, p: Pulse) {
    Hears(run, joint, p) || (last && p.level == run.level)
  }

  function Out(m: Option<Message>): seq<Message> {
    if m.Some? then [m.value] else []
  }

  function StreamRun(s: State, pulses: seq<Pulse>): (State, seq<Message>)
    requires Inv(s)
    decreases pulses
  {
    if pulses == [] then (s, [])
    else
      var (t, m) := Step(s, pulses[0].level, pulses[0].count);
      StepKeepsInv(s, pulses[0].level, pulses[0].count);
      var (u, ms) := StreamRun(t, pulses[1..]);
      (u, Out(m) + ms)
  }

  /** The zero bytes skipped since the id was opened, over a whole history of pulses. */
  function SkipsOf(s: State, z: nat, pulses: seq<Pulse>): nat
    requires Inv(s)
    decreases pulses
  {
    if pulses == [] then z
    else
      var p := pulses[0];
      StepKeepsInv(s, p.level, p.count);
      SkipsOf(Step(s, p.level, p.count).0, SkipsAfter(s, z, p.level, p.count), pulses[1..])
  }

  /**
   For every history of pulses: the total is that of all bits taken, in eight bits; and the check
   of the next long pulse is waived if and only if it ends the payload byte behind which as many
   bytes are still to come as zero bytes were skipped, modulo 32.
   */
  lemma {:induction false} TotalOverHistory(s: State, z: nat, pulses: seq<Pulse>)
    requires Inv(s) && TotalIs(s, z)
    ensures var t, skips := StreamRun(s, pulses).0, SkipsOf(s, z, pulses);
            && Inv(t) && TotalIs(t, skips)
            && (t.totByteCnt == t.byteLength <==>
                t.phase == ParseData && t.byteCnt == 7 && t.length - 1 == skips % 32)
    decreases pulses
  {
    if pulses == [] {
      WaivedExactly(s, z);
    } else {
      var p := pulses[0];
      StepKeepsInv(s, p.level, p.count);
      StepKeepsTotal(s, z, p.level, p.count);
      TotalOverHistory(Step(s, p.level, p.count).0, SkipsAfter(s, z, p.level, p.count), pulses[1..]);
    }
  }

  // ---------------------------------------------------------------- the runs of the line code

  /** The runs from the end of a bit b up to the long pulse of the last of the following bits. */
  function Following(b: bool, rest: seq<bool>): seq<Run>
    decreases rest
  {
    if rest == [] then []
    else BitRuns(b, rest[0]) + Following(rest[0], rest[1..])
  }

  /** Equal neighbours share a long pulse; different ones are two short pulses apart. */
  function BitRuns(b: bool, next: bool): seq<Run> {
    if b == next then [RunLength.Run(!b, 2), RunLength.Run(next, 2)]
    else [RunLength.Run(!b, 1), RunLength.Run(b, 1), RunLength.Run(next, 2)]
  }

  function Last(b: bool, rest: seq<bool>): bool {
    if rest == [] then b else rest[|rest| - 1]
  }

  /** The cells between the long pulse of b and the end of the long pulse of the next bit. */
  lemma {:induction false} CellsOfBit(b: bool, next: bool)
    ensures Expand(BitRuns(b, next)) == [!b, !next, next, next]
    ensures Maximal(BitRuns(b, next))
  {
    RepeatSmall(!b);
    RepeatSmall(b);
    RepeatSmall(next);
    if b == next {
      ExpandOne(RunLength.Run(!b, 2));
      ExpandSnoc([RunLength.Run(!b, 2)], RunLength.Run(next, 2));
      assert BitRuns(b, next) == [RunLength.Run(!b, 2)] + [RunLength.Run(next, 2)];
    } else {
      ExpandOne(RunLength.Run(!b, 1));
      ExpandSnoc([RunLength.Run(!b, 1)], RunLength.Run(b, 1));
      ExpandSnoc([RunLength.Run(!b, 1)] + [RunLength.Run(b, 1)], RunLength.Run(next, 2));
      assert BitRuns(b, next) == [RunLength.Run(!b, 1)] + [RunLength.Run(b, 1)] + [RunLength.Run(next, 2)];
    }
  }

  function WithEnd(b: bool, rest: seq<bool>): (r: seq<Run>)
    ensures r != []
  {
    Following(b, rest) + [RunLength.Run(!Last(b, rest), 1)]
  }

  lemma {:induction false} WithEndCons(b: bool, rest: seq<bool>)
    requires rest != []
    ensures WithEnd(b, rest) == BitRuns(b, rest[0]) + WithEnd(rest[0], rest[1..])
  {
    assert Last(b, rest) == Last(rest[0], rest[1..]);
  }

  lemma {:induction false} HalvesCons(b: bool, rest: seq<bool>)
    requires rest != []
    ensures [!b] + Halves(rest) == [!b, !rest[0], rest[0], rest[0]] + ([!rest[0]] + Halves(rest[1..]))
  {
  }

  lemma {:induction false} CellsFollowing(b: bool, rest: seq<bool>)
    ensures Expand(WithEnd(b, rest)) == [!b] + Halves(rest)
    ensures Maximal(WithEnd(b, rest)) && WithEnd(b, rest)[0].level == !b
    decreases rest
  {
    if rest == [] {
      RepeatSmall(!b);
      ExpandOne(RunLength.Run(!b, 1));
      assert WithEnd(b, rest) == [RunLength.Run(!b, 1)];
      assert [!b] + Halves([]) == [!b];
    } else {
      var next, later := rest[0], rest[1..];
      CellsFollowing(next, later);
      CellsOfBit(b, next);
      WithEndCons(b, rest);
      HalvesCons(b, rest);
      ExpandAppend(BitRuns(b, next), WithEnd(next, later));
      JoinMaximal(BitRuns(b, next), WithEnd(next, later));
    }
  }

  /** All the runs of a packet but its last short one. */
  function PacketRuns(bits: seq<bool>): seq<Run>
    requires bits != []
  {
    Head(bits[0]) + Following(bits[0], bits[1..])
  }

  function Head(b: bool): seq<Run> {
    [RunLength.Run(!b, 1), RunLength.Run(b, 2)]
  }

  /** They are what run-length coding makes of the half-cells. */
  lemma {:induction false} RunsOfPacket(bits: seq<bool>)
    requires bits != []
    ensures Runs(Halves(bits)) == PacketRuns(bits) + [RunLength.Run(!bits[|bits| - 1], 1)]
  {
    var all := Head(bits[0]) + WithEnd(bits[0], bits[1..]);
    PacketCells(bits);
    RunsAre(Halves(bits), all);
    assert all == PacketRuns(bits) + [RunLength.Run(!Last(bits[0], bits[1..]), 1)];
  }

  lemma {:induction false} HeadCells(b: bool)
    ensures Expand(Head(b)) == [!b, b, b] && Maximal(Head(b)) && Head(b)[1].level == b
  {
    RepeatSmall(!b);
    RepeatSmall(b);
    ExpandOne(RunLength.Run(!b, 1));
    ExpandSnoc([RunLength.Run(!b, 1)], RunLength.Run(b, 2));
    assert Head(b) == [RunLength.Run(!b, 1)] + [RunLength.Run(b, 2)];
  }

  lemma {:induction false} PacketCells(bits: seq<bool>)
    requires bits != []
    ensures var all := Head(bits[0]) + WithEnd(bits[0], bits[1..]);
            Expand(all) == Halves(bits) && Maximal(all)
  {
    var b, rest := bits[0], bits[1..];
    HeadCells(b);
    CellsFollowing(b, rest);
    ExpandAppend(Head(b), WithEnd(b, rest));
    JoinMaximal(Head(b), WithEnd(b, rest));
    HalvesHead(bits);
  }

  lemma {:induction false} HalvesHead(bits: seq<bool>)
    requires bits != []
    ensures Halves(bits) == [!bits[0], bits[0], bits[0]] + ([!bits[0]] + Halves(bits[1..]))
  {
  }

  // ---------------------------------------------------------------- pulses to bits

  /** The bits of a packet on their way through the byte and the stream machine, while it listens. */
  function FeedBits(s: State, bits: seq<bool>): (State, seq<Message>)
    requires Inv(s)
    decreases bits
  {
    if bits == [] || s.phase == Wait then (s, [])
    else
      var (t, m) := FeedBit(s, bits[0]);
      FeedKeepsInv(s, bits[0]);
      var (u, ms) := FeedBits(t, bits[1..]);
      (u, Out(m) + ms)
  }

  /** The machine listens until the last of the bits is in. */
  predicate Listens(s: State, bits: seq<bool>)
    requires Inv(s)
    decreases bits
  {
    bits == [] || (s.phase != Wait &&
                   (FeedKeepsInv(s, bits[0]); |bits| == 1 || Listens(FeedBit(s, bits[0]).0, bits[1..])))
  }

  lemma {:induction false} HeardCons(run: Run, more: seq<Run>, cells: nat, pulses: seq<Pulse>)
    requires Heard([run] + more, cells, pulses)
    ensures pulses != [] && HeardFirst(run, cells == 3, more == [], pulses[0])
    ensures Heard(more, CellsAfter(cells, run), pulses[1..])
  {
    assert ([run] + more)[1..] == more;
  }

  lemma {:induction false} RunCons(s: State, p: Pulse, rest: seq<Pulse>)
    requires Inv(s)
    ensures var (t, m) := Step(s, p.level, p.count);
            && Inv(t)
            && StreamRun(s, [p] + rest) == (StreamRun(t, rest).0, Out(m) + StreamRun(t, rest).1)
  {
    StepKeepsInv(s, p.level, p.count);
    assert ([p] + rest)[1..] == rest;
  }

  /** Two stretches of pulses one after the other. */
  lemma {:induction false} RunAppend(s: State, a: seq<Pulse>, t: State, ms: seq<Message>, b: seq<Pulse>)
    requires Inv(s)
    requires StreamRun(s, a) == (t, ms)
    ensures Inv(t)
    ensures StreamRun(s, a + b).0 == StreamRun(t, b).0
    ensures StreamRun(s, a + b).1 == ms + StreamRun(t, b).1
    decreases a
  {
    if a == [] {
      assert a + b == b;
    } else {
      var p, rest := a[0], a[1..];
      var (u, m) := Step(s, p.level, p.count);
      RunCons(s, p, rest);
      assert [p] + rest == a;
      var mid := StreamRun(u, rest).1;
      RunAppend(u, rest, t, mid, b);
      RunCons(s, p, rest + b);
      Associate([p], rest, b);
      Associate(Out(m), mid, StreamRun(t, b).1);
    }
  }

  lemma {:induction false} RunOne(s: State, p: Pulse)
    requires Inv(s)
    ensures StreamRun(s, [p]) == (var (t, m) := Step(s, p.level, p.count); (t, Out(m)))
  {
    var (t, m) := Step(s, p.level, p.count);
    RunCons(s, p, []);
    assert [p] + [] == [p] && Out(m) + [] == Out(m);
  }

  /** The pulses before the long one only bring the bit machine to its second state. */
  lemma {:induction false} LeadIn(s: State, b: bool, next: bool, pulses: seq<Pulse>)
    requires Inv(s) && s.phase != Wait && s.bitCnt == 2
    requires var runs := BitRuns(b, next);
             |pulses| == |runs| - 1 && forall i :: 0 <= i < |pulses| ==> Hears(runs[i], i == 0, pulses[i])
    ensures StreamRun(s, pulses) == (s.(bitCnt := 1), [])
  {
    var runs := BitRuns(b, next);
    assert Hears(runs[0], true, pulses[0]);
    if b == next {
      RunOne(s, pulses[0]);
      assert pulses == [pulses[0]];
    } else {
      assert Hears(runs[1], false, pulses[1]);
      RunOne(s, pulses[0]);
      RunOne(s.(bitCnt := 0), pulses[1]);
      RunAppend(s, [pulses[0]], s.(bitCnt := 0), [], [pulses[1]]);
      assert pulses == [pulses[0]] + [pulses[1]];
    }
  }

  /** The long pulse is taken, for its width or because the check is waived. */
  predicate Taken(s: State, b: bool, p: Pulse) {
    Hears(RunLength.Run(b, 2), false, p) || s.totByteCnt == s.byteLength
  }

  /** What the last pulse of a bit b does once those before it are in. */
  function FeedHeard(s: State, b: bool, p: Pulse): (State, Option<Message>)
    requires Inv(s) && s.phase != Wait
  {
    if Taken(s, b, p) then FeedBit(s, b) else (Clear(s), None)
  }

  lemma {:induction false} HeardKeepsInv(s: State, b: bool, p: Pulse)
    requires Inv(s) && s.phase != Wait
    ensures var t := FeedHeard(s, b, p).0; Inv(t) && (t.phase != Wait ==> t.bitCnt == s.bitCnt)
  {
    FeedKeepsInv(s, b);
  }

  lemma {:induction false} LongPulse(s: State, next: bool, p: Pulse)
    requires Inv(s) && s.phase != Wait && s.bitCnt == 1 && p.level == next
    ensures StreamRun(s, [p]) == (var (t, m) := FeedHeard(s.(bitCnt := 2), next, p); (t, Out(m)))
  {
    RunOne(s, p);
  }

  /** All pulses of one bit after another. */
  lemma {:induction false} OneBit(s: State, b: bool, next: bool, last: bool, pulses: seq<Pulse>)
    requires Inv(s) && s.phase != Wait && s.bitCnt == 2 && HeardBit(b, next, last, pulses)
    ensures pulses != []
    ensures var (t, m) := if last then FeedHeard(s, next, pulses[|pulses| - 1]) else FeedBit(s, next);
            StreamRun(s, pulses) == (t, Out(m))
  {
    var n := |pulses| - 1;
    LeadIn(s, b, next, pulses[..n]);
    LongPulse(s.(bitCnt := 1), next, pulses[n]);
    RunAppend(s, pulses[..n], s.(bitCnt := 1), [], [pulses[n]]);
    assert pulses == pulses[..n] + [pulses[n]];
    assert s.(bitCnt := 1).(bitCnt := 2) == s;
    NothingAdded(Out(FeedHeard(s, next, pulses[n]).1));
  }

  lemma {:induction false} CutLong(first: Run, long: Run, later: seq<Run>, pulses: seq<Pulse>)
    requires first.count == 2 && Heard([first] + ([long] + later), 3, pulses) && long.count == 2
    ensures |pulses| >= 2 && Hears(first, true, pulses[0]) && HeardFirst(long, false, later == [], pulses[1])
    ensures Heard(later, 3, pulses[2..])
  {
    HeardCons(first, [long] + later, 3, pulses);
    HeardCons(long, later, 1, pulses[1..]);
    assert pulses[1..][1..] == pulses[2..];
  }

  lemma {:induction false} CutShort(first: Run, more: seq<Run>, pulses: seq<Pulse>)
    requires first.count == 1 && more != [] && Heard([first] + more, 3, pulses)
    ensures pulses != [] && Hears(first, true, pulses[0]) && Heard(more, 0, pulses[1..])
  {
    HeardCons(first, more, 3, pulses);
  }

  lemma {:induction false} CutBoth(short: Run, long: Run, later: seq<Run>, pulses: seq<Pulse>)
    requires short.count == 1 && long.count == 2 && Heard([short] + ([long] + later), 0, pulses)
    ensures |pulses| >= 2 && Hears(short, false, pulses[0]) && HeardFirst(long, false, later == [], pulses[1])
    ensures Heard(later, 3, pulses[2..])
  {
    HeardCons(short, [long] + later, 0, pulses);
    HeardCons(long, later, 1, pulses[1..]);
    assert pulses[1..][1..] == pulses[2..];
  }

  /** The pulses of one bit, in tolerance but perhaps for the last one of all. */
  predicate HeardBit(b: bool, next: bool, last: bool, pulses: seq<Pulse>) {
    var runs := BitRuns(b, next);
    var n := |runs| - 1;
    && |pulses| == |runs| && HeardFirst(runs[n], false, last, pulses[n])
    && forall i :: 0 <= i < n ==> Hears(runs[i], i == 0, pulses[i])
  }

  /** The pulses of one bit, cut from those of all that follow. */
  lemma {:induction false} CutBit(b: bool, rest: seq<bool>, pulses: seq<Pulse>)
    returns (own: seq<Pulse>, later: seq<Pulse>)
    requires rest != [] && Heard(Following(b, rest), 3, pulses)
    ensures pulses == own + later && HeardBit(b, rest[0], |rest| == 1, own)
    ensures Heard(Following(rest[0], rest[1..]), 3, later) && (|rest| == 1 ==> later == [])
  {
    var after, k := Following(rest[0], rest[1..]), |BitRuns(b, rest[0])|;
    if b == rest[0] {
      CutEqual(b, after, pulses);
    } else {
      CutDifferent(b, after, pulses);
    }
    own, later := pulses[..k], pulses[k..];
    NoneFollow(rest);
  }

  lemma {:induction false} NoneFollow(rest: seq<bool>)
    requires rest != []
    ensures Following(rest[0], rest[1..]) == [] <==> |rest| == 1
  {
  }

  lemma {:induction false} CutEqual(b: bool, after: seq<Run>, pulses: seq<Pulse>)
    requires Heard(BitRuns(b, b) + after, 3, pulses)
    ensures |pulses| >= 2 && HeardBit(b, b, after == [], pulses[..2]) && Heard(after, 3, pulses[2..])
  {
    var runs := BitRuns(b, b);
    assert runs + after == [runs[0]] + ([runs[1]] + after);
    CutLong(runs[0], runs[1], after, pulses);
  }

  lemma {:induction false} CutDifferent(b: bool, after: seq<Run>, pulses: seq<Pulse>)
    requires Heard(BitRuns(b, !b) + after, 3, pulses)
    ensures |pulses| >= 3 && HeardBit(b, !b, after == [], pulses[..3]) && Heard(after, 3, pulses[3..])
  {
    var runs := BitRuns(b, !b);
    assert runs + after == [runs[0]] + ([runs[1]] + ([runs[2]] + after));
    CutShort(runs[0], [runs[1]] + ([runs[2]] + after), pulses);
    CutBoth(runs[1], runs[2], after, pulses[1..]);
    assert pulses[1..][2..] == pulses[3..];
  }

  /** The bits as they come from the pulses, of which the last may have a wrong width. */
  function FeedToLast(s: State, bits: seq<bool>, last: Pulse): (State, seq<Message>)
    requires Inv(s)
    decreases bits
  {
    if bits == [] || s.phase == Wait then (s, [])
    else
      var (t, m) := if |bits| == 1 then FeedHeard(s, bits[0], last) else FeedBit(s, bits[0]);
      HeardKeepsInv(s, bits[0], last);
      FeedKeepsInv(s, bits[0]);
      var (u, ms) := FeedToLast(t, bits[1..], last);
      (u, Out(m) + ms)
  }

  lemma {:induction false} ToLastCons(s: State, bits: seq<bool>, last: Pulse)
    requires Inv(s) && s.phase != Wait && |bits| > 1
    ensures Inv(FeedBit(s, bits[0]).0)
    ensures var (t, m) := FeedBit(s, bits[0]);
            var (u, ms) := FeedToLast(t, bits[1..], last);
            FeedToLast(s, bits, last) == (u, Out(m) + ms)
  {
    FeedKeepsInv(s, bits[0]);
  }

  lemma {:induction false} ToLastOne(s: State, b: bool, last: Pulse)
    requires Inv(s) && s.phase != Wait
    ensures FeedToLast(s, [b], last) == (FeedHeard(s, b, last).0, Out(FeedHeard(s, b, last).1))
  {
    HeardKeepsInv(s, b, last);
    assert [b][1..] == [];
    NothingAdded(Out(FeedHeard(s, b, last).1));
  }

  lemma {:induction false} FirstListened(s: State, b: bool, rest: seq<bool>)
    requires Inv(s) && Listens(s, [b] + rest) && rest != []
    ensures s.phase != Wait && Inv(FeedBit(s, b).0) && Listens(FeedBit(s, b).0, rest)
    ensures FeedBit(s, b).0.bitCnt == s.bitCnt
  {
    FeedKeepsInv(s, b);
    assert ([b] + rest)[1..] == rest;
  }

  /** A bit from its pulses, and the others from theirs. */
  lemma {:induction false} JoinFeeds(s: State, fed: State, b: bool, rest: seq<bool>, own: seq<Pulse>, later: seq<Pulse>)
    requires Inv(s) && Inv(fed) && fed.phase != Wait && rest != [] && later != [] && Inv(FeedBit(fed, b).0)
    requires StreamRun(s, own) == (FeedBit(fed, b).0, Out(FeedBit(fed, b).1))
    requires StreamRun(FeedBit(fed, b).0, later) == FeedToLast(FeedBit(fed, b).0, rest, later[|later| - 1])
    ensures StreamRun(s, own + later) == FeedToLast(fed, [b] + rest, later[|later| - 1])
  {
    var (t, m) := FeedBit(fed, b);
    RunAppend(s, own, t, Out(m), later);
    assert ([b] + rest)[1..] == rest;
    ToLastCons(fed, [b] + rest, later[|later| - 1]);
  }

  /** While it listens, the decoder gets from the pulses exactly the bits, the last one if it is taken. */
  lemma {:induction false} PulsesAreBits(s: State, b: bool, rest: seq<bool>, pulses: seq<Pulse>)
    requires Inv(s) && s.bitCnt == 2 && Heard(Following(b, rest), 3, pulses) && Listens(s, rest) && rest != []
    ensures pulses != [] && StreamRun(s, pulses) == FeedToLast(s, rest, pulses[|pulses| - 1])
    decreases rest
  {
    var own, later := CutBit(b, rest, pulses);
    if |rest| == 1 {
      NothingAdded(own);
      LastBitHeard(s, b, rest, own);
    } else {
      var next, more := rest[0], rest[1..];
      assert rest == [next] + more;
      FirstListened(s, next, more);
      OneBit(s, b, next, false, own);
      PulsesAreBits(FeedBit(s, next).0, next, more, later);
      JoinFeeds(s, s, next, more, own, later);
    }
  }

  lemma {:induction false} LastBitHeard(s: State, b: bool, rest: seq<bool>, own: seq<Pulse>)
    requires Inv(s) && s.phase != Wait && s.bitCnt == 2 && |rest| == 1 && HeardBit(b, rest[0], true, own)
    ensures own != [] && StreamRun(s, own) == FeedToLast(s, rest, own[|own| - 1])
  {
    OneBit(s, b, rest[0], true, own);
    assert rest == [rest[0]];
    ToLastOne(s, rest[0], own[|own| - 1]);
  }

  /** The check is waived for the last of the bits. */
  predicate WaivedAtLast(s: State, rest: seq<bool>)
    requires Inv(s) && rest != [] && Listens(s, rest)
    decreases rest
  {
    if |rest| == 1 then s.totByteCnt == s.byteLength
    else (FeedKeepsInv(s, rest[0]); WaivedAtLast(FeedBit(s, rest[0]).0, rest[1..]))
  }

  lemma {:induction false} ListenerSendsNothing(s: State, b: bool)
    requires Inv(s) && s.phase != Wait && FeedBit(s, b).0.phase != Wait
    ensures FeedBit(s, b).1 == None
  {
  }

  /** If the last bit is taken the pulses are all the bits; if not, nothing is sent, and the decoder waits. */
  lemma {:induction false} LastDecides(s: State, bits: seq<bool>, last: Pulse)
    requires Inv(s) && bits != [] && Listens(s, bits)
    ensures if Hears(RunLength.Run(bits[|bits| - 1], 2), false, last) || WaivedAtLast(s, bits)
            then FeedToLast(s, bits, last) == FeedBits(s, bits)
            else FeedToLast(s, bits, last).0.phase == Wait && FeedToLast(s, bits, last).1 == []
    decreases bits
  {
    if |bits| == 1 {
      assert bits == [bits[0]];
      ToLastOne(s, bits[0], last);
      FeedLast(s, bits[0]);
    } else {
      ToLastCons(s, bits, last);
      FeedKeepsInv(s, bits[0]);
      ListenerSendsNothing(s, bits[0]);
      var rest := bits[1..];
      LastDecides(FeedBit(s, bits[0]).0, rest, last);
      NothingAdded(FeedToLast(FeedBit(s, bits[0]).0, rest, last).1);
      NothingAdded(FeedBits(FeedBit(s, bits[0]).0, rest).1);
    }
  }

  // ---------------------------------------------------------------- bits to bytes

  function ShiftAll(byte: bv8, bits: seq<bool>): bv8
    decreases bits
  {
    if bits == [] then byte else ShiftAll(ShiftDown(byte, bits[0]), bits[1..])
  }

  /** Eight bits replace whatever the register held. */
  lemma {:induction false} EightShifts(stale: bv8, v: bv8)
    ensures ShiftAll(stale, ByteBits(v)) == v
  {
    var b := ByteBits(v);
    var x1 := ShiftDown(stale, b[0]);
    var x2 := ShiftDown(x1, b[1]);
    var x3 := ShiftDown(x2, b[2]);
    var x4 := ShiftDown(x3, b[3]);
    var x5 := ShiftDown(x4, b[4]);
    var x6 := ShiftDown(x5, b[5]);
    var x7 := ShiftDown(x6, b[6]);
    ShiftedIn(stale, v);
    ShiftOne(x7, b, 7);
    ShiftOne(x6, b, 6);
    ShiftOne(x5, b, 5);
    ShiftOne(x4, b, 4);
    ShiftOne(x3, b, 3);
    ShiftOne(x2, b, 2);
    ShiftOne(x1, b, 1);
    ShiftOne(stale, b, 0);
    assert b[8..] == [] && b[0..] == b;
  }

  lemma {:induction false} ShiftOne(x: bv8, b: seq<bool>, i: nat)
    requires i < |b|
    ensures ShiftAll(x, b[i..]) == ShiftAll(ShiftDown(x, b[i]), b[i + 1..])
  {
    assert b[i..][1..] == b[i + 1..];
  }

  lemma {:induction false} ShiftedIn(x: bv8, v: bv8)
    ensures var b := ByteBits(v);
            ShiftDown(ShiftDown(ShiftDown(ShiftDown(ShiftDown(ShiftDown(ShiftDown(ShiftDown(
              x, b[0]), b[1]), b[2]), b[3]), b[4]), b[5]), b[6]), b[7]) == v
  {
  }

  lemma {:induction false} BumpFirst(c: nat, n: nat)
    requires n > 0
    ensures Bumps(Bump(c), n - 1) == Bumps(c, n)
  {
    if n > 1 {
      BumpFirst(c, n - 1);
    }
  }

  lemma {:induction false} BumpsTotal(taken: nat, n: nat)
    ensures Bumps(taken % 256, n) == (taken + n) % 256
  {
    if n > 0 {
      BumpsTotal(taken, n - 1);
      BumpTotal(taken + n - 1);
    }
  }

  /** Fewer bits than complete a byte only move the register and the counters. */
  lemma {:induction false} FeedSome(s: State, bits: seq<bool>)
    requires Inv(s) && s.phase != Wait && s.byteCnt + |bits| < 8
    ensures var t := s.(byte := ShiftAll(s.byte, bits), totByteCnt := Bumps(s.totByteCnt, |bits|),
                        byteCnt := s.byteCnt + |bits|);
            Inv(t) && FeedBits(s, bits) == (t, [])
    decreases bits
  {
    if bits != [] {
      FeedKeepsInv(s, bits[0]);
      var u := s.(byte := ShiftDown(s.byte, bits[0]), totByteCnt := Bump(s.totByteCnt), byteCnt := s.byteCnt + 1);
      BumpFirst(s.totByteCnt, |bits|);
      assert FeedBit(s, bits[0]) == (u, None);
      FeedSome(u, bits[1..]);
      assert Out(None) + [] == [];
    }
  }

  lemma {:induction false} FeedCons(s: State, b: bool, rest: seq<bool>)
    requires Inv(s) && s.phase != Wait
    ensures var (t, m) := FeedBit(s, b);
            Inv(t) && FeedBits(s, [b] + rest) == (FeedBits(t, rest).0, Out(m) + FeedBits(t, rest).1)
  {
    FeedKeepsInv(s, b);
    assert ([b] + rest)[1..] == rest;
  }

  lemma {:induction false} FeedAppend(s: State, a: seq<bool>, t: State, ms: seq<Message>, b: seq<bool>)
    requires Inv(s) && FeedBits(s, a) == (t, ms) && t.phase != Wait
    ensures Inv(t)
    ensures FeedBits(s, a + b).0 == FeedBits(t, b).0
    ensures FeedBits(s, a + b).1 == ms + FeedBits(t, b).1
    decreases a
  {
    if a == [] {
      NothingAdded(b);
      NothingAdded(FeedBits(t, b).1);
    } else if s.phase != Wait {
      var x, rest := a[0], a[1..];
      var (u, m) := FeedBit(s, x);
      FeedCons(s, x, rest);
      assert [x] + rest == a;
      var mid := FeedBits(u, rest).1;
      FeedAppend(u, rest, t, mid, b);
      FeedCons(s, x, rest + b);
      Associate([x], rest, b);
      Associate(Out(m), mid, FeedBits(t, b).1);
    }
  }

  /** The state in which a complete byte arrives. */
  function ByteReady(s: State, v: bv8): State {
    s.(byte := v, totByteCnt := Bumps(s.totByteCnt, 8), byteCnt := 0)
  }

  /** What a complete byte does. */
  function ByteArrives(s: State, v: bv8): (State, Option<Message>)
    requires Inv(s) && s.phase != Wait
  {
    if s.phase == ParseData then DataByte(ByteReady(s, v), v) else (IdByte(ByteReady(s, v), v), None)
  }

  /** The eight bits of a byte, whatever was in the register before. */
  lemma {:induction false} FeedByte(s: State, v: bv8)
    requires Inv(s) && s.phase != Wait && s.byteCnt == 0
    ensures FeedBits(s, ByteBits(v)) == (ByteArrives(s, v).0, Out(ByteArrives(s, v).1))
    ensures Inv(ByteArrives(s, v).0)
  {
    var bits := ByteBits(v);
    var t := s.(byte := ShiftAll(s.byte, bits[..7]), totByteCnt := Bumps(s.totByteCnt, 7), byteCnt := 7);
    FeedSome(s, bits[..7]);
    FeedAppend(s, bits[..7], t, [], [bits[7]]);
    assert bits == bits[..7] + [bits[7]];
    EightShifts(s.byte, v);
    ShiftAllSnoc(s.byte, bits[..7], bits[7]);
    FeedLast(t, bits[7]);
    Completes(s, t, bits[7], v);
    assert [] + Out(ByteArrives(s, v).1) == Out(ByteArrives(s, v).1);
  }

  lemma {:induction false} Completes(s: State, t: State, b: bool, v: bv8)
    requires Inv(s) && s.phase != Wait && s.byteCnt == 0
    requires t == s.(byte := t.byte, totByteCnt := Bumps(s.totByteCnt, 7), byteCnt := 7) && Inv(t)
    requires ShiftDown(t.byte, b) == v
    ensures FeedBit(t, b) == ByteArrives(s, v) && Inv(ByteArrives(s, v).0)
  {
    var u := ByteReady(s, v);
    assert Oregon.ShiftIn(t, b) == u;
    if s.phase == ParseData {
      DataKeepsInv(u, v);
    } else {
      IdKeepsInv(u, v);
    }
  }

  lemma {:induction false} ShiftAllSnoc(x: bv8, bits: seq<bool>, b: bool)
    ensures ShiftAll(x, bits + [b]) == ShiftDown(ShiftAll(x, bits), b)
    decreases bits
  {
    if bits == [] {
      assert bits + [b] == [b];
      assert ShiftAll(ShiftDown(x, b), [b][1..]) == ShiftDown(x, b);
    } else {
      assert (bits + [b])[1..] == bits[1..] + [b];
      ShiftAllSnoc(ShiftDown(x, bits[0]), bits[1..], b);
    }
  }

  lemma {:induction false} FeedLast(s: State, b: bool)
    requires Inv(s) && s.phase != Wait
    ensures FeedBits(s, [b]) == (FeedBit(s, b).0, Out(FeedBit(s, b).1))
  {
    FeedKeepsInv(s, b);
    assert [b][1..] == [];
    assert Out(FeedBit(s, b).1) + [] == Out(FeedBit(s, b).1);
  }

  // ---------------------------------------------------------------- the machine listens to the end

  lemma {:induction false} SomeListens(s: State, bits: seq<bool>)
    requires Inv(s) && s.phase != Wait && s.byteCnt + |bits| <= 8
    ensures Listens(s, bits)
    decreases bits
  {
    if |bits| > 1 {
      FeedKeepsInv(s, bits[0]);
      SomeListens(FeedBit(s, bits[0]).0, bits[1..]);
    }
  }

  lemma {:induction false} ListensAppend(s: State, a: seq<bool>, t: State, b: seq<bool>)
    requires Inv(s) && Listens(s, a) && FeedBits(s, a).0 == t && t.phase != Wait
    requires Inv(t) && Listens(t, b) && b != []
    ensures Listens(s, a + b)
    ensures WaivedAtLast(t, b) == WaivedAtLast(s, a + b)
    decreases a
  {
    if a == [] {
      assert a + b == b;
    } else {
      assert (a + b)[1..] == a[1..] + b && (a + b)[0] == a[0];
      FeedKeepsInv(s, a[0]);
      ListensAppend(FeedBit(s, a[0]).0, a[1..], t, b);
    }
  }

  lemma {:induction false} FeedData(s: State, z: nat, b: bool)
    requires Inv(s) && s.phase == ParseData && TotalIs(s, z)
    ensures var t := FeedBit(s, b).0;
            && Inv(t) && TotalIs(t, z)
            && (if s.length == 1 && s.byteCnt == 7 then t.phase == Wait
                else t.phase == ParseData && 8 * t.length - t.byteCnt == 8 * s.length - s.byteCnt - 1)
  {
    FeedKeepsInv(s, b);
    FeedKeepsTotal(s, z, b);
  }

  /** Inside the payload the machine listens for exactly the bits still expected. */
  lemma {:induction false} DataListens(s: State, z: nat, bits: seq<bool>)
    requires Inv(s) && s.phase == ParseData && TotalIs(s, z) && |bits| == 8 * s.length - s.byteCnt
    ensures bits != [] && Listens(s, bits) && (WaivedAtLast(s, bits) <==> z % 32 == 0)
    decreases bits
  {
    if |bits| > 1 {
      FeedData(s, z, bits[0]);
      DataListens(FeedBit(s, bits[0]).0, z, bits[1..]);
    } else {
      LastBitIsWaived(s, z);
    }
  }

  lemma {:induction false} PacketLength(bytes: seq<bv8>)
    ensures |PacketBits(bytes)| == 8 * |bytes|
  {
    if bytes != [] {
      PacketLength(bytes[1..]);
    }
  }

  /** The payload bytes fill the buffer and are sent on when the last one is in. */
  lemma {:induction false} PayloadFeeds(s: State, payload: seq<bv8>)
    requires Inv(s) && s.phase == ParseData && s.byteCnt == 0 && |payload| == s.length
    ensures FeedBits(s, PacketBits(payload)).0.phase == Wait
    ensures FeedBits(s, PacketBits(payload)).1 == [Message(s.id, s.buffer[..s.cnt] + payload)]
    decreases payload
  {
    var v, rest := payload[0], payload[1..];
    var (t, m) := ByteArrives(s, v);
    FeedByte(s, v);
    assert t.buffer[..s.cnt + 1] == s.buffer[..s.cnt] + [v];
    assert payload == [v] + rest;
    if |payload| == 1 {
      assert payload == [v] && PacketBits(rest) == [];
      NothingAdded(ByteBits(v));
    } else {
      FeedAppend(s, ByteBits(v), t, Out(m), PacketBits(rest));
      PayloadFeeds(t, rest);
      Associate(s.buffer[..s.cnt], [v], rest);
      NothingAdded(FeedBits(t, PacketBits(rest)).1);
    }
  }

  function IdOf(hi: bv8, lo: bv8): bv16 {
    ((hi as bv16) << 8) | (lo as bv16)
  }

  /** A byte taken whole keeps the total. */
  lemma {:induction false} ByteKeepsTotal(s: State, z: nat, v: bv8)
    requires Inv(s) && s.phase == ParseId && s.byteCnt == 0 && TotalIs(s, z)
    ensures TotalIs(ByteArrives(s, v).0, if s.id == 0 && v == 0 then z + 1 else z)
  {
    BumpsTotal(BitsTaken(s, z), 8);
    IdByteTaken(ByteReady(s, v), z);
  }

  /** Bits after which the machine still listens, in another state, and that send nothing. */
  ghost predicate Collects(s: State, bits: seq<bool>, t: State)
    requires Inv(s)
  {
    Listens(s, bits) && FeedBits(s, bits) == (t, []) && t.phase != Wait && Inv(t)
  }

  lemma {:induction false} CollectMore(s: State, a: seq<bool>, t: State, b: seq<bool>, u: State)
    requires Inv(s) && Collects(s, a, t) && Collects(t, b, u)
    ensures Collects(s, a + b, u)
  {
    if b == [] {
      NothingAdded(a);
    } else {
      FeedAppend(s, a, t, [], b);
      ListensAppend(s, a, t, b);
      NothingAdded(FeedBits(t, b).1);
    }
  }

  lemma {:induction false} CollectByte(s: State, v: bv8)
    requires Inv(s) && s.phase == ParseId && s.byteCnt == 0 && ByteArrives(s, v).0.phase != Wait
    ensures Collects(s, ByteBits(v), ByteArrives(s, v).0)
  {
    FeedByte(s, v);
    SomeListens(s, ByteBits(v));
  }

  function Zeros(n: nat): (r: seq<bv8>)
    ensures |r| == n && forall i :: 0 <= i < n ==> r[i] == 0
  {
    seq(n, _ => 0)
  }

  /** Before the id, with z zero bytes skipped. */
  predicate BeforeId(s: State, z: nat) {
    Inv(s) && s.phase == ParseId && s.id == 0 && s.byteCnt == 0 && TotalIs(s, z)
  }

  lemma {:induction false} ZeroFeeds(s: State, z: nat) returns (t: State)
    requires BeforeId(s, z)
    ensures BeforeId(t, z + 1) && Collects(s, ByteBits(0), t) && t.bitCnt == s.bitCnt
  {
    t := ByteArrives(s, 0).0;
    HighByte(0);
    FeedByte(s, 0);
    ByteKeepsTotal(s, z, 0);
    CollectByte(s, 0);
  }

  lemma {:induction false} ZerosFeed(s: State, z: nat, n: nat) returns (t: State)
    requires BeforeId(s, z)
    ensures BeforeId(t, z + n) && Collects(s, PacketBits(Zeros(n)), t)
    decreases n
  {
    if n == 0 {
      t := s;
    } else {
      var v := ZeroFeeds(s, z);
      t := ZerosFeed(v, z + 1, n - 1);
      assert Zeros(n)[1..] == Zeros(n - 1);
      CollectMore(s, ByteBits(0), v, PacketBits(Zeros(n - 1)), t);
    }
  }

  /** The three models and their payloads. */
  predicate KnownId(hi: bv8, lo: bv8, payload: seq<bv8>) {
    || (hi == 0xEA && lo == 0x4C && |payload| == 6)
    || (((hi == 0x0A && lo == 0x4D) || (hi == 0x1A && lo == 0x2D)) && |payload| == 8)
  }

  predicate IsKnown(hi: bv8, lo: bv8) {
    (hi == 0xEA && lo == 0x4C) || (hi == 0x0A && lo == 0x4D) || (hi == 0x1A && lo == 0x2D)
  }

  /** The table says the same. */
  lemma {:induction false} TableOfIds(hi: bv8, lo: bv8)
    ensures LengthOf(IdOf(hi, lo)).Some? <==> IsKnown(hi, lo)
    ensures forall payload: seq<bv8> :: KnownId(hi, lo, payload) ==> LengthOf(IdOf(hi, lo)).value.0 == |payload|
  {
    BytesOfId(hi, lo);
    BytesOfId(0xEA, 0x4C);
    BytesOfId(0x0A, 0x4D);
    BytesOfId(0x1A, 0x2D);
  }

  lemma {:induction false} BytesOfId(hi: bv8, lo: bv8)
    ensures (IdOf(hi, lo) >> 8) as bv8 == hi && (IdOf(hi, lo) & 0xFF) as bv8 == lo
  {
  }

  /** The state after the two bytes of a known id. */
  lemma {:induction false} IdFeeds(s: State, z: nat, hi: bv8, lo: bv8, payload: seq<bv8>) returns (t: State)
    requires BeforeId(s, z) && KnownId(hi, lo, payload)
    ensures Inv(t) && TotalIs(t, z) && t.phase == ParseData && t.byteCnt == 0 && t.id == IdOf(hi, lo)
    ensures t.cnt == 0 && t.length == |payload| && Collects(s, ByteBits(hi) + ByteBits(lo), t)
  {
    var u := FirstIdByte(s, z, hi);
    t := SecondIdByte(u, z, hi, lo);
    CollectMore(s, ByteBits(hi), u, ByteBits(lo), t);
  }

  lemma {:induction false} FirstIdByte(s: State, z: nat, hi: bv8) returns (u: State)
    requires BeforeId(s, z) && hi != 0
    ensures Inv(u) && TotalIs(u, z) && u.phase == ParseId && u.id == (hi as bv16) << 8 && u.id != 0 && u.byteCnt == 0
    ensures Collects(s, ByteBits(hi), u)
  {
    u := ByteArrives(s, hi).0;
    HighByte(hi);
    ByteKeepsTotal(s, z, hi);
    CollectByte(s, hi);
  }

  lemma {:induction false} SecondIdByte(u: State, z: nat, hi: bv8, lo: bv8) returns (t: State)
    requires Inv(u) && TotalIs(u, z) && u.phase == ParseId && u.id == (hi as bv16) << 8 && u.id != 0 && u.byteCnt == 0
    requires LengthOf(IdOf(hi, lo)).Some?
    ensures Inv(t) && TotalIs(t, z) && t.phase == ParseData && t.byteCnt == 0 && t.id == IdOf(hi, lo) && t.cnt == 0
    ensures t.length == LengthOf(IdOf(hi, lo)).value.0 && Collects(u, ByteBits(lo), t)
  {
    t := ByteArrives(u, lo).0;
    ByteKeepsTotal(u, z, lo);
    CollectByte(u, lo);
  }

  /** The bits of a packet behind n zero bytes. */
  function LateBits(n: nat, hi: bv8, lo: bv8, payload: seq<bv8>): seq<bool> {
    PacketBits(Zeros(n)) + (ByteBits(hi) + ByteBits(lo)) + PacketBits(payload)
  }

  /** A whole packet, bit by bit. */
  lemma {:induction false} PacketFeeds(s: State, n: nat, hi: bv8, lo: bv8, payload: seq<bv8>)
    requires BeforeId(s, 0) && KnownId(hi, lo, payload)
    ensures var bits := LateBits(n, hi, lo, payload);
            && FeedBits(s, bits).0.phase == Wait && FeedBits(s, bits).1 == [Message(IdOf(hi, lo), payload)]
            && Listens(s, bits) && |bits| > 1 && (WaivedAtLast(s, bits) <==> n % 32 == 0)
  {
    var t := ZerosFeed(s, 0, n);
    var u := IdFeeds(t, n, hi, lo, payload);
    CollectMore(s, PacketBits(Zeros(n)), t, ByteBits(hi) + ByteBits(lo), u);
    PayloadFollows(s, PacketBits(Zeros(n)) + (ByteBits(hi) + ByteBits(lo)), u, n, payload);
  }

  lemma {:induction false} PayloadFollows(s: State, front: seq<bool>, u: State, z: nat, payload: seq<bv8>)
    requires Inv(s) && Collects(s, front, u) && u.phase == ParseData && TotalIs(u, z)
    requires u.byteCnt == 0 && u.cnt == 0 && |payload| == u.length
    ensures var bits := front + PacketBits(payload);
            && FeedBits(s, bits).0.phase == Wait && FeedBits(s, bits).1 == [Message(u.id, payload)]
            && Listens(s, bits) && |bits| > 1 && (WaivedAtLast(s, bits) <==> z % 32 == 0)
  {
    PacketLength(payload);
    DataListens(u, z, PacketBits(payload));
    PayloadFeeds(u, payload);
    FeedAppend(s, front, u, [], PacketBits(payload));
    ListensAppend(s, front, u, PacketBits(payload));
    NothingAdded(payload);
  }

  // ---------------------------------------------------------------- the whole packet on the air

  /** Long pulses, and then a short one that cannot be taken for a long one. */
  ghost predicate IsCall(longs: seq<Pulse>, trigger: Pulse) {
    && (forall i :: 0 <= i < |longs| ==> IsLong(longs[i]))
    && if trigger.level then 1 <= trigger.count <= 8 else 7 <= trigger.count <= 14
  }

  /** A preamble: enough long pulses, counted in eight bits, and a short one. */
  ghost predicate IsPreamble(c: nat, longs: seq<Pulse>, trigger: Pulse) {
    IsCall(longs, trigger) && Bumps(c, |longs|) > 25
  }

  lemma {:induction false} LongPulses(s: State, longs: seq<Pulse>)
    requires Inv(s) && s.phase == Wait
    requires forall i :: 0 <= i < |longs| ==> IsLong(longs[i])
    ensures StreamRun(s, longs) == (s.(cnt := Bumps(s.cnt, |longs|)), [])
    decreases |longs|
  {
    if longs == [] {
    } else {
      var n := |longs| - 1;
      var t := s.(cnt := Bumps(s.cnt, n));
      LongPulses(s, longs[..n]);
      RunAppend(s, longs[..n], t, [], [longs[n]]);
      RunOne(t, longs[n]);
      assert longs == longs[..n] + [longs[n]];
    }
  }

  /** The short pulse opens the id, with all counters at zero, if and only if the preamble was long enough. */
  lemma {:induction false} PreambleDecides(s: State, longs: seq<Pulse>, trigger: Pulse)
    requires Inv(s) && s.phase == Wait && IsCall(longs, trigger)
    ensures StreamRun(s, longs + [trigger]) ==
            (if IsPreamble(s.cnt, longs, trigger) then s.(phase := ParseId, id := 0, cnt := 0) else s.(cnt := 0), [])
  {
    var t := s.(cnt := Bumps(s.cnt, |longs|));
    LongPulses(s, longs);
    RunAppend(s, longs, t, [], [trigger]);
    RunOne(t, trigger);
  }

  /** While the decoder waits, any other pulse leaves it as it is. */
  lemma {:induction false} OtherPulsesPass(s: State, p: Pulse)
    requires Inv(s) && s.phase == Wait && !IsLong(p) && !IsCall([], p)
    ensures Step(s, p.level, p.count) == (s, None)
  {
  }

  /** The first bit: a short and a long pulse. */
  lemma {:induction false} FirstPulses(s: State, b: bool, pulses: seq<Pulse>)
    requires Inv(s) && s.phase != Wait && s.bitCnt == 0 && |pulses| == 2
    requires Hears(RunLength.Run(!b, 1), false, pulses[0]) && Hears(RunLength.Run(b, 2), false, pulses[1])
    ensures StreamRun(s, pulses) == (var (t, m) := FeedBit(s.(bitCnt := 2), b); (t, Out(m)))
  {
    RunOne(s, pulses[0]);
    LongPulse(s.(bitCnt := 1), b, pulses[1]);
    RunAppend(s, [pulses[0]], s.(bitCnt := 1), [], [pulses[1]]);
    assert pulses == [pulses[0]] + [pulses[1]];
    assert s.(bitCnt := 1).(bitCnt := 2) == s.(bitCnt := 2);
    NothingAdded(StreamRun(s.(bitCnt := 1), [pulses[1]]).1);
  }

  lemma {:induction false} CutHead(b: bool, rest: seq<bool>, pulses: seq<Pulse>)
    requires rest != [] && Heard(Head(b) + Following(b, rest), 0, pulses)
    ensures |pulses| >= 2 && Heard(Following(b, rest), 3, pulses[2..])
    ensures Hears(RunLength.Run(!b, 1), false, pulses[0]) && Hears(RunLength.Run(b, 2), false, pulses[1])
  {
    var head, later := Head(b), Following(b, rest);
    assert later != [];
    assert head + later == [head[0]] + ([head[1]] + later);
    CutBoth(head[0], head[1], later, pulses);
  }

  lemma {:induction false} HeardLevel(runs: seq<Run>, cells: nat, pulses: seq<Pulse>)
    requires Heard(runs, cells, pulses) && runs != []
    ensures pulses[|runs| - 1].level == runs[|runs| - 1].level
  {
    if |runs| > 1 {
      HeardLevel(runs[1..], CellsAfter(cells, runs[0]), pulses[1..]);
    }
  }

  lemma {:induction false} FollowingEnds(b: bool, rest: seq<bool>)
    requires rest != []
    ensures Following(b, rest) != [] && Following(b, rest)[|Following(b, rest)| - 1].level == rest[|rest| - 1]
    decreases rest
  {
    if |rest| > 1 {
      FollowingEnds(rest[0], rest[1..]);
    }
  }

  lemma {:induction false} LastLevel(bits: seq<bool>, pulses: seq<Pulse>)
    requires |bits| > 1 && Heard(PacketRuns(bits), 0, pulses)
    ensures pulses != [] && pulses[|pulses| - 1].level == bits[|bits| - 1]
  {
    FollowingEnds(bits[0], bits[1..]);
    HeardLevel(PacketRuns(bits), 0, pulses);
  }

  lemma {:induction false} PulsesArePacket(s: State, bits: seq<bool>, pulses: seq<Pulse>)
    requires Inv(s) && s.phase != Wait && s.bitCnt == 0 && |bits| > 1 && Heard(PacketRuns(bits), 0, pulses)
    requires Listens(s.(bitCnt := 2), bits)
    ensures pulses != [] && StreamRun(s, pulses) == FeedToLast(s.(bitCnt := 2), bits, pulses[|pulses| - 1])
  {
    var b, rest := bits[0], bits[1..];
    assert bits == [b] + rest;
    FirstOfPacket(s, b, rest, pulses);
    assert pulses == pulses[..2] + pulses[2..];
    RestOfPacket(s, s.(bitCnt := 2), b, rest, pulses[..2], pulses[2..]);
  }

  lemma {:induction false} RestOfPacket(s: State, fed: State, b: bool, rest: seq<bool>, own: seq<Pulse>,
                                        later: seq<Pulse>)
    requires Inv(s) && Inv(fed) && fed.phase != Wait && fed.bitCnt == 2 && rest != [] && Listens(fed, [b] + rest)
    requires StreamRun(s, own) == (var (t, m) := FeedBit(fed, b); (t, Out(m)))
    requires Heard(Following(b, rest), 3, later)
    ensures later != [] && StreamRun(s, own + later) == FeedToLast(fed, [b] + rest, later[|later| - 1])
  {
    FirstListened(fed, b, rest);
    PulsesAreBits(FeedBit(fed, b).0, b, rest, later);
    JoinFeeds(s, fed, b, rest, own, later);
  }

  lemma {:induction false} FirstOfPacket(s: State, b: bool, rest: seq<bool>, pulses: seq<Pulse>)
    requires Inv(s) && s.phase != Wait && s.bitCnt == 0
    requires rest != [] && Heard(Head(b) + Following(b, rest), 0, pulses)
    ensures |pulses| >= 2 && Heard(Following(b, rest), 3, pulses[2..])
    ensures StreamRun(s, pulses[..2]) == (var (t, m) := FeedBit(s.(bitCnt := 2), b); (t, Out(m)))
  {
    CutHead(b, rest, pulses);
    FirstPulses(s, b, pulses[..2]);
  }

  /**
   Whatever the decoder did before, and whatever its byte register holds: let it hear a preamble,
   any number of zero bytes where the id should begin, and then a packet with a known id, each
   pulse in tolerance and the last one of any width. It waits again, and it has sent on exactly
   that id and payload if and only if the last pulse is in tolerance too, or no zero bytes came
   first, or so many that the 8-bit total has gone round.
   */
  lemma {:induction false} ZerosDecide(s: State, longs: seq<Pulse>, trigger: Pulse, n: nat, hi: bv8, lo: bv8,
                                       payload: seq<bv8>, pulses: seq<Pulse>)
    requires Inv(s) && s.phase == Wait && IsPreamble(s.cnt, longs, trigger) && KnownId(hi, lo, payload)
    requires Heard(PacketRuns(LateBits(n, hi, lo, payload)), 0, pulses)
    ensures pulses != [] && StreamRun(s, longs + [trigger] + pulses).0.phase == Wait
    ensures var last := pulses[|pulses| - 1];
            StreamRun(s, longs + [trigger] + pulses).1 ==
            if IsLong(last) || n % 32 == 0 then [Message(IdOf(hi, lo), payload)] else []
  {
    var bits := LateBits(n, hi, lo, payload);
    var open := s.(phase := ParseId, id := 0, cnt := 0);
    PreambleDecides(s, longs, trigger);
    PacketFeeds(open.(bitCnt := 2), n, hi, lo, payload);
    PulsesArePacket(open, bits, pulses);
    LastLevel(bits, pulses);
    LastDecides(open.(bitCnt := 2), bits, pulses[|pulses| - 1]);
    RunAppend(s, longs + [trigger], open, [], pulses);
  }

  /** Without zero bytes in front the last pulse may have any width. */
  lemma {:induction false} DecodesPacket(s: State, longs: seq<Pulse>, trigger: Pulse, hi: bv8, lo: bv8,
                                         payload: seq<bv8>, pulses: seq<Pulse>)
    requires Inv(s) && s.phase == Wait && IsPreamble(s.cnt, longs, trigger) && KnownId(hi, lo, payload)
    requires Heard(PacketRuns(ByteBits(hi) + ByteBits(lo) + PacketBits(payload)), 0, pulses)
    ensures StreamRun(s, longs + [trigger] + pulses).0.phase == Wait
    ensures StreamRun(s, longs + [trigger] + pulses).1 == [Message(IdOf(hi, lo), payload)]
  {
    NothingAdded(ByteBits(hi) + ByteBits(lo));
    ZerosDecide(s, longs, trigger, 0, hi, lo, payload, pulses);
  }

  /** Any other id that begins with a byte that is not zero: nothing is sent on, and the decoder waits again. */
  lemma {:induction false} UnknownIdClears(s: State, longs: seq<Pulse>, trigger: Pulse, n: nat, hi: bv8, lo: bv8,
                                           pulses: seq<Pulse>)
    requires Inv(s) && s.phase == Wait && IsPreamble(s.cnt, longs, trigger) && hi != 0 && !IsKnown(hi, lo)
    requires Heard(PacketRuns(IdBits(n, hi, lo)), 0, pulses)
    ensures StreamRun(s, longs + [trigger] + pulses).0.phase == Wait
    ensures StreamRun(s, longs + [trigger] + pulses).1 == []
  {
    var bits := IdBits(n, hi, lo);
    var open := s.(phase := ParseId, id := 0, cnt := 0);
    PreambleDecides(s, longs, trigger);
    UnknownFeeds(open.(bitCnt := 2), n, hi, lo);
    PulsesArePacket(open, bits, pulses);
    LastDecides(open.(bitCnt := 2), bits, pulses[|pulses| - 1]);
    RunAppend(s, longs + [trigger], open, [], pulses);
  }

  /** The two bytes of an id behind n zero bytes. */
  function IdBits(n: nat, hi: bv8, lo: bv8): (r: seq<bool>)
    ensures |r| > 1
  {
    PacketBits(Zeros(n)) + ByteBits(hi) + ByteBits(lo)
  }

  lemma {:induction false} UnknownFeeds(s: State, n: nat, hi: bv8, lo: bv8)
    requires BeforeId(s, 0) && hi != 0 && !IsKnown(hi, lo)
    ensures var bits := IdBits(n, hi, lo);
            Listens(s, bits) && FeedBits(s, bits).0.phase == Wait && FeedBits(s, bits).1 == []
  {
    var t := ZerosFeed(s, 0, n);
    var u := FirstIdByte(t, n, hi);
    var front := PacketBits(Zeros(n)) + ByteBits(hi);
    CollectMore(s, PacketBits(Zeros(n)), t, ByteBits(hi), u);
    UnknownByte(u, hi, lo);
    FeedAppend(s, front, u, [], ByteBits(lo));
    ListensAppend(s, front, u, ByteBits(lo));
  }

  lemma {:induction false} UnknownByte(u: State, hi: bv8, lo: bv8)
    requires Inv(u) && u.phase == ParseId && u.id == (hi as bv16) << 8 && u.id != 0 && u.byteCnt == 0
    requires !IsKnown(hi, lo)
    ensures Listens(u, ByteBits(lo)) && FeedBits(u, ByteBits(lo)).0.phase == Wait
    ensures FeedBits(u, ByteBits(lo)).1 == []
  {
    TableOfIds(hi, lo);
    FeedByte(u, lo);
    SomeListens(u, ByteBits(lo));
  }

  /** One skipped zero byte, and then a packet: the check of its last bit is not waived. */
  lemma {:induction false} OneZeroIsNotWaived()
    ensures var s := State(ParseId, 2, 0, 0, -1, 0, 0, 0, 0, Zeros(8));
            var bits := ByteBits(0) + (ByteBits(0xEA) + ByteBits(0x4C)) + PacketBits(Zeros(6));
            && Inv(s) && Listens(s, bits) && !WaivedAtLast(s, bits)
            && FeedBits(s, bits).1 == [Message(0xEA4C, Zeros(6))]
  {
    var s := State(ParseId, 2, 0, 0, -1, 0, 0, 0, 0, Zeros(8));
    assert Zeros(1)[1..] == [] && PacketBits([]) == [];
    NothingAdded(ByteBits(0));
    assert PacketBits(Zeros(1)) == ByteBits(0);
    assert IdOf(0xEA, 0x4C) == 0xEA4C;
    PacketFeeds(s, 1, 0xEA, 0x4C, Zeros(6));
  }

  /** The known ids all begin with a byte that is not zero. */
  lemma {:induction false} KnownIdsStartNonZero(hi: bv8, lo: bv8)
    ensures LengthOf(IdOf(hi, lo)).Some? ==> hi != 0
  {
    if hi == 0 {
      NoHighByte(lo);
      var id := IdOf(hi, lo);
      assert id != 0xEA4C && id != 0x0A4D && id != 0x1A2D;
    }
  }

  lemma {:induction false} NoHighByte(lo: bv8)
    ensures IdOf(0, lo) < 0x100
  {
  }
}
