/**
 The 512-byte sample ring of rf/receive.c and the cursors that walk over it one bit at a time,
 forwards while scanning and backwards while parsing. The methods work on a byte index and a
 one-bit mask; the positions that these stand for are those of the bits of an endless stream.
 */
module Ring {
  import opened Bits

  const DATA_BYTES := 512

  /** A cursor: a byte of the ring and a bit of that byte, highest bit first. */
  datatype Pos = Pos(p: nat, k: nat)

  predicate IsPos(pos: Pos) {
    pos.p < DATA_BYTES && pos.k < 8
  }

  predicate IsRing(ring: seq<bv8>) {
    |ring| == DATA_BYTES
  }

  predicate BitAt(ring: seq<bv8>, pos: Pos)
    requires IsRing(ring) && IsPos(pos)
  {
    BitOf(ring[pos.p], pos.k)
  }

  function Advance(pos: Pos): (r: Pos)
    requires IsPos(pos)
    ensures IsPos(r)
  {
    if pos.k < 7 then Pos(pos.p, pos.k + 1)
    else Pos(if pos.p == DATA_BYTES - 1 then 0 else pos.p + 1, 0)
  }

  function Retreat(pos: Pos): (r: Pos)
    requires IsPos(pos)
    ensures IsPos(r)
  {
    if pos.k > 0 then Pos(pos.p, pos.k - 1)
    else Pos(if pos.p == 0 then DATA_BYTES - 1 else pos.p - 1, 7)
  }

  /** On the 4096 positions of the ring the two walks undo each other. */
  lemma {:induction false} RetreatUndoesAdvance(pos: Pos)
    requires IsPos(pos)
    ensures Retreat(Advance(pos)) == pos && Advance(Retreat(pos)) == pos
  {
  }

  /** The cursor as the C code holds it. */
  ghost predicate Points(scanP: nat, scanBit: bv8, pos: Pos) {
    IsPos(pos) && scanP == pos.p && scanBit == Mask(pos.k)
  }

  /** `rfRetreatBit`: the cursor as the C code holds it, a byte index and a one-bit mask. */
  method RetreatBit(scanP: nat, scanBit: bv8, ghost pos: Pos) returns (p: nat, b: bv8)
    requires Points(scanP, scanBit, pos)
    ensures Points(p, b, Retreat(pos))
  {
    MaskMoves(pos.k);
    p, b := scanP, scanBit << 1;
    if b == 0 {
      b := 1;
      if p == 0 {
        p := DATA_BYTES;
      }
      p := p - 1;
    }
  }

  /** The advance written out in `rfReceiveTask`. */
  method AdvanceBit(scanP: nat, scanBit: bv8, ghost pos: Pos) returns (p: nat, b: bv8)
    requires Points(scanP, scanBit, pos)
    ensures Points(p, b, Advance(pos))
  {
    MaskMoves(pos.k);
    p, b := scanP, scanBit >> 1;
    if b == 0 {
      b := 0x80;
      p := p + 1;
      if p == DATA_BYTES {
        p := 0;
      }
    }
  }

  // ---------------------------------------------------------------- counting backwards

  /** Counting on from `pos`, `count` similar bits already behind. */
  function CountOn(ring: seq<bv8>, pos: Pos, test: bool, count: nat): (r: (nat, Pos))
    requires IsRing(ring) && IsPos(pos) && count < 255
    ensures IsPos(r.1) && r.0 <= 255
    decreases 255 - count
  {
    var q := Retreat(pos);
    if BitAt(ring, q) != test then (count + 1, q)
    else if count + 1 == 255 then (0, q)
    else CountOn(ring, q, test, count + 1)
  }

  /** What one `rfCountSimilar` returns and where it leaves the cursor. */
  function CountAt(ring: seq<bv8>, pos: Pos): (r: (nat, Pos))
    requires IsRing(ring) && IsPos(pos)
    ensures IsPos(r.1) && r.0 <= 255
  {
    CountOn(ring, pos, BitAt(ring, pos), 0)
  }

  /** The results of n calls in a row. */
  function Counts(ring: seq<bv8>, pos: Pos, n: nat): (r: seq<nat>)
    requires IsRing(ring) && IsPos(pos)
    ensures |r| == n
    decreases n, |ring|
  {
    if n == 0 then [] else [CountAt(ring, pos).0] + Counts(ring, CountAt(ring, pos).1, n - 1)
  }

  /** The cursor after n calls. */
  function PosAfter(ring: seq<bv8>, pos: Pos, n: nat): (r: Pos)
    requires IsRing(ring) && IsPos(pos)
    ensures IsPos(r)
    decreases n, |ring|
  {
    if n == 0 then pos else PosAfter(ring, CountAt(ring, pos).1, n - 1)
  }

  /** The n-th call continues where the first n left the cursor. */
  lemma {:induction false} NextCount(ring: seq<bv8>, pos: Pos, n: nat, total: nat)
    requires IsRing(ring) && IsPos(pos) && n < total
    ensures CountAt(ring, PosAfter(ring, pos, n)).0 == Counts(ring, pos, total)[n]
    ensures CountAt(ring, PosAfter(ring, pos, n)).1 == PosAfter(ring, pos, n + 1)
    decreases n
  {
    var q := CountAt(ring, pos).1;
    var later := Counts(ring, q, total - 1);
    assert Counts(ring, pos, total) == [CountAt(ring, pos).0] + later;
    if n == 0 {
      assert PosAfter(ring, q, 0) == q;
    } else {
      NextCount(ring, q, n - 1, total - 1);
      assert PosAfter(ring, pos, n + 1) == PosAfter(ring, q, n);
    }
  }

  method GetBit(ring: seq<bv8>, scanP: nat, scanBit: bv8, ghost pos: Pos) returns (b: bool)
    requires IsRing(ring) && Points(scanP, scanBit, pos)
    ensures b == BitAt(ring, pos)
  {
    b := scanBit & ring[scanP] != 0;
  }

  /** `rfCountSimilar`, loop for loop. */
  method CountSimilar(ring: seq<bv8>, scanP: nat, scanBit: bv8, ghost pos: Pos)
    returns (count: nat, p: nat, b: bv8)
    requires IsRing(ring) && Points(scanP, scanBit, pos)
    ensures count == CountAt(ring, pos).0 && Points(p, b, CountAt(ring, pos).1)
  {
    ghost var q := pos;
    p, b, count := scanP, scanBit, 0;
    var test := GetBit(ring, p, b, q);
    while true
      invariant count < 255 && Points(p, b, q)
      invariant CountOn(ring, q, test, count) == CountAt(ring, pos)
      decreases 255 - count
    {
      count := count + 1;
      p, b := RetreatBit(p, b, q);
      q := Retreat(q);
      var bit := GetBit(ring, p, b, q);
      if bit != test {
        return count, p, b;
      }
      if count == 255 {
        return 0, p, b;
      }
    }
  }

  /** One `rfCountSimilar`, as the k-th of a list of counts. */
  method CountNext(ring: seq<bv8>, scanP: nat, scanBit: bv8, ghost start: Pos, ghost k: nat, ghost total: nat)
    returns (count: nat, p: nat, b: bv8)
    requires IsRing(ring) && IsPos(start) && k < total && Points(scanP, scanBit, PosAfter(ring, start, k))
    ensures count == Counts(ring, start, total)[k] && Points(p, b, PosAfter(ring, start, k + 1))
  {
    NextCount(ring, start, k, total);
    count, p, b := CountSimilar(ring, scanP, scanBit, PosAfter(ring, start, k));
  }

  /** The next four counts. */
  method CountFour(ring: seq<bv8>, scanP: nat, scanBit: bv8, ghost start: Pos, ghost k: nat, ghost total: nat)
    returns (b1: nat, b2: nat, b3: nat, b4: nat, p: nat, b: bv8)
    requires IsRing(ring) && IsPos(start) && k + 4 <= total && Points(scanP, scanBit, PosAfter(ring, start, k))
    ensures var counts := Counts(ring, start, total);
            b1 == counts[k] && b2 == counts[k + 1] && b3 == counts[k + 2] && b4 == counts[k + 3]
    ensures Points(p, b, PosAfter(ring, start, k + 4))
  {
    b1, p, b := CountNext(ring, scanP, scanBit, start, k, total);
    b2, p, b := CountNext(ring, p, b, start, k + 1, total);
    b3, p, b := CountNext(ring, p, b, start, k + 2, total);
    b4, p, b := CountNext(ring, p, b, start, k + 3, total);
  }

  /** Most parsers step back onto the last pulse and skip it. */
  method SkipLast(ring: seq<bv8>, scanP: nat, scanBit: bv8, ghost pos: Pos) returns (p: nat, b: bv8)
    requires IsRing(ring) && Points(scanP, scanBit, pos)
    ensures Points(p, b, AfterLast(ring, pos))
  {
    p, b := RetreatBit(scanP, scanBit, pos);
    var skipped;
    skipped, p, b := CountSimilar(ring, p, b, Retreat(pos));
  }

  /** Where counting starts when the last pulse is skipped. */
  function AfterLast(ring: seq<bv8>, pos: Pos): (r: Pos)
    requires IsRing(ring) && IsPos(pos)
    ensures IsPos(r)
  {
    CountAt(ring, Retreat(pos)).1
  }

  // ---------------------------------------------------------------- the ring and the bit stream

  /** The ring byte that holds byte w of the stream. */
  function Slot(w: nat): (r: nat)
    ensures r < DATA_BYTES
  {
    w % DATA_BYTES
  }

  lemma {:induction false} SlotNext(w: nat)
    ensures Slot(w + 1) == if Slot(w) == DATA_BYTES - 1 then 0 else Slot(w) + 1
  {
  }

  lemma {:induction false} SlotDistinct(v: nat, w: nat)
    requires v < w < v + DATA_BYTES
    ensures Slot(v) != Slot(w)
  {
    assert Slot(v) == v - 512 * (v / 512);
    assert Slot(w) == w - 512 * (w / 512);
  }

  predicate ByteMatches(ring: seq<bv8>, stream: seq<bool>, w: nat)
    requires IsRing(ring) && 8 * w + 8 <= |stream|
  {
    forall k :: 0 <= k < 8 ==> BitOf(ring[Slot(w)], k) == stream[8 * w + k]
  }

  /** The ring holds the last 512 of the `written` completed bytes of the stream. */
  ghost predicate Holds(ring: seq<bv8>, stream: seq<bool>, written: nat) {
    && IsRing(ring) && 8 * written <= |stream|
    && forall w :: 0 <= w < written < w + DATA_BYTES + 1 ==> ByteMatches(ring, stream, w)
  }

  lemma {:induction false} HoldsOnAppend(ring: seq<bv8>, stream: seq<bool>, written: nat, b: bool)
    requires Holds(ring, stream, written)
    ensures Holds(ring, stream + [b], written)
  {
    forall w | 0 <= w < written < w + DATA_BYTES + 1 ensures ByteMatches(ring, stream + [b], w) {
      assert ByteMatches(ring, stream, w);
    }
  }

  lemma {:induction false} HoldsOnWrite(ring: seq<bv8>, stream: seq<bool>, written: nat, byte: bv8)
    requires Holds(ring, stream, written) && |stream| == 8 * written + 8
    requires forall k :: 0 <= k < 8 ==> BitOf(byte, k) == stream[8 * written + k]
    ensures Holds(ring[Slot(written) := byte], stream, written + 1)
  {
    var next := ring[Slot(written) := byte];
    forall w | 0 <= w < written + 1 < w + DATA_BYTES + 1 ensures ByteMatches(next, stream, w) {
      if w < written {
        SlotDistinct(w, written);
        assert ByteMatches(ring, stream, w);
      }
    }
  }

  /** The position of bit i of the stream: so many steps from the start. */
  function PosOf(i: nat): (r: Pos)
    ensures IsPos(r)
  {
    if i == 0 then Pos(0, 0) else Advance(PosOf(i - 1))
  }

  lemma {:induction false} PosAdvances(i: nat)
    ensures PosOf(i + 1) == Advance(PosOf(i))
    ensures Retreat(PosOf(i + 1)) == PosOf(i)
  {
    RetreatUndoesAdvance(PosOf(i));
  }

  lemma {:induction false} OneBefore(end: nat)
    requires end >= 1
    ensures Retreat(PosOf(end)) == PosOf(end - 1)
  {
    PosAdvances(end - 1);
  }

  /** It lies in the slot of its byte. */
  lemma {:induction false} PosParts(w: nat, k: nat)
    requires k < 8
    ensures PosOf(8 * w + k) == Pos(Slot(w), k)
    decreases w, k
  {
    if k > 0 {
      PosParts(w, k - 1);
    } else if w > 0 {
      PosParts(w - 1, 7);
      SlotNext(w - 1);
    }
  }

  lemma {:induction false} HeldBit(ring: seq<bv8>, stream: seq<bool>, written: nat, i: nat)
    requires Holds(ring, stream, written) && i < 8 * written <= i + 8 * DATA_BYTES
    ensures BitAt(ring, PosOf(i)) == stream[i]
  {
    var w, k := i / 8, i % 8;
    PosParts(w, k);
    assert ByteMatches(ring, stream, w);
  }
}
