/**
 Single bits of a byte. Bit 0 is the highest one: the first to be shifted in, and the first to be
 taken out by the cursors that walk over the ring with a one-bit mask. Masks are written as a
 table, so that a shift of a mask is a step in it and falls off the byte at either end; shifting a
 bit in moves every other bit by one place. The shifts by one and the fill patterns of the glitch
 filter are stated bit by bit here, so that the modules that use bytes as registers or as parts of
 a ring can speak of sequences of bits alone.
 */
module Bits {

  function Mask(k: nat): bv8
    requires k < 8
  {
    match k
    case 0 => 0x80
    case 1 => 0x40
    case 2 => 0x20
    case 3 => 0x10
    case 4 => 0x08
    case 5 => 0x04
    case 6 => 0x02
    case _ => 0x01
  }

  predicate BitOf(b: bv8, k: nat)
    requires k < 8
  {
    Mask(k) & b != 0
  }

  /** The cursor's shifts move by one position and fall off the byte at its ends. */
  lemma {:induction false} MaskMoves(k: nat)
    requires k < 8
    ensures Mask(k) >> 1 == if k < 7 then Mask(k + 1) else 0
    ensures Mask(k) << 1 == if k > 0 then Mask(k - 1) else 0
  {
  }

  /** Shifting a bit in at the low end. */
  lemma {:induction false} ShiftIn(b: bv8, k: nat)
    requires k < 8
    ensures BitOf(b << 1, k) == (k < 7 && BitOf(b, k + 1))
    ensures BitOf((b << 1) | 1, k) == (k == 7 || BitOf(b, k + 1))
    ensures BitOf((b << 1) | 7, k) == (k >= 5 || BitOf(b, k + 1))
  {
  }

  lemma {:induction false} ZeroByte(k: nat)
    requires k < 8
    ensures !BitOf(0, k)
  {
  }
}
