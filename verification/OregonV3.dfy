/**
 The Oregon v3 decoder of rf/oregonv3.c: preamble, sync, and a biphase code read in half-bit
 times, with the nibbles of each byte swapped. What one pulse does is a function of the static
 variables; the class Decoder computes it on these variables, statement by statement. The lemmas
 are about all histories: how the counters of bits, nibbles, bytes and half times go together,
 and how long a payload can get.
 */
module OregonV3 {
  import opened Options
  import opened Bits
  import opened Pulses

  datatype Phase = Preamble | Sync | ParseId | ParsePayload

  /** The 16-bit id by its bytes. */
  datatype Id = Id(hi: bv8, lo: bv8)

  datatype Message = Message(model: Id, data: seq<bv8>)

  const ZERO := Id(0, 0)

  /** The static variables of the file; the payload is the filled part of bufferV3. */
  datatype State = State(
    phase: Phase, halfTime: nat, syncCount: nat, byteCnt: nat, nibble: nat, byte: bv8,
    id: Id, expected: int, payload: seq<bv8>)

  datatype BitResult = Invalid | MoreData | Bit(b: bool)

  predicate Small(x: nat) { 6 <= x <= 11 }

  predicate Big(x: nat) { 14 <= x <= 21 }

  predicate EndSilence(x: nat) { x > 30 }

  /** halfTime is a 16-bit counter. */
  function Add16(n: nat, k: nat): nat {
    if n + k >= 0x1_0000 then n + k - 0x1_0000 else n + k
  }

  function Width(level: bool, count: nat): nat
    requires count < 256
  {
    if level then Bump(count) else if count == 0 then 255 else count - 1
  }

  /** `clearOregonV3`. */
  function Clear(s: State): State {
    s.(phase := Preamble, syncCount := 0, halfTime := 0, byteCnt := 0, nibble := 0)
  }

  /** `oregonBitV3`. */
  function BitStep(halfTime: nat, level: bool, width: nat): (nat, BitResult) {
    if Big(width) then
      if halfTime % 2 == 1 then (halfTime, Invalid) else (Add16(halfTime, 2), Bit(level))
    else if Small(width) then
      var h := Add16(halfTime, 1);
      (h, if h % 2 == 0 then Bit(level) else MoreData)
    else (halfTime, Invalid)
  }

  /** The mask 1 << nibble. */
  function NibbleMask(n: nat): bv8
    requires n < 8
  {
    Mask(7 - n)
  }

  /** One bit into the byte register: lowest first in each nibble, the first nibble moving up. */
  function Assemble(byte: bv8, nibble: nat, b: bool): bv8
    requires nibble <= 4
  {
    var shifted := if nibble == 4 then byte << 4 else byte;
    var n := if nibble == 4 then 0 else nibble;
    if b then shifted | NibbleMask(n) else shifted
  }

  function PayloadLength(id: Id): Option<nat> {
    if id == Id(0xF8, 0x24) || id == Id(0xF8, 0xB4) then Some(7)
    else if id == Id(0xD8, 0x74) || id == Id(0xC8, 0x44) then Some(5)
    else if id == Id(0x19, 0x84) || id == Id(0x19, 0x94) then Some(8)
    else if id == Id(0x5D, 0x60) then Some(9)
    else if id == Id(0x29, 0x14) then Some(8)
    else if id == Id(0x2D, 0x10) then Some(7)
    else None
  }

  /** The switch over the ids; an unknown one has no expected length. */
  function ExpectedLength(id: Id): int {
    var length := PayloadLength(id);
    if length.Some? then length.value else -1
  }

  /** A complete byte while the id is read; a zero byte leaves id zero. */
  function IdByte(s: State, byte: bv8): State {
    if s.id == ZERO then s.(id := Id(byte, 0))
    else
      var id := s.id.(lo := s.id.lo | byte);
      s.(id := id, expected := ExpectedLength(id), phase := ParsePayload, payload := [])
  }

  /** A byte is added to the payload, with `expected` bytes then still to come. */
  function PayloadByte(s: State, byte: bv8, expected: int): (State, Option<Message>) {
    var t := s.(payload := s.payload + [byte], expected := expected);
    if expected == 0 then (Clear(t), Some(Message(t.id, t.payload)))
    else if t.halfTime > 400 then (Clear(t), None)
    else (t, None)
  }

  /** A decoded bit on its way through `oregonByteV3` and `streamOregonV3`. */
  function FeedBit(s: State, b: bool): (State, Option<Message>)
    requires s.nibble <= 4
  {
    var byte := Assemble(if s.byteCnt == 0 then 0 else s.byte, s.nibble, b);
    var t := s.(byte := byte, byteCnt := s.byteCnt + 1, nibble := (if s.nibble == 4 then 0 else s.nibble) + 1);
    if t.byteCnt < 8 then (t, None)
    else
      var u := t.(byteCnt := 0, nibble := 0);
      if s.phase == ParsePayload then PayloadByte(u, byte, s.expected - 1) else (IdByte(u, byte), None)
  }

  /** No bit: a payload of unknown length may end in silence; everything else is an error. */
  function InvalidPulse(s: State, level: bool, width: nat): (State, Option<Message>) {
    if s.phase == ParsePayload && s.expected < 0 && !level && s.halfTime / 2 > 55 && EndSilence(width)
    then PayloadByte(s, 0, 0)
    else (Clear(s), None)
  }

  function PreambleStep(s: State, width: nat): State {
    if Small(width) then s.(syncCount := Bump(s.syncCount))
    else if Big(width) && s.syncCount > 20 then s.(phase := Sync, syncCount := 3)
    else Clear(s)
  }

  function SyncStep(s: State, width: nat): State
    requires s.syncCount > 0
  {
    if !Big(width) then Clear(s)
    else if s.syncCount == 1 then s.(syncCount := 0, id := ZERO, phase := ParseId)
    else s.(syncCount := s.syncCount - 1)
  }

  /** What `streamOregonV3` does with one pulse. */
  function Step(s: State, level: bool, count: nat): (State, Option<Message>)
    requires Inv(s) && count < 256
  {
    var width := Width(level, count);
    match s.phase
    case Preamble => (PreambleStep(s, width), None)
    case Sync => (SyncStep(s, width), None)
    case _ => DataStep(s, level, width)
  }

  /** A pulse of the id or the payload. */
  function DataStep(s: State, level: bool, width: nat): (State, Option<Message>)
    requires s.nibble <= 4
  {
    var (halfTime, result) := BitStep(s.halfTime, level, width);
    var t := s.(halfTime := halfTime, byte := if s.byteCnt == 0 then 0 else s.byte);
    match result
    case Invalid => InvalidPulse(t, level, width)
    case MoreData => (t, None)
    case Bit(b) => FeedBit(t, b)
  }

  /**
   What every history keeps: nothing counted before the id, the nibble position following the
   bit count, the bytes read and expected adding up to the length of a known id, and halfTime
   following the bits of the payload.
   */
  predicate Inv(s: State) {
    && s.byteCnt < 8 && s.nibble == (if s.byteCnt <= 4 then s.byteCnt else s.byteCnt - 4)
    && s.halfTime < 0x1_0000 && s.syncCount < 256
    && match s.phase
       case Preamble => s.halfTime == 0 && s.byteCnt == 0
       case Sync => s.halfTime == 0 && s.byteCnt == 0 && 1 <= s.syncCount <= 3
       case ParseId => true
       case ParsePayload =>
         && (s.payload != [] ==> HalfTimeFits(|s.payload|, s.byteCnt, s.halfTime))
         && match PayloadLength(s.id)
            case Some(length) => s.expected > 0 && s.expected + |s.payload| == length
            case None => s.expected == -1 - |s.payload|
  }

  /**
   Two half times for each bit since the first byte of the payload, and no more than 400 when
   the last byte was complete. Up to that first byte halfTime is unknown: it goes on counting,
   and wraps, while zero bytes are skipped where an id is expected.
   */
  predicate HalfTimeFits(bytes: nat, bits: nat, halfTime: nat)
    requires bytes > 0
  {
    16 * (bytes - 1) + 2 * bits <= halfTime <= 401 + 2 * bits
  }

  /** The half times of one more bit: two from a boundary or one from between two. */
  predicate BitTaken(before: nat, after: nat) {
    after == Add16(before, 2) || (before % 2 == 1 && after == Add16(before, 1))
  }

  lemma {:induction false} IdKeepsInv(s: State, byte: bv8)
    requires Inv(s) && s.phase == ParseId && s.byteCnt == 0
    ensures Inv(IdByte(s, byte)) && IdByte(s, byte).halfTime == s.halfTime
  {
    var length := PayloadLength(s.id.(lo := s.id.lo | byte));
    assert length.Some? ==> 5 <= length.value <= 9;
  }

  lemma {:induction false} BitFits(bytes: nat, bits: nat, before: nat, after: nat)
    requires bytes > 0 && bits < 8 && HalfTimeFits(bytes, bits, before) && BitTaken(before, after)
    ensures HalfTimeFits(bytes, bits + 1, after)
  {
    assert (16 * (bytes - 1) + 2 * bits) % 2 == 0;
  }

  /** A byte of the payload is complete, its half times counted. */
  lemma {:induction false} PayloadKeepsInv(s: State, byte: bv8)
    requires s.phase == ParsePayload && s.byteCnt == 0 && s.nibble == 0 && s.halfTime < 0x1_0000 && s.syncCount < 256
    requires s.payload != [] ==> 16 * |s.payload| <= s.halfTime
    requires match PayloadLength(s.id)
             case Some(length) => s.expected > 0 && s.expected + |s.payload| == length
             case None => s.expected == -1 - |s.payload|
    ensures Inv(PayloadByte(s, byte, s.expected - 1).0)
  {
  }

  lemma {:induction false} FeedKeepsInv(s: State, halfTime: nat, b: bool)
    requires Inv(s) && (s.phase == ParseId || s.phase == ParsePayload) && BitTaken(s.halfTime, halfTime)
    ensures Inv(FeedBit(s.(halfTime := halfTime), b).0)
  {
    var u := s.(byte := Assemble(if s.byteCnt == 0 then 0 else s.byte, s.nibble, b), byteCnt := 0, nibble := 0,
                halfTime := halfTime);
    if s.phase == ParsePayload && s.payload != [] {
      BitFits(|s.payload|, s.byteCnt, s.halfTime, halfTime);
    }
    if s.byteCnt == 7 {
      if s.phase == ParsePayload {
        PayloadKeepsInv(u, u.byte);
      } else {
        IdKeepsInv(u, u.byte);
      }
    }
  }

  lemma {:induction false} StepKeepsInv(s: State, level: bool, count: nat)
    requires Inv(s) && count < 256
    ensures Inv(Step(s, level, count).0)
  {
    if s.phase == ParseId || s.phase == ParsePayload {
      DataKeepsInv(s, level, Width(level, count));
    }
  }

  lemma {:induction false} DataKeepsInv(s: State, level: bool, width: nat)
    requires Inv(s) && (s.phase == ParseId || s.phase == ParsePayload)
    ensures Inv(DataStep(s, level, width).0)
  {
    var (halfTime, result) := BitStep(s.halfTime, level, width);
    if result.Bit? {
      FeedKeepsInv(s.(byte := if s.byteCnt == 0 then 0 else s.byte), halfTime, result.b);
    }
  }

  /** A known id never fills more than the nine bytes of the buffer. */
  lemma {:induction false} KnownIdsFitTheBuffer(s: State)
    requires Inv(s) && s.phase == ParsePayload && PayloadLength(s.id).Some?
    ensures |s.payload| < PayloadLength(s.id).value <= 9
  {
  }

  /** An unknown one is stopped by the limit on halfTime: its expected length stays a signed byte. */
  lemma {:induction false} UnknownIdsEnd(s: State)
    requires Inv(s) && s.phase == ParsePayload
    ensures |s.payload| <= 26 && -27 <= s.expected <= 9
  {
  }

  // ---------------------------------------------------------------- the C functions

  class Decoder {
    var phase: Phase
    var halfTime: nat
    var preambleSyncCount: nat
    var byteCnt: nat
    var nibblePosition: nat
    var byte: bv8
    var id: Id
    var expectedPayloadLength: int
    var payload: seq<bv8>
    var sent: seq<Message>  // what went through rfMessage

    function Current(): State
      reads this
    {
      State(phase, halfTime, preambleSyncCount, byteCnt, nibblePosition, byte, id, expectedPayloadLength, payload)
    }

    constructor ()
      ensures Inv(Current()) && phase == Preamble && sent == []
    {
      phase, halfTime, preambleSyncCount, byteCnt, nibblePosition := Preamble, 0, 0, 0, 0;
      byte, id, expectedPayloadLength, payload, sent := 0, ZERO, -1, [], [];
    }

    method ClearOregonV3()
      modifies this
      ensures Current() == Clear(old(Current())) && sent == old(sent)
    {
      phase := Preamble;
      preambleSyncCount := 0;
      halfTime := 0;
      byteCnt := 0;
      nibblePosition := 0;
    }

    method OregonBit(level: bool, width: nat) returns (r: BitResult)
      modifies this`halfTime
      ensures var step := BitStep(old(halfTime), level, width); halfTime == step.0 && r == step.1
    {
      if Big(width) {
        if halfTime % 2 == 1 {
          return Invalid;
        }
        halfTime := Add16(halfTime, 2);
        return Bit(level);
      }
      if Small(width) {
        halfTime := Add16(halfTime, 1);
        if halfTime % 2 == 0 {
          return Bit(level);
        }
        return MoreData;
      }
      return Invalid;
    }

    /** `oregonByteV3`. */
    method OregonByte(level: bool, width: nat) returns (invalid: bool, complete: bool)
      requires byteCnt < 8 && nibblePosition <= 4
      modifies this`halfTime, this`byte, this`byteCnt, this`nibblePosition
      ensures var step := BitStep(old(halfTime), level, width);
              var reg := if old(byteCnt) == 0 then 0 else old(byte);
              && halfTime == step.0 && invalid == step.1.Invalid?
              && byte == (if step.1.Bit? then Assemble(reg, old(nibblePosition), step.1.b) else reg)
              && complete == (step.1.Bit? && old(byteCnt) == 7)
              && (if !step.1.Bit? then byteCnt == old(byteCnt) && nibblePosition == old(nibblePosition)
                  else if complete then byteCnt == 0 && nibblePosition == 0
                  else byteCnt == old(byteCnt) + 1 &&
                       nibblePosition == (if old(nibblePosition) == 4 then 0 else old(nibblePosition)) + 1)
    {
      var r := OregonBit(level, width);
      if byteCnt == 0 {
        byte := 0;
      }
      if !r.Bit? {
        return r.Invalid?, false;
      }
      if nibblePosition == 4 {
        byte := byte << 4;
        nibblePosition := 0;
      }
      if r.b {
        byte := byte | NibbleMask(nibblePosition);
      }
      byteCnt := byteCnt + 1;
      nibblePosition := nibblePosition + 1;
      if byteCnt < 8 {
        return false, false;
      }
      byteCnt := 0;
      nibblePosition := 0;
      return false, true;
    }

    method StreamHeader(width: nat)
      requires phase == Preamble || (phase == Sync && preambleSyncCount > 0)
      modifies this
      ensures Current() ==
              if old(phase) == Preamble then PreambleStep(old(Current()), width) else SyncStep(old(Current()), width)
      ensures sent == old(sent)
    {
      if phase == Preamble {
        if Small(width) {
          preambleSyncCount := Bump(preambleSyncCount);
          return;
        }
        if Big(width) && preambleSyncCount > 20 {
          phase := Sync;
          preambleSyncCount := 3;
          return;
        }
        ClearOregonV3();
        return;
      }
      if Big(width) {
        preambleSyncCount := preambleSyncCount - 1;
        if preambleSyncCount == 0 {
          id := ZERO;
          phase := ParseId;
        }
        return;
      }
      ClearOregonV3();
    }

    method StreamIdByte()
      requires phase == ParseId
      modifies this
      ensures Current() == IdByte(old(Current()), old(byte)) && sent == old(sent)
    {
      if id == ZERO {
        id := Id(byte, 0);  // id = byte << 8
      } else {
        id := id.(lo := id.lo | byte);  // id |= byte
        expectedPayloadLength := ExpectedLength(id);
        phase := ParsePayload;
        payload := [];
      }
    }

    method StreamPayloadByte(b: bv8)
      modifies this
      ensures var step := PayloadByte(old(Current()), b, old(expectedPayloadLength));
              Current() == step.0 && sent == old(sent) + (if step.1.Some? then [step.1.value] else [])
    {
      payload := payload + [b];
      if expectedPayloadLength == 0 {
        ClearOregonV3();
        sent := sent + [Message(id, payload)];
        return;
      }
      if halfTime > 400 {
        ClearOregonV3();
      }
    }

    /** `streamOregonV3`. */
    method Stream(level: bool, count: nat)
      requires Inv(Current()) && count < 256
      modifies this
      ensures var step := Step(old(Current()), level, count);
              Current() == step.0 && sent == old(sent) + (if step.1.Some? then [step.1.value] else [])
      ensures Inv(Current())
    {
      StepKeepsInv(Current(), level, count);
      var width := Width(level, count);
      if phase == Preamble || phase == Sync {
        StreamHeader(width);
      } else {
        StreamData(level, width);
      }
    }

    method StreamData(level: bool, width: nat)
      requires (phase == ParseId || phase == ParsePayload) && byteCnt < 8 && nibblePosition <= 4
      modifies this
      ensures var step := DataStep(old(Current()), level, width);
              Current() == step.0 && sent == old(sent) + (if step.1.Some? then [step.1.value] else [])
    {
      var invalid, complete := OregonByte(level, width);
      if invalid {
        if phase == ParsePayload && expectedPayloadLength < 0 && !level && halfTime / 2 > 55 && EndSilence(width) {
          expectedPayloadLength := 0;
          StreamPayloadByte(0);
        } else {
          ClearOregonV3();
        }
      } else if complete {
        if phase == ParseId {
          StreamIdByte();
        } else {
          expectedPayloadLength := expectedPayloadLength - 1;
          StreamPayloadByte(byte);
        }
      }
    }
  }
}
