/**
 The decoder of rf/oregon.c: three nested state machines that turn pulses into bits, bits into
 bytes, and bytes into a packet.
 */
module Oregon {
  import opened Options
  import opened Pulses

  datatype Phase = Wait | ParseId | ParseData

  /** The message sent on for a packet. */
  datatype Message = Message(model: bv16, data: seq<bv8>)

  /** The static variables of the file. */
  datatype State = State(
    phase: Phase, bitCnt: nat, byteCnt: nat, totByteCnt: nat, byteLength: int, byte: bv8,
    cnt: nat, id: bv16, length: nat, buffer: seq<bv8>)

  datatype BitResult = Invalid | MoreData | Bit(b: bool)

  predicate Big(x: nat) { 12 <= x <= 22 }

  predicate Small(x: nat) { 4 <= x <= 13 }

  /** `count += 3` on a high pulse, `count -= 3` on a low one, in 8 bits. */
  function Width(level: bool, count: nat): nat
    requires count < 256
  {
    if level then (if count + 3 >= 256 then count + 3 - 256 else count + 3)
    else (if count < 3 then count + 253 else count - 3)
  }

  /** `clearOregon`; it leaves cnt, id, length, the byte and the buffer alone. */
  function Clear(s: State): State {
    s.(phase := Wait, bitCnt := 0, byteCnt := 0, totByteCnt := 0, byteLength := -1)
  }

  /** `oregonBit`: the next bitCnt and what is known of the bit. */
  function BitStep(s: State, level: bool, width: nat): (nat, BitResult) {
    if s.bitCnt == 0 then
      if Small(width) then (1, MoreData) else (0, Invalid)
    else if s.bitCnt == 1 then
      if Big(width) || s.totByteCnt == s.byteLength then (2, Bit(level)) else (0, Invalid)
    else if level && Small(width) then (0, MoreData)
    else if Big(width) then (1, MoreData)
    else if Small(width) then (0, MoreData)
    else (s.bitCnt, MoreData)
  }

  /** The byte register: bits come in lowest first. */
  function ShiftDown(byte: bv8, b: bool): bv8 {
    if b then (byte >> 1) | 0x80 else byte >> 1
  }

  function LengthOf(id: bv16): Option<(nat, int)> {
    if id == 0xEA4C then Some((6, 63))
    else if id == 0x0A4D || id == 0x1A2D then Some((8, 79))
    else None
  }

  /** The switch over the ids: what follows has the length of the id, if it is known. */
  function Identified(s: State): State {
    match LengthOf(s.id)
    case Some((length, last)) => s.(length := length, byteLength := last, phase := ParseData, cnt := 0)
    case None => Clear(s)
  }

  /** A complete byte while the id is read. A zero byte leaves id zero, as if nothing had come. */
  function IdByte(s: State, byte: bv8): State {
    if s.id == 0 then s.(id := (byte as bv16) << 8) else Identified(s.(id := s.id | (byte as bv16)))
  }

  /** A complete byte of the payload. */
  function DataByte(s: State, byte: bv8): (State, Option<Message>)
    requires s.cnt < |s.buffer| && s.length > 0
  {
    var t := s.(buffer := s.buffer[s.cnt := byte], cnt := s.cnt + 1, length := s.length - 1);
    if t.length == 0 then (Clear(t), Some(Message(t.id, t.buffer[..t.cnt]))) else (t, None)
  }

  /** `oregonByte` on a decoded bit: the eighth completes a byte. */
  function ShiftIn(s: State, b: bool): State {
    s.(byte := ShiftDown(s.byte, b), totByteCnt := Bump(s.totByteCnt),
       byteCnt := if s.byteCnt == 7 then 0 else s.byteCnt + 1)
  }

  /** What `streamOregon` does with a complete byte. */
  function TakeByte(s: State): (State, Option<Message>)
    requires s.phase == ParseData ==> s.cnt < |s.buffer| && s.length > 0
  {
    if s.phase == ParseData then DataByte(s, s.byte) else (IdByte(s, s.byte), None)
  }

  /** A decoded bit on its way through both. */
  function FeedBit(s: State, b: bool): (State, Option<Message>)
    requires s.phase == ParseData ==> s.cnt < |s.buffer| && s.length > 0
  {
    if s.byteCnt == 7 then TakeByte(ShiftIn(s, b)) else (ShiftIn(s, b), None)
  }

  function WaitStep(s: State, width: nat): State {
    if Big(width) then s.(cnt := Bump(s.cnt))
    else if Small(width) then
      if s.cnt > 25 then s.(phase := ParseId, id := 0, cnt := 0) else s.(cnt := 0)
    else s
  }

  /** What `streamOregon` does with one pulse. */
  function Step(s: State, level: bool, count: nat): (State, Option<Message>)
    requires Inv(s) && count < 256
  {
    var width := Width(level, count);
    if s.phase == Wait then (WaitStep(s, width), None) else DataStep(s, level, width)
  }

  /** A pulse of the id or the payload. */
  function DataStep(s: State, level: bool, width: nat): (State, Option<Message>)
    requires s.phase == ParseData ==> s.cnt < |s.buffer| && s.length > 0
  {
    var (bitCnt, result) := BitStep(s, level, width);
    var t := s.(bitCnt := bitCnt);
    match result
    case Invalid => (Clear(t), None)
    case MoreData => (t, None)
    case Bit(b) => FeedBit(t, b)
  }

  /**
   The bookkeeping that every history keeps: counters in range, everything reset while
   waiting, and the bytes read and still expected adding up to a packet that fits the buffer.
   */
  predicate Inv(s: State) {
    && s.bitCnt <= 2 && s.byteCnt < 8 && s.totByteCnt < 256 && s.cnt < 256 && |s.buffer| == 8
    && match s.phase
       case Wait => s.bitCnt == 0 && s.byteCnt == 0 && s.totByteCnt == 0 && s.byteLength == -1
       case ParseId => s.byteLength == -1 && s.cnt == 0
       case ParseData =>
         && LengthOf(s.id) == Some((s.cnt + s.length, s.byteLength))
         && s.length > 0 && s.cnt < 8 && (s.cnt + s.length == 6 || s.cnt + s.length == 8)
  }

  lemma {:induction false} IdKeepsInv(s: State, byte: bv8)
    requires Inv(s) && s.phase == ParseId
    ensures Inv(IdByte(s, byte)) && (IdByte(s, byte).phase != Wait ==> IdByte(s, byte).bitCnt == s.bitCnt)
  {
    var id := s.id | (byte as bv16);
    if s.id != 0 && LengthOf(id) != None {
      var (length, last) := LengthOf(id).value;
      assert length == 6 || length == 8;
    }
  }

  lemma {:induction false} DataKeepsInv(s: State, byte: bv8)
    requires Inv(s) && s.phase == ParseData
    ensures var t := DataByte(s, byte).0;
            && Inv(t) && t.phase != ParseId && (t.phase == ParseData ==> t.bitCnt == s.bitCnt && t.byteCnt == s.byteCnt)
            && (s.length == 1 <==> t.phase == Wait) && (s.length == 1 <==> DataByte(s, byte).1.Some?)
  {
  }

  lemma {:induction false} FeedKeepsInv(s: State, b: bool)
    requires Inv(s) && s.phase != Wait
    ensures Inv(FeedBit(s, b).0)
    ensures FeedBit(s, b).0.phase != Wait ==> FeedBit(s, b).0.bitCnt == s.bitCnt
  {
    var u := ShiftIn(s, b);
    if s.byteCnt == 7 {
      if s.phase == ParseData {
        DataKeepsInv(u, u.byte);
      } else {
        IdKeepsInv(u, u.byte);
      }
    }
  }

  lemma {:induction false} StepKeepsInv(s: State, level: bool, count: nat)
    requires Inv(s) && count < 256
    ensures Inv(Step(s, level, count).0)
  {
    if s.phase != Wait {
      PulseKeepsInv(s, level, Width(level, count));
    }
  }

  lemma {:induction false} PulseKeepsInv(s: State, level: bool, width: nat)
    requires Inv(s) && s.phase != Wait
    ensures Inv(DataStep(s, level, width).0)
  {
    var (bitCnt, result) := BitStep(s, level, width);
    if result.Bit? {
      FeedKeepsInv(s.(bitCnt := bitCnt), result.b);
    }
  }

  // ---------------------------------------------------------------- the total of the bits
  // It is meant to tell the last bit of a packet, for which the check of the pulse is waived.

  /** The bits taken since the id was opened, when z zero bytes were skipped where an id begins. */
  function BitsTaken(s: State, z: nat): nat {
    match s.phase
    case Wait => 0
    case ParseId => 8 * z + (if s.id == 0 then 0 else 8) + s.byteCnt
    case ParseData => 8 * z + 16 + 8 * s.cnt + s.byteCnt
  }

  /** The total counts them, in eight bits. */
  predicate TotalIs(s: State, z: nat) {
    s.totByteCnt == BitsTaken(s, z) % 256
  }

  lemma {:induction false} BumpTotal(n: nat)
    ensures Bump(n % 256) == (n + 1) % 256
  {
  }

  /** The bit completes a zero byte where the first byte of an id is expected. */
  predicate SkipsByte(s: State, b: bool) {
    s.phase == ParseId && s.id == 0 && s.byteCnt == 7 && ShiftDown(s.byte, b) == 0
  }

  lemma {:induction false} HighByte(hi: bv8)
    ensures (hi as bv16) << 8 == 0 <==> hi == 0
  {
  }

  lemma {:induction false} OrKeeps(id: bv16, lo: bv16)
    ensures id != 0 ==> id | lo != 0
  {
  }

  lemma {:induction false} FeedKeepsTotal(s: State, z: nat, b: bool)
    requires Inv(s) && s.phase != Wait && TotalIs(s, z)
    ensures TotalIs(FeedBit(s, b).0, if SkipsByte(s, b) then z + 1 else z)
  {
    BumpTotal(BitsTaken(s, z));
    var t := ShiftIn(s, b);
    assert t.totByteCnt == (BitsTaken(s, z) + 1) % 256;
    if s.byteCnt == 7 && s.phase == ParseId {
      IdByteTaken(t, z);
    }
  }

  lemma {:induction false} IdByteTaken(s: State, z: nat)
    requires s.phase == ParseId && s.byteCnt == 0
    ensures BitsTaken(IdByte(s, s.byte), if s.id == 0 && s.byte == 0 then z + 1 else z) == BitsTaken(s, z) + 8
            || IdByte(s, s.byte).phase == Wait
    ensures IdByte(s, s.byte).phase == Wait ==> IdByte(s, s.byte).totByteCnt == 0
    ensures IdByte(s, s.byte).phase != Wait ==> IdByte(s, s.byte).totByteCnt == s.totByteCnt
  {
    HighByte(s.byte);
    OrKeeps(s.id, s.byte as bv16);
  }

  /** The skipped bytes after a pulse: the count starts anew when an id is opened. */
  function SkipsAfter(s: State, z: nat, level: bool, count: nat): nat
    requires Inv(s) && count < 256
  {
    var (bitCnt, result) := BitStep(s, level, Width(level, count));
    if s.phase == Wait then 0 else if result.Bit? && SkipsByte(s, result.b) then z + 1 else z
  }

  /** Over every history the total is that of all bits taken, those of the skipped bytes included. */
  lemma {:induction false} StepKeepsTotal(s: State, z: nat, level: bool, count: nat)
    requires Inv(s) && TotalIs(s, z) && count < 256
    ensures TotalIs(Step(s, level, count).0, SkipsAfter(s, z, level, count))
  {
    var (bitCnt, result) := BitStep(s, level, Width(level, count));
    if s.phase != Wait && result.Bit? {
      FeedKeepsTotal(s.(bitCnt := bitCnt), z, result.b);
    }
  }

  /** The total counts the bits of the packet and no others. */
  predicate Aligned(s: State) {
    s.totByteCnt == BitsTaken(s, 0)
  }

  lemma {:induction false} Laps(k: nat, z: nat)
    requires k < 256
    ensures (8 * z + k) % 256 == (8 * (z % 32) + k) % 256
    ensures (8 * z + k) % 256 == k <==> z % 32 == 0
  {
    var q, r := z / 32, z % 32;
    assert 8 * z + k == 256 * q + (8 * r + k);
  }

  /** It does if and only if the skipped bytes have brought the 8-bit counter round to where it was. */
  lemma {:induction false} AlignedIffLaps(s: State, z: nat)
    requires Inv(s) && s.phase != Wait && TotalIs(s, z)
    ensures Aligned(s) <==> z % 32 == 0
  {
    Laps(BitsTaken(s, 0), z);
  }

  /**
   For every history, exactly one kind of bit has the check of its pulse waived: the last bit of
   the payload byte behind which as many bytes are still to come as zero bytes were skipped,
   modulo 32.
   */
  lemma {:induction false} WaivedExactly(s: State, z: nat)
    requires Inv(s) && TotalIs(s, z)
    ensures s.totByteCnt == s.byteLength <==> s.phase == ParseData && s.byteCnt == 7 && s.length - 1 == z % 32
  {
    if s.phase == ParseData {
      var r := z % 32;
      Laps(BitsTaken(s, 0), z);
      WaivedAt(r, s.cnt, s.length, s.byteCnt);
      assert s.byteLength == 8 * (s.cnt + s.length) + 15;
    }
  }

  lemma {:induction false} WaivedAt(r: nat, cnt: nat, length: nat, byteCnt: nat)
    requires r < 32 && cnt < 8 && 0 < length && byteCnt < 8 && (cnt + length == 6 || cnt + length == 8)
    ensures (8 * r + (16 + 8 * cnt + byteCnt)) % 256 == 8 * (cnt + length) + 15 <==> byteCnt == 7 && length - 1 == r
  {
    var n := 8 * r + (16 + 8 * cnt + byteCnt);
    assert n < 512;
    if n >= 256 {
      assert n % 256 == n - 256;
    }
  }

  /**
   So the check of the last bit of a packet is waived if and only if no bytes, or whole laps of
   them, were skipped.
   */
  lemma {:induction false} LastBitIsWaived(s: State, z: nat)
    requires Inv(s) && TotalIs(s, z) && s.phase == ParseData && s.length == 1 && s.byteCnt == 7
    ensures s.totByteCnt == s.byteLength <==> z % 32 == 0
  {
    WaivedExactly(s, z);
  }

  // ---------------------------------------------------------------- the C functions

  class Decoder {
    var phase: Phase
    var bitCnt: nat
    var byteCnt: nat
    var totByteCnt: nat
    var byteLength: int
    var byte: bv8
    var cnt: nat
    var id: bv16
    var length: nat
    const buffer: array<bv8>
    var sent: seq<Message>  // what went through rfMessage

    ghost function Current(): State
      reads this, buffer
    {
      State(phase, bitCnt, byteCnt, totByteCnt, byteLength, byte, cnt, id, length, buffer[..])
    }

    constructor ()
      ensures Inv(Current()) && TotalIs(Current(), 0) && phase == Wait && cnt == 0 && sent == [] && fresh(buffer)
    {
      phase, bitCnt, byteCnt, totByteCnt, byteLength := Wait, 0, 0, 0, -1;
      byte, cnt, id, length := 0, 0, 0, 0;
      buffer, sent := new bv8[8](_ => 0), [];
    }

    method ClearOregon()
      modifies this
      ensures Current() == Clear(old(Current())) && sent == old(sent)
    {
      byteCnt := 0;
      bitCnt := 0;
      totByteCnt := 0;
      phase := Wait;
      byteLength := -1;
    }

    method OregonBit(level: bool, width: nat) returns (r: BitResult)
      modifies this`bitCnt
      requires bitCnt <= 2
      ensures var step := BitStep(old(Current()), level, width); bitCnt == step.0 && r == step.1
    {
      if bitCnt == 0 {
        if !Small(width) {
          return Invalid;
        }
        bitCnt := 1;
      } else if bitCnt == 1 {
        if !Big(width) && totByteCnt != byteLength {
          bitCnt := 0;
          return Invalid;
        }
        bitCnt := 2;
        return Bit(level);
      } else if bitCnt == 2 {
        if level && Small(width) {
          bitCnt := 0;
        } else if Big(width) {
          bitCnt := 1;
        } else if Small(width) {
          bitCnt := 0;
        }
      }
      return MoreData;
    }

    /** `oregonByte` on a decoded bit. */
    method ShiftBit(b: bool) returns (complete: bool)
      requires byteCnt < 8
      modifies this`byte, this`totByteCnt, this`byteCnt
      ensures byte == ShiftDown(old(byte), b) && totByteCnt == Bump(old(totByteCnt))
      ensures complete == (old(byteCnt) == 7) && byteCnt == if complete then 0 else old(byteCnt) + 1
    {
      byte := byte >> 1;
      if b {
        byte := byte | 0x80;
      }
      totByteCnt := Bump(totByteCnt);
      byteCnt := byteCnt + 1;
      complete := byteCnt == 8;
      if complete {
        byteCnt := 0;
      }
    }

    /** `oregonByte`: a byte, when the bit completes one. */
    method OregonByte(level: bool, width: nat) returns (invalid: bool, complete: bool)
      requires bitCnt <= 2 && byteCnt < 8
      modifies this`bitCnt, this`byte, this`totByteCnt, this`byteCnt
      ensures var (bits, result) := BitStep(old(Current()), level, width);
              && bitCnt == bits && invalid == result.Invalid? && complete == (result.Bit? && old(byteCnt) == 7)
              && byte == (if result.Bit? then ShiftDown(old(byte), result.b) else old(byte))
              && totByteCnt == (if result.Bit? then Bump(old(totByteCnt)) else old(totByteCnt))
              && byteCnt == (if !result.Bit? then old(byteCnt) else if complete then 0 else old(byteCnt) + 1)
    {
      var r := OregonBit(level, width);
      invalid, complete := r.Invalid?, false;
      if r.Bit? {
        complete := ShiftBit(r.b);
      }
    }

    method StreamWait(width: nat)
      requires phase == Wait
      modifies this`phase, this`cnt, this`id
      ensures Current() == WaitStep(old(Current()), width)
    {
      if Big(width) {
        cnt := Bump(cnt);
        return;
      }
      if Small(width) {
        if cnt > 25 {
          phase := ParseId;
          id := 0;
        }
        cnt := 0;
      }
    }

    method StreamIdByte()
      requires phase == ParseId
      modifies this
      ensures Current() == IdByte(old(Current()), old(byte)) && sent == old(sent)
    {
      if id == 0 {
        id := (byte as bv16) << 8;
      } else {
        id := id | (byte as bv16);
        SwitchId();
      }
    }

    method SwitchId()
      modifies this
      ensures Current() == Identified(old(Current())) && sent == old(sent)
    {
      if id == 0xEA4C {
        length := 6;
        byteLength := 63;
      } else if id == 0x0A4D || id == 0x1A2D {
        length := 8;
        byteLength := 79;
      } else {
        ClearOregon();
        return;
      }
      phase := ParseData;
      cnt := 0;
    }

    method StreamDataByte()
      requires phase == ParseData && cnt < buffer.Length && length > 0
      modifies this, buffer
      ensures var step := DataByte(old(Current()), old(byte));
              Current() == step.0 && sent == old(sent) + (if step.1.Some? then [step.1.value] else [])
    {
      buffer[cnt] := byte;
      cnt := cnt + 1;
      length := length - 1;
      if length == 0 {
        ClearOregon();
        sent := sent + [Message(id, buffer[..cnt])];
      }
    }

    method StreamByte()
      requires phase != Wait && (phase == ParseData ==> cnt < buffer.Length && length > 0)
      modifies this, buffer
      ensures var step := TakeByte(old(Current()));
              Current() == step.0 && sent == old(sent) + (if step.1.Some? then [step.1.value] else [])
    {
      if phase == ParseId {
        StreamIdByte();
      } else {
        StreamDataByte();
      }
    }

    /** `streamOregon`. */
    method Stream(level: bool, count: nat)
      requires Inv(Current()) && count < 256
      modifies this, buffer
      ensures var step := Step(old(Current()), level, count);
              Current() == step.0 && sent == old(sent) + (if step.1.Some? then [step.1.value] else [])
      ensures Inv(Current())
    {
      StepKeepsInv(Current(), level, count);
      var width := Width(level, count);
      if phase == Wait {
        StreamWait(width);
      } else {
        StreamData(level, width);
      }
    }

    method StreamData(level: bool, width: nat)
      requires phase != Wait && bitCnt <= 2 && byteCnt < 8 && (phase == ParseData ==> cnt < buffer.Length && length > 0)
      modifies this, buffer
      ensures var step := DataStep(old(Current()), level, width);
              Current() == step.0 && sent == old(sent) + (if step.1.Some? then [step.1.value] else [])
    {
      ghost var (bits, result) := BitStep(Current(), level, width);
      ghost var before := Current().(bitCnt := bits);
      var invalid, complete := OregonByte(level, width);
      assert Current() == if result.Bit? then ShiftIn(before, result.b) else before;
      if invalid {
        ClearOregon();
      } else if complete {
        StreamByte();
      }
    }
  }
}
