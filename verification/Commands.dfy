/** From the entries of a live message to the air: the arctech handler of the client. */
module Commands {
  import opened Options
  import opened Words
  import opened LiveText
  import opened LiveMessage
  import opened TransmitArctech

  const DEFAULT_REPEATS := 10

  // ---------------------------------------------------------------- numbers as they lie in memory

  function Byte(n: nat): (b: bv8)
    requires n < 256
    ensures b as nat == n
  {
    if n == 0 then 0 else Next(Byte(n - 1))
  }

  function Next(b: bv8): (r: bv8)
    requires b < 255
    ensures r as nat == b as nat + 1
  {
    b + 1
  }

  function ToWord16(n: nat): Word16
    requires n < 0x1_0000
  {
    Word16(Byte(n % 0x100), Byte(n / 0x100))
  }

  function ToWord32(n: nat): Word32
    requires n < 0x1_0000_0000
  {
    var low, high := n % 0x1_0000, n / 0x1_0000;
    Word32(Byte(low % 0x100), Byte(low / 0x100), Byte(high % 0x100), Byte(high / 0x100))
  }

  lemma {:induction false} Word16Value(n: nat)
    requires n < 0x1_0000
    ensures ToWord16(n).Value() == n
  {
  }

  lemma {:induction false} Word32Value(n: nat)
    requires n < 0x1_0000_0000
    ensures ToWord32(n).Value() == n
  {
    var low, high := n % 0x1_0000, n / 0x1_0000;
    Word16Value(low);
    Word16Value(high);
    assert ToWord32(n).Value() == 0x1_0000 * ToWord16(high).Value() + ToWord16(low).Value();
  }

  // ---------------------------------------------------------------- what is to be sent

  lemma {:induction false} MatchIsValid(entries: seq<Entry>, key: string)
    requires ValidEntries(entries) && FirstMatch(entries, key).Some?
    ensures NumberOf(FirstMatch(entries, key).value) < WORD
    decreases |entries|
  {
    assert ValidEntry(entries[0]);
    if entries[0].key != key {
      assert forall e :: e in entries[1..] ==> e in entries;
      MatchIsValid(entries[1..], key);
    }
  }

  /** The bits of the command that the entries ask for. */
  ghost function BitsOf(entries: seq<Entry>): seq<bool>
    requires ValidEntries(entries) && HasCommand(entries)
  {
    MatchIsValid(entries, "house");
    CommandBits(ToWord32(HouseOf(entries)), ToWord16(UnitOf(entries)), MethodOf(entries))
  }

  /** They are the house code, the method and the unit. */
  lemma {:induction false} BitsOfValue(entries: seq<Entry>)
    requires ValidEntries(entries) && HasCommand(entries)
    ensures |BitsOf(entries)| == 32
    ensures MsbValue(BitsOf(entries))
         == HouseOf(entries) % 0x400_0000 * 64 + (if MethodOf(entries) == 1 then 16 else 0) + UnitOf(entries) % 16
  {
    MatchIsValid(entries, "house");
    Word32Value(HouseOf(entries));
    Word16Value(UnitOf(entries));
    CommandValue(ToWord32(HouseOf(entries)), ToWord16(UnitOf(entries)), MethodOf(entries));
  }

  /** A frame some times over; the pauses in between only leave SENDER low. */
  function Times(frame: seq<Segment>, n: nat): seq<Segment> {
    if n == 0 then [] else Times(frame, n - 1) + frame
  }

  // ---------------------------------------------------------------- the C function

  /** `sendArctechSelflearning`: ten frames of the command in the message, or nothing if a part of it is missing. */
  method SendArctechSelflearning(m: Message, s: Sender, ghost entries: seq<Entry>) returns (sent: bool)
    requires m.Valid() && ValidEntries(entries) && At(m.Memory(), m.hashStartP, EncodeEntries(entries))
    requires entries == [] ==> m.hashStartP + 1 == |m.text|
    requires !s.level
    modifies m`bufferP, s
    ensures m.Valid() && sent == HasCommand(entries) && !s.level
    ensures s.line == if sent then old(s.line) + Times(Frame(BitsOf(entries)), DEFAULT_REPEATS) else old(s.line)
  {
    var house, unit, command;
    sent, house, unit, command := m.ReadCommand(entries);
    if sent {
      MatchIsValid(entries, "house");
      s.house, s.unit, s.command := ToWord32(house), ToWord16(unit), command;
      Repeat(s, DEFAULT_REPEATS);
    }
  }

  method Repeat(s: Sender, repeats: nat)
    requires !s.level
    modifies s`level, s`line, s`base, s`sent
    ensures !s.level && s.line == old(s.line) + Times(Frame(CommandBits(s.house, s.unit, s.command)), repeats)
  {
    ghost var frame := Frame(CommandBits(s.house, s.unit, s.command));
    var i := 0;
    while i < repeats
      invariant 0 <= i <= repeats && !s.level && s.line == old(s.line) + Times(frame, i)
    {
      s.SendCommand();
      i := i + 1;
    }
  }

  // ---------------------------------------------------------------- the handler of messages

  /** What `send` makes of a message; a packet is what `rfSend` would be given. */
  datatype Request = Ignored | Arctech | Packet(pulses: string, repeats: nat, pause: nat)

  const DEFAULT_PAUSE := 11
  const NAME_SIZE := 20
  const PACKET_SIZE := 200

  /** A character array up to its NUL. */
  function CString(s: string): string
    decreases |s|
  {
    if s == "" || s[0] == '\0' then "" else [s[0]] + CString(s[1..])
  }

  /** The first match is a text, if there is one. */
  predicate IsText(entries: seq<Entry>, key: string) {
    FirstMatch(entries, key).Some? ==> FirstMatch(entries, key).value.StringValue?
  }

  /** What a local array of some size holds after the lookup: it starts out empty. */
  function TextOf(entries: seq<Entry>, key: string, size: nat): string
    requires IsText(entries, key)
  {
    var v := FirstMatch(entries, key);
    if v.Some? && |v.value.text| < size then CString(v.value.text) else ""
  }

  /** An `unsigned char` after the lookup, with its default. */
  function ByteOf(entries: seq<Entry>, key: string, default: nat): nat {
    if FirstMatch(entries, key).Some? then NumberOf(FirstMatch(entries, key).value) % 256 else default
  }

  /** What a message with these entries asks for. */
  function RequestOf(entries: seq<Entry>): Request
    requires IsText(entries, "protocol") && IsText(entries, "model") && IsText(entries, "S")
  {
    if FirstMatch(entries, "protocol").Some? then
      if TextOf(entries, "protocol", NAME_SIZE) == "arctech" && TextOf(entries, "model", NAME_SIZE) == "selflearning"
      then Arctech else Ignored
    else
      var packet := FirstMatch(entries, "S");
      if packet.None? || |packet.value.text| >= PACKET_SIZE then Ignored
      else
        Packet(CString(packet.value.text), ByteOf(entries, "R", DEFAULT_REPEATS), ByteOf(entries, "P", DEFAULT_PAUSE))
  }

  /** `if (LMFindHashString(key)) n = LMTakeInt()`. */
  method FindByte(m: Message, key: string, default: nat, ghost entries: seq<Entry>) returns (n: nat)
    requires m.Valid() && ValidEntries(entries) && At(m.Memory(), m.hashStartP, EncodeEntries(entries))
    requires key != "" && (entries == [] ==> m.hashStartP + 1 == |m.text|)
    modifies m`bufferP
    ensures m.Valid() && n == ByteOf(entries, key, default)
  {
    var found, number := m.FindNumber(key, entries);
    n := if found then number % 256 else default;
  }

  /** A lookup into a local array that starts out empty. */
  method FindText(m: Message, key: string, size: nat, ghost entries: seq<Entry>) returns (found: bool, instr: string)
    requires m.Valid() && ValidEntries(entries) && At(m.Memory(), m.hashStartP, EncodeEntries(entries))
    requires key != "" && (entries == [] ==> m.hashStartP + 1 == |m.text|)
    modifies m`bufferP
    ensures m.Valid() && found == FirstMatch(entries, key).Some?
    ensures IsText(entries, key) ==> instr == TextOf(entries, key, size)
  {
    var ok, taken;
    found, ok, taken := m.FindString(key, size, entries);
    instr := if found && ok then CString(taken) else "";
  }

  /** `send`, with the hash entered: what is asked for, and the frames of a command if it is one. */
  method HandleSend(m: Message, s: Sender, ghost entries: seq<Entry>) returns (request: Request)
    requires m.Valid() && ValidEntries(entries) && At(m.Memory(), m.hashStartP, EncodeEntries(entries))
    requires entries == [] ==> m.hashStartP + 1 == |m.text|
    requires !s.level
    modifies m`bufferP, s
    ensures m.Valid() && !s.level
    ensures IsText(entries, "protocol") && IsText(entries, "model") && IsText(entries, "S") ==>
              && request == RequestOf(entries)
              && s.line == old(s.line) + if request.Arctech? then FramesOf(entries) else []
  {
    var pause := FindByte(m, "P", DEFAULT_PAUSE, entries);
    var repeats := FindByte(m, "R", DEFAULT_REPEATS, entries);
    var found, protocol := FindText(m, "protocol", NAME_SIZE, entries);
    if found {
      var hasModel, model := FindText(m, "model", NAME_SIZE, entries);
      if protocol != "arctech" || model != "selflearning" {
        return Ignored;
      }
      var sent := SendArctechSelflearning(m, s, entries);
      return Arctech;
    }
    var ok, packet;
    found, ok, packet := m.FindString("S", PACKET_SIZE, entries);
    request := if found && ok then Packet(CString(packet), repeats, pause) else Ignored;
  }

  /** The frames of the command in the entries, or none if a part of it is missing. */
  ghost function FramesOf(entries: seq<Entry>): seq<Segment>
    requires ValidEntries(entries)
  {
    if HasCommand(entries) then Times(Frame(BitsOf(entries)), DEFAULT_REPEATS) else []
  }

  // ---------------------------------------------------------------- from one end to the other

  /** The entries of a command as a server writes them. */
  function CommandEntries(house: nat, unit: nat, command: nat): (entries: seq<Entry>)
    ensures |entries| == 5
  {
    [Entry("house", IntValue(house)), Entry("method", IntValue(command)), Entry("model", StringValue("selflearning")),
     Entry("protocol", StringValue("arctech")), Entry("unit", IntValue(unit))]
  }

  lemma {:induction false} MatchFirst(e: Entry, rest: seq<Entry>, key: string)
    requires |e.key| <= MAX_KEY
    ensures FirstMatch([e] + rest, key) == if e.key == key then Some(e.value) else FirstMatch(rest, key)
  {
    assert ([e] + rest)[1..] == rest;
  }

  lemma {:induction false} FindsCommand(house: nat, unit: nat, command: nat, key: string)
    ensures FirstMatch(CommandEntries(house, unit, command), key) ==
            if key == "house" then Some(IntValue(house))
            else if key == "method" then Some(IntValue(command))
            else if key == "model" then Some(StringValue("selflearning"))
            else if key == "protocol" then Some(StringValue("arctech"))
            else if key == "unit" then Some(IntValue(unit))
            else None
  {
    var e := CommandEntries(house, unit, command);
    MatchFirst(e[4], [], key);
    MatchFirst(e[3], [e[4]], key);
    MatchFirst(e[2], [e[3], e[4]], key);
    MatchFirst(e[1], [e[2], e[3], e[4]], key);
    MatchFirst(e[0], [e[1], e[2], e[3], e[4]], key);
    assert [e[4]] + [] == [e[4]];
    assert [e[3]] + [e[4]] == [e[3], e[4]];
    assert [e[2]] + [e[3], e[4]] == [e[2], e[3], e[4]];
    assert [e[1]] + [e[2], e[3], e[4]] == [e[1], e[2], e[3], e[4]];
    assert [e[0]] + [e[1], e[2], e[3], e[4]] == e;
  }

  lemma {:induction false} HexLength(v: nat, n: nat)
    requires v < Pow16(n)
    ensures |Hex(v)| <= n
    decreases n
  {
    if v > 0 {
      HexLength(v / 16, n - 1);
    }
  }

  lemma {:induction false} EntryLength(e: Entry)
    requires ValidEntry(e)
    ensures |EncodeEntry(e)| <= |e.key| + 3 + if e.value.IntValue? then 10 else |e.value.text| + 3
  {
    if e.value.IntValue? {
      EightPlaces(8);
      HexLength(e.value.number, 8);
    }
  }

  /** An entry of a command. */
  predicate IsSmall(e: Entry) {
    ValidEntry(e) && |e.key| <= 8 && (e.value.StringValue? ==> |e.value.text| <= 12 && NulFree(e.value.text))
  }

  lemma {:induction false} EntriesLength(entries: seq<Entry>)
    requires forall e :: e in entries ==> IsSmall(e)
    ensures ValidEntries(entries) && |EncodeEntries(entries)| <= 26 * |entries| + 1
    decreases |entries|
  {
    if entries != [] {
      assert entries[0] in entries && forall e :: e in entries[1..] ==> e in entries;
      EntryLength(entries[0]);
      EntriesLength(entries[1..]);
    }
  }

  lemma {:induction false} TextIsSmall()
    ensures IsSmall(Entry("model", StringValue("selflearning"))) && IsSmall(Entry("protocol", StringValue("arctech")))
  {
  }

  lemma {:induction false} NumberIsSmall(n: nat)
    requires n < WORD
    ensures IsSmall(Entry("house", IntValue(n))) && IsSmall(Entry("unit", IntValue(n))) &&
            IsSmall(Entry("method", IntValue(n)))
  {
  }

  /** A command fits the buffer, whatever its numbers. */
  lemma {:induction false} CommandFits(house: nat, unit: nat, command: nat)
    requires house < WORD && unit < WORD && command < WORD
    ensures var entries := CommandEntries(house, unit, command);
            && ValidEntries(entries) && |EncodeMessage("send", entries)| < SIZE
            && forall e :: e in entries ==> IsSmall(e)
  {
    var entries := CommandEntries(house, unit, command);
    TextIsSmall();
    NumberIsSmall(house);
    NumberIsSmall(unit);
    NumberIsSmall(command);
    EntriesLength(entries);
  }

  lemma {:induction false} HoldsCommand(house: nat, unit: nat, command: nat)
    ensures var entries := CommandEntries(house, unit, command);
            && HasCommand(entries) && HouseOf(entries) == house
            && UnitOf(entries) == unit % 0x1_0000 && MethodOf(entries) == command % 0x1_0000
  {
    FindsCommand(house, unit, command, "house");
    FindsCommand(house, unit, command, "unit");
    FindsCommand(house, unit, command, "method");
  }

  lemma {:induction false} HoldsText(entries: seq<Entry>, key: string, text: string)
    requires FirstMatch(entries, key) == Some(StringValue(text)) && |text| < NAME_SIZE
    requires forall i :: 0 <= i < |text| ==> text[i] != '\0'
    ensures IsText(entries, key) && TextOf(entries, key, NAME_SIZE) == text
  {
    NoNul(text);
  }

  lemma {:induction false} AsksForArctech(entries: seq<Entry>, protocol: string, model: string)
    requires protocol == "arctech" && model == "selflearning" && FirstMatch(entries, "S") == None
    requires FirstMatch(entries, "protocol") == Some(StringValue(protocol))
    requires FirstMatch(entries, "model") == Some(StringValue(model))
    ensures IsText(entries, "protocol") && IsText(entries, "model") && IsText(entries, "S")
    ensures RequestOf(entries) == Arctech
  {
    HoldsText(entries, "protocol", protocol);
    HoldsText(entries, "model", model);
  }

  /** What such a message asks for. */
  lemma {:induction false} AsksForCommand(house: nat, unit: nat, command: nat)
    ensures var entries := CommandEntries(house, unit, command);
            && IsText(entries, "protocol") && IsText(entries, "model") && IsText(entries, "S")
            && RequestOf(entries) == Arctech
  {
    FindsCommand(house, unit, command, "protocol");
    FindsCommand(house, unit, command, "model");
    FindsCommand(house, unit, command, "S");
    AsksForArctech(CommandEntries(house, unit, command), "arctech", "selflearning");
  }

  lemma {:induction false} NoNul(s: string)
    requires forall i :: 0 <= i < |s| ==> s[i] != '\0'
    ensures CString(s) == s
    decreases |s|
  {
    if s != "" {
      NoNul(s[1..]);
    }
  }

  /**
   A command from the text of its message to the air: written by a server into the buffer, taken
   from there name first and key by key, it is driven ten times, as the number of its house, its
   method and its unit.
   */
  method RelayCommand(m: Message, s: Sender, house: nat, unit: nat, command: nat) returns (ghost bits: seq<bool>)
    requires m.Valid() && house < WORD && unit < WORD && command < WORD && !s.level
    modifies m, m.buffer, s
    ensures s.line == old(s.line) + Times(Frame(bits), 10) && !s.level && |bits| == 32
    ensures MsbValue(bits)
         == house % 0x400_0000 * 64 + (if command % 0x1_0000 == 1 then 16 else 0) + unit % 0x1_0000 % 16
  {
    var entries := CommandEntries(house, unit, command);
    CommandFits(house, unit, command);
    AsksForCommand(house, unit, command);
    HoldsCommand(house, unit, command);
    m.WriteMessage("send", entries);
    var ok, name := m.TakeName(NAME_SIZE, "send", entries);
    m.EnterEntries(entries);
    var request := HandleSend(m, s, entries);
    bits := BitsOf(entries);
    BitsOfValue(entries);
  }
  // ---------------------------------------------------------------- raw pulses

  /** A number that need not be in a message. */
  function Given(key: string, n: Option<nat>): seq<Entry> {
    if n.Some? then [Entry(key, IntValue(n.value))] else []
  }

  /** The entries of a message with raw pulses, as a server writes them. */
  function PacketEntries(pause: Option<nat>, repeats: Option<nat>, pulses: string): seq<Entry> {
    Given("P", pause) + (Given("R", repeats) + [Entry("S", StringValue(pulses))])
  }

  lemma {:induction false} MatchGiven(key: string, n: Option<nat>, rest: seq<Entry>, wanted: string)
    requires |key| <= MAX_KEY
    ensures FirstMatch(Given(key, n) + rest, wanted) ==
            if key == wanted && n.Some? then Some(IntValue(n.value)) else FirstMatch(rest, wanted)
  {
    if n.Some? {
      MatchFirst(Entry(key, IntValue(n.value)), rest, wanted);
    } else {
      assert Given(key, n) + rest == rest;
    }
  }

  lemma {:induction false} FindsPacket(pause: Option<nat>, repeats: Option<nat>, pulses: string, key: string)
    ensures FirstMatch(PacketEntries(pause, repeats, pulses), key) ==
            if key == "P" && pause.Some? then Some(IntValue(pause.value))
            else if key == "R" && repeats.Some? then Some(IntValue(repeats.value))
            else if key == "S" then Some(StringValue(pulses))
            else None
  {
    var last := Entry("S", StringValue(pulses));
    MatchGiven("P", pause, Given("R", repeats) + [last], key);
    MatchGiven("R", repeats, [last], key);
    MatchFirst(last, [], key);
    assert [last] + [] == [last];
  }

  /** The first match, if there is one, is a text without a NUL inside. */
  predicate IsPlain(entries: seq<Entry>, key: string) {
    IsText(entries, key) && (FirstMatch(entries, key).Some? ==> NulFree(FirstMatch(entries, key).value.text))
  }

  lemma {:induction false} PlainText(entries: seq<Entry>, key: string, size: nat, text: string)
    requires IsPlain(entries, key) && 0 < |text| < size
    ensures TextOf(entries, key, size) == text <==> FirstMatch(entries, key) == Some(StringValue(text))
  {
    if FirstMatch(entries, key).Some? {
      NoNul(FirstMatch(entries, key).value.text);
    }
  }

  /** Whatever entries a message has: what it asks for, and when it asks for nothing. */
  lemma {:induction false} RequestDecided(entries: seq<Entry>)
    requires IsPlain(entries, "protocol") && IsPlain(entries, "model") && IsPlain(entries, "S")
    ensures var protocol, model, pulses :=
              FirstMatch(entries, "protocol"), FirstMatch(entries, "model"), FirstMatch(entries, "S");
            && (RequestOf(entries).Arctech? <==>
                protocol == Some(StringValue("arctech")) && model == Some(StringValue("selflearning")))
            && (RequestOf(entries).Packet? <==> protocol == None && pulses.Some? && |pulses.value.text| < 200)
            && (RequestOf(entries).Packet? ==> RequestOf(entries).pulses == pulses.value.text)
  {
    PlainText(entries, "protocol", NAME_SIZE, "arctech");
    PlainText(entries, "model", NAME_SIZE, "selflearning");
    if FirstMatch(entries, "S").Some? {
      NoNul(FirstMatch(entries, "S").value.text);
    }
  }

  /** What such a message asks for: 10 times with 11 ms in between, unless it says otherwise. */
  lemma {:induction false} AsksForPacket(pause: Option<nat>, repeats: Option<nat>, pulses: string)
    requires |pulses| < 200 && NulFree(pulses)
    ensures var entries := PacketEntries(pause, repeats, pulses);
            && IsText(entries, "protocol") && IsText(entries, "model") && IsText(entries, "S")
            && RequestOf(entries) == Packet(pulses, if repeats.Some? then repeats.value % 256 else 10,
                                            if pause.Some? then pause.value % 256 else 11)
  {
    FindsPacket(pause, repeats, pulses, "protocol");
    FindsPacket(pause, repeats, pulses, "model");
    FindsPacket(pause, repeats, pulses, "S");
    FindsPacket(pause, repeats, pulses, "P");
    FindsPacket(pause, repeats, pulses, "R");
    NoNul(pulses);
  }

  lemma {:induction false} PacketIsValid(pause: Option<nat>, repeats: Option<nat>, pulses: string)
    requires |pulses| < 200 && NulFree(pulses)
    requires (pause.Some? ==> pause.value < WORD) && (repeats.Some? ==> repeats.value < WORD)
    ensures ValidEntries(PacketEntries(pause, repeats, pulses))
  {
    forall e | e in PacketEntries(pause, repeats, pulses) ensures ValidEntry(e) {
    }
  }

  /**
   Raw pulses from the text of their message to what is to be played: for every pause, number of
   repeats and string that fit the buffer, each of the two numbers given or not.
   */
  method RelayPacket(m: Message, s: Sender, pause: Option<nat>, repeats: Option<nat>, pulses: string)
    returns (request: Request)
    requires m.Valid() && !s.level && |pulses| < 200 && NulFree(pulses)
    requires (pause.Some? ==> pause.value < WORD) && (repeats.Some? ==> repeats.value < WORD)
    requires |EncodeMessage("send", PacketEntries(pause, repeats, pulses))| < SIZE
    modifies m, m.buffer, s
    ensures request == Packet(pulses, if repeats.Some? then repeats.value % 256 else 10,
                              if pause.Some? then pause.value % 256 else 11)
    ensures s.line == old(s.line) && !s.level
  {
    var entries := PacketEntries(pause, repeats, pulses);
    PacketIsValid(pause, repeats, pulses);
    AsksForPacket(pause, repeats, pulses);
    m.WriteMessage("send", entries);
    var ok, name := m.TakeName(NAME_SIZE, "send", entries);
    m.EnterEntries(entries);
    request := HandleSend(m, s, entries);
  }
}
