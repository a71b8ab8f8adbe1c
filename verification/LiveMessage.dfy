/**
 The buffer of firmware/livemessage.c and the functions that write, frame and read it, on the
 array they work on in place. `text` is what stands before the first NUL; the methods that write
 say how it grows, those that read follow the parsing functions of module LiveText, and the
 automaton takes the steps of module Framing.
 */
module LiveMessage {
  import opened Options
  import opened Sequences
  import opened LiveText
  import opened Framing

  function Nuls(n: nat): (s: string)
    ensures |s| == n && forall i :: 0 <= i < n ==> s[i] == '\0'
  {
    seq(n, _ => '\0')
  }

  /** A buffer that holds a text and nothing after it. */
  function Padded(text: string): (buf: string)
    requires |text| <= SIZE
    ensures |buf| == SIZE
  {
    text + Nuls(SIZE - |text|)
  }

  /** The digits of a number in a fixed number of places. */
  function Places(v: nat, n: nat): (s: string)
    ensures |s| == n
    decreases n
  {
    if n == 0 then "" else Places(v / 16, n - 1) + [HexChar(v % 16)]
  }

  function StripZeros(s: string): string
    decreases |s|
  {
    if s == "" || s[0] != '0' then s else StripZeros(s[1..])
  }

  function Pow16(n: nat): nat {
    if n == 0 then 1 else 16 * Pow16(n - 1)
  }

  lemma {:induction false} StripSnoc(s: string, c: char)
    ensures StripZeros(s + [c]) == if StripZeros(s) == "" then StripZeros([c]) else StripZeros(s) + [c]
    decreases |s|
  {
    if s == "" {
      assert s + [c] == [c];
    } else {
      assert (s + [c])[1..] == s[1..] + [c];
      StripSnoc(s[1..], c);
    }
  }

  /** Without their leading zeros the places are the digits. */
  lemma {:induction false} StrippedPlaces(v: nat, n: nat)
    requires v < Pow16(n)
    ensures StripZeros(Places(v, n)) == Hex(v)
    decreases n
  {
    if n > 0 {
      StrippedPlaces(v / 16, n - 1);
      StripSnoc(Places(v / 16, n - 1), HexChar(v % 16));
      assert StripZeros("0") == StripZeros("0"[1..]) == "";
      HexEmpty(v / 16);
    }
  }

  lemma {:induction false} HexEmpty(v: nat)
    ensures Hex(v) == "" <==> v == 0
  {
  }

  /** One place more is taken off a number. */
  lemma {:induction false} PlacesStep(v: nat, n: nat, taken: string, whole: string)
    requires n > 0 && v < Pow16(n) && whole == Places(v, n) + Reverse(taken)
    ensures whole == Places(v / 16, n - 1) + Reverse(taken + [HexChar(v % 16)]) && v / 16 < Pow16(n - 1)
  {
    var c := HexChar(v % 16);
    ReverseSnoc(taken, c);
    assert Places(v, n) + Reverse(taken) == Places(v / 16, n - 1) + ([c] + Reverse(taken));
  }

  lemma {:induction false} AllPlaces(v: nat, taken: string, whole: string)
    requires whole == Places(v, 0) + Reverse(taken)
    ensures whole == Reverse(taken)
  {
  }

  lemma {:induction false} EightPlaces(n: nat)
    requires n == 8
    ensures Pow16(n) == WORD
  {
    assert Pow16(2) == 16 * Pow16(1) == 256;
    assert Pow16(4) == 16 * Pow16(3) == 65536;
    assert Pow16(6) == 16 * Pow16(5);
    assert Pow16(8) == 16 * Pow16(7);
  }

  /** A leading zero more is skipped. */
  lemma {:induction false} StripStep(hex: string)
    requires hex != ""
    ensures var last := hex[|hex| - 1];
            StripZeros(Reverse(hex)) == if last == '0' then StripZeros(Reverse(hex[..|hex| - 1])) else Reverse(hex)
  {
    var n := |hex| - 1;
    ReverseSnoc(hex[..n], hex[n]);
    assert hex[..n] + [hex[n]] == hex;
    assert Reverse(hex)[1..] == Reverse(hex[..n]);
  }

  method SetDigit(hex: array<char>, i: nat, c: char)
    requires i < hex.Length
    modifies hex
    ensures hex[..i + 1] == old(hex[..i]) + [c]
  {
    hex[i] := c;
  }

  /** The first i digits of a number are filled in, lowest first; `value` is what is left of it. */
  ghost predicate Filled(digits: string, i: nat, value: nat, whole: string)
    requires i <= 8
  {
    |digits| == i && value < Pow16(8 - i) && whole == Places(value, 8 - i) + Reverse(digits)
  }

  lemma {:induction false} FilledStart(value: nat)
    requires value < WORD
    ensures Filled("", 0, value, Places(value, 8))
  {
    EightPlaces(8);
    NothingAdded(Places(value, 8));
  }

  lemma {:induction false} FilledStep(digits: string, i: nat, value: nat, whole: string)
    requires i < 8 && Filled(digits, i, value, whole)
    ensures Filled(digits + [HexChar(value % 16)], i + 1, value / 16, whole)
  {
    PlacesStep(value, 8 - i, digits, whole);
  }

  /** The loop of `LMAppendInt` that fills the digits, lowest first. */
  method FillDigits(value0: nat) returns (hex: array<char>)
    requires value0 < WORD
    ensures fresh(hex) && hex.Length == 8 && Reverse(hex[..8]) == Places(value0, 8)
  {
    hex := new char[8];
    var value: nat := value0;
    ghost var whole := Places(value0, 8);
    FilledStart(value0);
    var i := 0;
    while i < 8
      invariant 0 <= i <= 8 && Filled(hex[..i], i, value, whole)
    {
      FilledStep(hex[..i], i, value, whole);
      SetDigit(hex, i, HexChar(value % 16));
      value := value / 16;
      i := i + 1;
    }
    AllPlaces(value, hex[..8], whole);
  }

  /** The loop that skips the leading zeros. */
  method SignificantDigits(value: nat) returns (low: string)
    requires value < WORD
    ensures Reverse(low) == Hex(value)
  {
    var hex := FillDigits(value);
    EightPlaces(8);
    StrippedPlaces(value, 8);
    var n := 8;
    while n > 0
      invariant 0 <= n <= 8 && StripZeros(Reverse(hex[..n])) == Hex(value)
    {
      StripStep(hex[..n]);
      assert hex[..n][..n - 1] == hex[..n - 1];
      if hex[n - 1] != '0' {
        break;
      }
      n := n - 1;
    }
    low := hex[..n];
  }

  lemma {:induction false} Enclosed(before: string, digits: string)
    ensures before + ['i'] + digits + ['s'] == before + ("i" + (digits + "s"))
  {
  }

  function NumberOf(v: Value): nat {
    match v
    case IntValue(number) => number
    case StringValue(_) => 0
  }

  ghost predicate HasCommand(entries: seq<Entry>) {
    FirstMatch(entries, "house").Some? && FirstMatch(entries, "unit").Some? && FirstMatch(entries, "method").Some?
  }

  ghost function HouseOf(entries: seq<Entry>): nat
    requires HasCommand(entries)
  {
    NumberOf(FirstMatch(entries, "house").value)
  }

  /** An `int` has 16 bits. */
  ghost function UnitOf(entries: seq<Entry>): nat
    requires HasCommand(entries)
  {
    NumberOf(FirstMatch(entries, "unit").value) % 0x1_0000
  }

  ghost function MethodOf(entries: seq<Entry>): nat
    requires HasCommand(entries)
  {
    NumberOf(FirstMatch(entries, "method").value) % 0x1_0000
  }

  lemma {:induction false} NameParts(text: string, behind: string, name: string, inside: string)
    requires |text| <= SIZE && |name| < 256 && text == EncodeString(name) + ("h" + inside)
    ensures var mem := Padded(text) + behind;
            && At(mem, 0, EncodeString(name)) && At(mem, |EncodeString(name)|, "h" + inside)
            && |EncodeString(name)| + 1 + |inside| == |text|
  {
    TextIsAt(text, behind);
    AtConcat(Padded(text) + behind, 0, EncodeString(name), "h" + inside);
  }

  lemma {:induction false} StandsAt(mem: string, p: nat, c: char)
    requires At(mem, p, [c])
    ensures p < SIZE && mem[p] == c
  {
    assert mem[p] == mem[p..p + 1][0];
  }

  /** The bytes of the digits from the fourth on up to the i-th. */
  ghost predicate PairsRead(digits: string, i: nat, bytes: seq<nat>) {
    3 <= i <= |digits| && bytes + SignatureOf(digits[i..]) == SignatureOf(digits[3..])
  }

  lemma {:induction false} PairsEnd(digits: string, bytes: seq<nat>)
    requires |digits| == 43
    ensures PairsRead(digits, 3, []) && (PairsRead(digits, 43, bytes) ==> bytes == SignatureOf(digits[3..]))
  {
    assert [] + SignatureOf(digits[3..]) == SignatureOf(digits[3..]);
    assert SignatureOf(digits[43..]) == [];
    assert bytes + [] == bytes;
  }

  lemma {:induction false} PairRead(digits: string, i: nat, bytes: seq<nat>, n: nat)
    requires PairsRead(digits, i, bytes) && i + 2 <= |digits| &&
             n == HexToByte(digits[i]) * 16 + HexToByte(digits[i + 1])
    ensures PairsRead(digits, i + 2, bytes + [n])
  {
    assert digits[i..][2..] == digits[i + 2..];
    assert SignatureOf(digits[i..]) == [n] + SignatureOf(digits[i + 2..]);
  }

  /** The text, and nothing but NULs up to the end of the buffer. */
  lemma {:induction false} TextIsAt(text: string, behind: string)
    requires |text| <= SIZE
    ensures var mem := Padded(text) + behind;
            At(mem, 0, text) && forall i :: |text| <= i < SIZE ==> mem[i] == '\0'
  {
  }

  lemma {:induction false} EntriesStep(entries: seq<Entry>, i: nat, before: string)
    requires i < |entries| && ValidEntries(entries[i..])
    ensures ValidEntry(entries[i]) && ValidEntries(entries[i + 1..])
    ensures before + EncodeEntries(entries[i..]) == (before + EncodeEntry(entries[i])) + EncodeEntries(entries[i + 1..])
    ensures |EncodeEntries(entries[i + 1..])| > 0
  {
    RestIsValid(entries[i..]);
    assert entries[i..][0] == entries[i] && entries[i..][1..] == entries[i + 1..];
  }

  lemma {:induction false} Begun(name: string, entries: seq<Entry>)
    requires |name| < 256 && ValidEntries(entries)
    ensures entries[0..] == entries && |EncodeEntries(entries)| > 0
    ensures (EncodeString(name) + "h") + EncodeEntries(entries) == EncodeMessage(name, entries)
  {
  }

  class Message {
    const buffer: array<char>
    /** Whatever the 56 bytes behind the buffer hold, which an 8-bit cursor can reach. */
    const behind: string
    var bufferP: nat
    var hashStartP: nat
    var state: Phase
    var signature2: seq<nat>
    var length: nat
    /** `validateSignature`, for the signature received and the text in the buffer. */
    const accepts: (seq<nat>, string) -> bool
    /** What stands in the buffer before its first NUL. */
    ghost var text: string

    ghost predicate Valid()
      reads this, buffer
    {
      && buffer.Length == SIZE && |behind| == REACH - SIZE && |text| <= SIZE && NulFree(text)
      && buffer[..] == Padded(text)
      && bufferP < 256 && hashStartP < 256
    }

    /** What the cursor can reach. */
    ghost function Memory(): (mem: string)
      reads this, buffer
      requires Valid()
      ensures |mem| == REACH
    {
      buffer[..] + behind
    }

    /** `buffer[p]`, without a check of p. */
    method Peek(p: nat) returns (ch: char)
      requires Valid() && p < REACH
      ensures ch == Memory()[p]
    {
      ch := if p < SIZE then buffer[p] else behind[p - SIZE];
    }

    /** The automaton's state. */
    ghost function Current(): State
      reads this
    {
      State(state, text, signature2, length)
    }

    constructor (accepts: (seq<nat>, string) -> bool, behind: string)
      requires |behind| == REACH - SIZE
      ensures Valid() && fresh(buffer) && this.accepts == accepts
      ensures text == "" && state == Cleared && bufferP == 0
    {
      this.accepts, this.behind := accepts, behind;
      buffer := new char[SIZE](_ => '\0');
      bufferP, hashStartP, state, signature2, length := 0, 0, Cleared, [], 0;
      text := "";
      new;
      assert buffer[..] == Padded("");
    }

    // -------------------------------------------------------------- writing

    /** `strchr(&buffer, '\0')`: the buffer must have a NUL in it. */
    method FirstNul() returns (pos: nat)
      requires Valid() && |text| < SIZE
      ensures pos == |text|
    {
      pos := 0;
      assert forall i :: 0 <= i < SIZE ==> buffer[i] == Padded(text)[i];
      while buffer[pos] != '\0'
        invariant 0 <= pos <= |text|
        decreases SIZE - pos
      {
        pos := pos + 1;
      }
    }

    /** The `strlen(buffer)` characters that are signed. */
    method Content() returns (s: string)
      requires Valid() && |text| < SIZE
      ensures s == text
    {
      var n := FirstNul();
      TextIsAt(text, "");
      s := buffer[..n];
    }

    method LMAppendChar(ch: char)
      requires Valid() && |text| < SIZE
      modifies this`text, buffer
      ensures Valid() && text == Append(old(text), ch)
    {
      var pos := FirstNul();
      buffer[pos] := ch;
      text := Append(text, ch);
      assert buffer[..] == Padded(text);
    }

    method LMClear()
      requires Valid()
      modifies this`text, this`bufferP, this`state, buffer
      ensures Valid() && text == "" && bufferP == 0 && state == Cleared
    {
      var i := 0;
      while i < SIZE
        invariant 0 <= i <= SIZE && forall j :: 0 <= j < i ==> buffer[j] == '\0'
      {
        buffer[i] := '\0';
        i := i + 1;
      }
      text := "";
      bufferP := 0;
      state := Cleared;
      assert buffer[..] == Padded("");
    }

    /** `strcat(&buffer, string)`, which leaves room for a NUL. */
    method Concat(s: string)
      requires Valid() && NulFree(s) && |text| + |s| < SIZE
      modifies this`text, buffer
      ensures Valid() && text == old(text) + s
    {
      assert text + s[..0] == text;
      for i := 0 to |s|
        invariant Valid() && text == old(text) + s[..i]
      {
        LMAppendChar(s[i]);
        assert s[..i + 1] == s[..i] + [s[i]];
      }
      assert s[..|s|] == s;
    }

    /** `LMAppendString` and `LMAppendRomString`. */
    method LMAppendString(s: string)
      requires Valid() && NulFree(s) && |s| < 256 && |text| + |EncodeString(s)| < SIZE
      modifies this`text, buffer
      ensures Valid() && text == old(text) + EncodeString(s)
    {
      var hb, lb := HexChar(HighDigit(|s|)), HexChar(LowDigit(|s|));
      HexInverse(HighDigit(|s|));
      HexInverse(LowDigit(|s|));
      if hb != '0' {
        LMAppendChar(hb);
      }
      LMAppendChar(lb);
      LMAppendChar(':');
      assert text == old(text) + (EncodeLength(|s|) + ":");
      Concat(s);
    }

    /** The last loop of `LMAppendInt`. */
    method AppendReversed(low: string)
      requires Valid() && NulFree(Reverse(low)) && |text| + |low| < SIZE
      modifies this`text, buffer
      ensures Valid() && text == old(text) + Reverse(low)
    {
      ghost var digits, n := Reverse(low), |low|;
      var i := |low|;
      assert text + digits[..0] == text;
      while i > 0
        invariant 0 <= i <= n && Valid() && text == old(text) + digits[..n - i]
      {
        assert digits[n - i] == low[i - 1];
        Associate(old(text), digits[..n - i], [low[i - 1]]);
        assert digits[..n - i + 1] == digits[..n - i] + [low[i - 1]];
        LMAppendChar(low[i - 1]);
        i := i - 1;
      }
      assert digits[..n] == digits;
    }

    /** The digits of `LMAppendInt`. */
    method AppendDigits(value: nat)
      requires Valid() && value < WORD && |text| + |IntDigits(value)| < SIZE
      modifies this`text, buffer
      ensures Valid() && text == old(text) + IntDigits(value)
    {
      if value == 0 {
        LMAppendChar('0');
      } else {
        HexDigits(value);
        var low := SignificantDigits(value);
        AppendReversed(low);
      }
    }

    method LMAppendInt(value: nat)
      requires Valid() && value < WORD && |text| + |EncodeInt(value)| < SIZE
      modifies this`text, buffer
      ensures Valid() && text == old(text) + EncodeInt(value)
    {
      LMAppendChar('i');
      AppendDigits(value);
      LMAppendChar('s');
      Enclosed(old(text), IntDigits(value));
    }

    method LMStartHash()
      requires Valid() && |text| < SIZE
      modifies this`text, buffer
      ensures Valid() && text == old(text) + "h"
    {
      LMAppendChar('h');
    }

    method LMEndHash()
      requires Valid() && |text| < SIZE
      modifies this`text, buffer
      ensures Valid() && text == old(text) + EncodeEntries([])
    {
      LMAppendChar('s');
    }

    method LMAppendHashString(key: string, value: string)
      requires Valid() && NulFree(key) && NulFree(value) && |key| < 256 && |value| < 256
      requires |text| + |EncodeEntry(Entry(key, StringValue(value)))| < SIZE
      modifies this`text, buffer
      ensures Valid() && text == old(text) + EncodeEntry(Entry(key, StringValue(value)))
    {
      LMAppendString(key);
      LMAppendString(value);
    }

    method LMAppendHashInt(key: string, value: nat)
      requires Valid() && NulFree(key) && |key| < 256 && value < WORD
      requires |text| + |EncodeEntry(Entry(key, IntValue(value)))| < SIZE
      modifies this`text, buffer
      ensures Valid() && text == old(text) + EncodeEntry(Entry(key, IntValue(value)))
    {
      LMAppendString(key);
      LMAppendInt(value);
    }

    method AppendEntry(e: Entry)
      requires Valid() && ValidEntry(e) && (e.value.StringValue? ==> NulFree(e.value.text))
      requires |text| + |EncodeEntry(e)| < SIZE
      modifies this`text, buffer
      ensures Valid() && text == old(text) + EncodeEntry(e)
    {
      match e.value
      case IntValue(number) => LMAppendHashInt(e.key, number);
      case StringValue(value) => LMAppendHashString(e.key, value);
    }

    /** `rfMessageBegin` and `rfMessageBeginRaw`, but for the name. */
    method BeginMessage(name: string)
      requires Valid() && NulFree(name) && |name| < 256 && |EncodeString(name)| + 1 < SIZE
      modifies this`text, this`bufferP, this`state, buffer
      ensures Valid() && text == EncodeString(name) + "h" && bufferP == 0
    {
      LMClear();
      assert "" + EncodeString(name) == EncodeString(name);
      LMAppendString(name);
      LMStartHash();
    }

    /** A whole message, as firmware/message.c writes it: cleared, named, and entry by entry. */
    method WriteMessage(name: string, entries: seq<Entry>)
      requires Valid() && NulFree(name) && |name| < 256 && ValidEntries(entries)
      requires forall e :: e in entries && e.value.StringValue? ==> NulFree(e.value.text)
      requires |EncodeMessage(name, entries)| < SIZE
      modifies this`text, this`bufferP, this`state, buffer
      ensures Valid() && text == EncodeMessage(name, entries) && bufferP == 0
    {
      ghost var whole := EncodeMessage(name, entries);
      Begun(name, entries);
      BeginMessage(name);
      var i := 0;
      while i < |entries|
        invariant 0 <= i <= |entries| && Valid() && bufferP == 0 && ValidEntries(entries[i..])
        invariant text + EncodeEntries(entries[i..]) == whole
      {
        EntriesStep(entries, i, text);
        AppendEntry(entries[i]);
        i := i + 1;
      }
      assert entries[i..] == [];
      assert text + EncodeEntries([]) == whole;
      LMEndHash();
    }

    // -------------------------------------------------------------- reading

    method LMNextIsInt() returns (b: bool)
      requires Valid()
      ensures b == (Memory()[bufferP] == 'i')
    {
      var ch := Peek(bufferP);
      b := ch == 'i';
    }

    method LMTakeInt() returns (retval: nat)
      requires Valid()
      modifies this`bufferP
      ensures Valid() && (retval, bufferP) == TakeIntAt(Memory(), old(bufferP))
    {
      retval := 0;
      var isInt := LMNextIsInt();
      if !isInt {
        return;
      }
      bufferP := Add8(bufferP, 1);
      while bufferP < SIZE
        invariant Valid() && TakeHex(Memory(), bufferP, retval) == TakeIntAt(Memory(), old(bufferP))
        decreases SIZE - bufferP
      {
        var ch := buffer[bufferP];
        bufferP := bufferP + 1;
        if ch == 's' {
          break;
        }
        retval := (retval * 16) % WORD + HexToByte(ch);
      }
    }

    /** The loop of `LMTakeString` over the length. */
    method TakeLength() returns (length: nat)
      requires Valid()
      modifies this`bufferP
      ensures Valid() && length < 256 && (length, bufferP) == LengthAt(Memory(), old(bufferP), 0)
    {
      length := 0;
      while bufferP < SIZE
        invariant length < 256 && Valid()
        invariant LengthAt(Memory(), bufferP, length) == LengthAt(Memory(), old(bufferP), 0)
        decreases SIZE - bufferP
      {
        var ch := buffer[bufferP];
        bufferP := bufferP + 1;
        if ch == ':' {
          break;
        }
        length := Nibble(length, ch);
      }
    }

    method LMTakeString(count: nat) returns (ok: bool, instr: string)
      requires Valid()
      modifies this`bufferP
      ensures Valid() && Taken(ok, instr, bufferP) == TakeStringAt(Memory(), old(bufferP), count)
    {
      var length := TakeLength();
      instr := "";
      if length > count as int - 1 {
        bufferP := Add8(bufferP, length);
        return false, instr;
      }
      ghost var q := bufferP;
      for i := 0 to length
        invariant Valid() && bufferP == Add8(q, i) && instr == Copy(Memory(), q, i)
      {
        var ch := Peek(bufferP);
        instr := instr + [ch];
        bufferP := Add8(bufferP, 1);
      }
      ok := true;
    }

    method LMEnterHash() returns (b: bool)
      requires Valid()
      modifies this`hashStartP
      ensures Valid() && b == (Memory()[bufferP] == 'h')
      ensures hashStartP == if b then Add8(bufferP, 1) else old(hashStartP)
    {
      var ch := Peek(bufferP);
      if ch != 'h' {
        return false;
      }
      hashStartP := Add8(bufferP, 1);
      b := true;
    }

    /** The cursor stands before the entries. */
    ghost predicate Before(entries: seq<Entry>)
      reads this, buffer
    {
      Valid() && ValidEntries(entries) && At(Memory(), bufferP, EncodeEntries(entries))
    }

    /** The cursor stands between the key and the value of the first entry. */
    ghost predicate BeforeValue(entries: seq<Entry>)
      reads this, buffer
    {
      Valid() && ValidEntries(entries) && ValueAt(Memory(), bufferP, entries)
    }

    /** `LMTakeString(&k, sizeof(k))` in the lookup; the end of an empty hash is taken for an empty key. */
    method TakeKey(ghost entries: seq<Entry>) returns (ok: bool, k: string)
      requires Before(entries) && (entries == [] ==> bufferP + 1 == |text|)
      modifies this`bufferP
      ensures Valid()
      ensures entries == [] ==> ok && k == "" && bufferP == SIZE
      ensures entries != [] ==>
                BeforeValue(entries) && ok == (|entries[0].key| <= MAX_KEY) && (ok ==> k == entries[0].key)
    {
      if entries == [] {
        EmptyHashRunsOff(text, behind, bufferP);
      } else {
        RestIsValid(entries);
        ghost var q := FirstPlaces(Memory(), bufferP, entries);
      }
      ok, k := LMTakeString(MAX_KEY + 1);
    }

    /** The value at the cursor is stepped over, or what stands behind the buffer is. */
    method SkipValue(ghost v: Option<Value>)
      requires Valid()
      requires v.Some? ==> ValidValue(v.value) && At(Memory(), bufferP, EncodeValue(v.value))
      requires v.None? ==> bufferP == SIZE
      modifies this`bufferP
      ensures Valid() && if v.Some? then bufferP == old(bufferP) + |EncodeValue(v.value)| else bufferP >= SIZE
    {
      if v.Some? {
        ValueIsSkipped(Memory(), bufferP, v.value);
      }
      var isInt := LMNextIsInt();
      if isInt {
        var n := LMTakeInt();
      } else {
        var ok, s := LMTakeString(0);
      }
    }

    /** The rest of the loop in the lookup: whether the hash ends behind the value. */
    method StepOver(ghost entries: seq<Entry>) returns (ended: bool)
      requires if entries == [] then Valid() && bufferP == SIZE else BeforeValue(entries)
      modifies this`bufferP
      ensures Valid() && (entries == [] ==> bufferP >= SIZE)
      ensures entries != [] ==> Before(entries[1..]) && bufferP < SIZE && ended == (entries[1..] == [])
    {
      if entries != [] {
        RestIsValid(entries);
      }
      SkipValue(if entries == [] then None else Some(entries[0].value));
      if entries != [] {
        AfterEntry(Memory(), bufferP, entries[1..]);
      }
      var ch := Peek(bufferP);
      ended := ch == 's';
    }

    /**
     `LMFindHashString`: found exactly when the association list has a first match, and then
     the cursor stands at the value of that match. Only the empty key is found where it is not:
     in an empty hash, whose end is read as one.
     */
    method LMFindHashString(key: string, ghost entries: seq<Entry>) returns (found: bool)
      requires Valid() && ValidEntries(entries) && At(Memory(), hashStartP, EncodeEntries(entries))
      requires entries == [] ==> hashStartP + 1 == |text|
      modifies this`bufferP
      ensures Valid() && found == (FirstMatch(entries, key).Some? || (entries == [] && key == ""))
      ensures FirstMatch(entries, key).Some? ==>
                var v := FirstMatch(entries, key).value;
                ValidValue(v) && At(Memory(), bufferP, EncodeValue(v))
    {
      bufferP := hashStartP;
      ghost var rest := entries;
      while bufferP < SIZE
        invariant Valid() && FirstMatch(rest, key) == FirstMatch(entries, key)
        invariant bufferP < SIZE ==> Before(rest) && (rest == [] ==> bufferP + 1 == |text|)
        invariant rest == [] ==> entries == []
        invariant bufferP >= SIZE ==> entries == [] && key != ""
        decreases |rest|, SIZE - bufferP
      {
        var ok, k := TakeKey(rest);
        if !ok {
          return false;
        }
        if key == k {
          if rest != [] {
            RestIsValid(rest);
          }
          return true;
        }
        var ended := StepOver(rest);
        if ended {
          return false;
        }
        rest := if rest == [] then [] else rest[1..];
      }
      found := false;
    }

    /** `LMTakeInt` at a value: a string counts as zero, and the cursor stays before it. */
    method TakeNumber(ghost v: Value) returns (n: nat)
      requires Valid() && ValidValue(v) && At(Memory(), bufferP, EncodeValue(v))
      modifies this`bufferP
      ensures Valid() && n == NumberOf(v)
    {
      FirstOfValue(Memory(), bufferP, v);
      if v.IntValue? {
        IntRoundTrip(Memory(), bufferP, v.number);
      }
      n := LMTakeInt();
    }

    /** The lookup of a number, as a handler does it: zero when there is none. */
    method FindNumber(key: string, ghost entries: seq<Entry>) returns (found: bool, n: nat)
      requires Valid() && ValidEntries(entries) && At(Memory(), hashStartP, EncodeEntries(entries))
      requires key != "" && (entries == [] ==> hashStartP + 1 == |text|)
      modifies this`bufferP
      ensures Valid() && found == FirstMatch(entries, key).Some?
      ensures found ==> n == NumberOf(FirstMatch(entries, key).value)
    {
      n := 0;
      found := LMFindHashString(key, entries);
      if found {
        n := TakeNumber(FirstMatch(entries, key).value);
      }
    }

    /** The lookup of a text, as a handler does it: what it is given room for, or nothing. */
    method FindString(key: string, count: nat, ghost entries: seq<Entry>) returns (found: bool, ok: bool, instr: string)
      requires Valid() && ValidEntries(entries) && At(Memory(), hashStartP, EncodeEntries(entries))
      requires key != "" && (entries == [] ==> hashStartP + 1 == |text|)
      modifies this`bufferP
      ensures Valid() && found == FirstMatch(entries, key).Some? && (ok ==> found)
      ensures found && FirstMatch(entries, key).value.StringValue? ==>
                var s := FirstMatch(entries, key).value.text; ok == (|s| < count) && (ok ==> instr == s)
    {
      ok, instr := false, "";
      found := LMFindHashString(key, entries);
      if found {
        ghost var v := FirstMatch(entries, key).value;
        if v.StringValue? {
          StringRoundTrip(Memory(), bufferP, v.text, count);
        }
        ok, instr := LMTakeString(count);
      }
    }

    /**
     The lookups of `sendArctechSelflearning` in firmware/transmit_arctech.c: three first
     matches, or nothing if one of them is missing. Unit and method are 16-bit numbers.
     */
    method ReadCommand(ghost entries: seq<Entry>) returns (found: bool, house: nat, unit: nat, command: nat)
      requires Valid() && ValidEntries(entries) && At(Memory(), hashStartP, EncodeEntries(entries))
      requires entries == [] ==> hashStartP + 1 == |text|
      modifies this`bufferP
      ensures Valid() && found == HasCommand(entries)
      ensures found ==> house == HouseOf(entries) && unit == UnitOf(entries) && command == MethodOf(entries)
    {
      unit, command := 0, 0;
      found, house := FindNumber("house", entries);
      if !found {
        return;
      }
      found, unit := FindNumber("unit", entries);
      if !found {
        return;
      }
      unit := unit % 0x1_0000;
      found, command := FindNumber("method", entries);
      command := command % 0x1_0000;
    }

    /** The name of a message, with the cursor at its start (`handleMessage`). */
    method TakeName(count: nat, ghost name: string, ghost entries: seq<Entry>) returns (ok: bool, instr: string)
      requires Valid() && |name| < 256 && ValidEntries(entries) && text == EncodeMessage(name, entries) && bufferP == 0
      modifies this`bufferP
      ensures Valid() && ok == (|name| < count) && (ok ==> instr == name)
      ensures At(Memory(), bufferP, "h" + EncodeEntries(entries)) && bufferP + 1 + |EncodeEntries(entries)| == |text|
    {
      NameParts(text, behind, name, EncodeEntries(entries));
      StringRoundTrip(Memory(), 0, name, count);
      ok, instr := LMTakeString(count);
    }

    /** The hash behind the name (`send` and the other handlers). */
    method EnterEntries(ghost entries: seq<Entry>)
      requires Valid() && ValidEntries(entries) && At(Memory(), bufferP, "h" + EncodeEntries(entries))
      modifies this`hashStartP
      ensures Valid() && hashStartP == old(bufferP) + 1 && At(Memory(), hashStartP, EncodeEntries(entries))
    {
      AtConcat(Memory(), bufferP, "h", EncodeEntries(entries));
      StandsAt(Memory(), bufferP, 'h');
      var b := LMEnterHash();
    }

    // -------------------------------------------------------------- framing

    /** Two digits as a byte. */
    method HexPair(i: nat) returns (n: nat)
      requires Valid() && i + 1 < |text|
      ensures n == HexToByte(text[i]) * 16 + HexToByte(text[i + 1])
    {
      assert buffer[i] == Padded(text)[i] && buffer[i + 1] == Padded(text)[i + 1];
      n := HexToByte(buffer[i]) * 16 + HexToByte(buffer[i + 1]);
    }

    /** The loop that turns forty digits into the signature. */
    method ReadSignature() returns (signature: seq<nat>)
      requires Valid() && |text| == 43
      ensures signature == SignatureOf(text[3..])
    {
      signature := [];
      ghost var digits := text;
      var i := 3;
      PairsEnd(digits, []);
      while i < 43
        invariant 3 <= i <= 43 && i % 2 == 1 && PairsRead(digits, i, signature)
      {
        var n := HexPair(i);
        PairRead(digits, i, signature, n);
        signature := signature + [n];
        i := i + 2;
      }
      PairsEnd(digits, signature);
    }

    method ClearedChar(ch: char)
      requires Valid() && state == Cleared && |text| < 3
      modifies this, buffer
      ensures Valid() && Current() == ClearedStep(old(Current()), ch)
    {
      LMAppendChar(ch);
      assert forall k :: 0 <= k < 3 ==> buffer[k] == Padded(text)[k];
      if buffer[0] == '2' && buffer[1] == '8' && buffer[2] == ':' {
        state := ParseSignature;
        assert text[..3] == HEADER;
      } else if buffer[2] != '\0' {
        assert text[..3] != HEADER by { assert text[..3] == [buffer[0], buffer[1], buffer[2]]; }
        buffer[0] := buffer[1];
        buffer[1] := buffer[2];
        buffer[2] := '\0';
        text := text[1..3];
        assert buffer[..] == Padded(text);
      }
    }

    /** `LMParseChar`: one step of the automaton, while there is room for the character and a NUL behind it. */
    method LMParseChar(ch: char)
      requires Valid() && Inv(Current()) && HasRoom(Current())
      modifies this, buffer
      ensures Valid() && Current() == Step(accepts, old(Current()), ch) && Inv(Current())
    {
      StepKeepsInv(accepts, Current(), ch);
      match state
      case Cleared =>
        ClearedChar(ch);
      case ParseSignature =>
        LMAppendChar(ch);
        var content := Content();
        if |content| == 43 {
          var signature := ReadSignature();
          signature2 := signature;
          LMClear();
          state := ParseLength;
          length := 0;
        }
      case ParseLength =>
        if ch == ':' {
          LMClear();
          state := ParseMessage;
        } else {
          length := Nibble(length, ch);
        }
      case ParseMessage =>
        LMAppendChar(ch);
        length := if length == 0 then 255 else length - 1;
        if length == 0 {
          var content := Content();
          if accepts(signature2, content) {
            state := MessageReceived;
          } else {
            LMClear();
          }
        }
      case MessageReceived =>
        LMClear();
        LMAppendChar(ch);
        state := ParseSignature;
    }

    /** A stream of characters, one after the other. */
    method ParseChars(chars: string)
      requires Valid() && Inv(Current())
      requires forall k :: 0 <= k < |chars| ==> HasRoom(Run(accepts, Current(), chars[..k]))
      modifies this, buffer
      ensures Valid() && Inv(Current()) && Current() == Run(accepts, old(Current()), chars)
    {
      ghost var start := Current();
      assert chars[..0] == "";
      for k := 0 to |chars|
        invariant Valid() && Inv(Current()) && Current() == Run(accepts, start, chars[..k])
      {
        assert HasRoom(Run(accepts, start, chars[..k]));
        assert chars[..k + 1] == chars[..k] + [chars[k]];
        RunSnoc(accepts, start, chars[..k], chars[k]);
        LMParseChar(chars[k]);
      }
      assert chars[..|chars|] == chars;
    }

    /** Noise and then a frame. */
    method ReceiveFrame(noise: string, sig: string, payload: string)
      requires Valid() && state == Cleared && text == "" && length < 256
      requires IsFrame(noise, sig, payload) && HeaderFree(noise)
      modifies this, buffer
      ensures Valid() && signature2 == SignatureOf(sig)
      ensures if accepts(SignatureOf(sig), payload) then state == MessageReceived && text == payload
              else state == Cleared && text == ""
    {
      ghost var start := Current();
      forall k | 0 <= k < |Stream(noise, sig, payload)|
        ensures HasRoom(Run(accepts, start, Stream(noise, sig, payload)[..k]))
      {
        FrameFits(accepts, start, noise, sig, payload, k);
      }
      FrameIsReceived(accepts, start, noise, sig, payload);
      ParseChars(Stream(noise, sig, payload));
    }
  }

  lemma {:induction false} RestIsValid(entries: seq<Entry>)
    requires entries != [] && ValidEntries(entries)
    ensures ValidEntry(entries[0]) && ValidEntries(entries[1..])
  {
    assert entries[0] in entries;
    forall e | e in entries[1..] ensures ValidEntry(e) {
      assert e in entries;
    }
  }

  lemma {:induction false} ThreeParts(mem: string, p: nat, a: string, b: string, c: string)
    requires At(mem, p, (a + b) + c)
    ensures At(mem, p, a) && At(mem, p + |a|, b) && At(mem, p + |a| + |b|, c)
  {
    AtConcat(mem, p, a + b, c);
    AtConcat(mem, p, a, b);
  }

  /** An integer starts with 'i', and a string with a digit, which is neither 'i' nor 's'. */
  lemma {:induction false} FirstOfString(mem: string, p: nat, s: string)
    requires |mem| == REACH && |s| < 256 && At(mem, p, EncodeString(s))
    ensures p < SIZE && mem[p] != 's' && mem[p] != 'i' && mem[p] != 'h'
  {
    var c := HexChar(if HighDigit(|s|) == 0 then LowDigit(|s|) else HighDigit(|s|));
    assert EncodeString(s)[0] == c;
    assert mem[p] == mem[p..p + |EncodeString(s)|][0];
  }

  lemma {:induction false} FirstOfValue(mem: string, p: nat, v: Value)
    requires |mem| == REACH && ValidValue(v) && At(mem, p, EncodeValue(v))
    ensures p < SIZE && (mem[p] == 'i' <==> v.IntValue?)
  {
    match v
    case IntValue(number) => IntRoundTrip(mem, p, number);
    case StringValue(text) => FirstOfString(mem, p, text);
  }

  /** Behind an entry stands an 's' exactly when it was the last. */
  lemma {:induction false} AfterEntry(mem: string, p: nat, entries: seq<Entry>)
    requires |mem| == REACH && ValidEntries(entries) && At(mem, p, EncodeEntries(entries))
    ensures p < SIZE && (mem[p] == 's' <==> entries == [])
  {
    if entries == [] {
      assert mem[p] == mem[p..p + 1][0];
    } else {
      RestIsValid(entries);
      var e, rest := entries[0], entries[1..];
      FirstParts(mem, p, entries, EncodeString(e.key), EncodeValue(e.value), EncodeEntries(rest));
      FirstOfString(mem, p, e.key);
    }
  }

  /** A value is stepped over, whatever it is. */
  lemma {:induction false} ValueIsSkipped(mem: string, p: nat, v: Value)
    requires |mem| == REACH && ValidValue(v) && At(mem, p, EncodeValue(v))
    ensures p < SIZE
    ensures var q := p + |EncodeValue(v)|;
            if mem[p] == 'i' then TakeIntAt(mem, p).1 == q else TakeStringAt(mem, p, 0).next == q
  {
    FirstOfValue(mem, p, v);
    match v
    case IntValue(number) => IntRoundTrip(mem, p, number);
    case StringValue(text) => StringRoundTrip(mem, p, text, 0);
  }

  /** The key of the first entry is taken, or refused when it is too long. */
  lemma {:induction false} KeyIsTaken(mem: string, p: nat, key: string)
    requires |mem| == REACH && |key| < 256 && At(mem, p, EncodeString(key))
    ensures p < SIZE
    ensures TakeStringAt(mem, p, MAX_KEY + 1) ==
            (var q := p + |EncodeString(key)|; if |key| <= MAX_KEY then Taken(true, key, q) else Taken(false, "", q))
  {
    StringRoundTrip(mem, p, key, MAX_KEY + 1);
  }

  /** Here are the value of the first entry and the other entries. */
  ghost predicate ValueAt(mem: string, p: nat, entries: seq<Entry>) {
    && entries != [] && At(mem, p, EncodeValue(entries[0].value))
    && At(mem, p + |EncodeValue(entries[0].value)|, EncodeEntries(entries[1..]))
  }

  lemma {:induction false} FirstParts(mem: string, p: nat, entries: seq<Entry>, key: string, value: string,
                                      later: string)
    requires entries != [] && At(mem, p, EncodeEntries(entries))
    requires key == EncodeString(entries[0].key) && value == EncodeValue(entries[0].value) &&
             later == EncodeEntries(entries[1..])
    ensures At(mem, p, key) && At(mem, p + |key|, value) && At(mem, p + |key| + |value|, later)
  {
    FirstEntry(entries, key, value, later);
    ThreeParts(mem, p, key, value, later);
  }

  /** Where the value of the first entry stands, behind its key. */
  lemma {:induction false} FirstPlaces(mem: string, p: nat, entries: seq<Entry>) returns (q: nat)
    requires |mem| == REACH && entries != [] && |entries[0].key| < 256 && At(mem, p, EncodeEntries(entries))
    ensures ValueAt(mem, q, entries) && p < SIZE
    ensures var key := entries[0].key;
            TakeStringAt(mem, p, MAX_KEY + 1) == if |key| <= MAX_KEY then Taken(true, key, q) else Taken(false, "", q)
  {
    var key, value := EncodeString(entries[0].key), EncodeValue(entries[0].value);
    q := p + |key|;
    FirstParts(mem, p, entries, key, value, EncodeEntries(entries[1..]));
    KeyIsTaken(mem, p, entries[0].key);
  }

  lemma {:induction false} FirstEntry(entries: seq<Entry>, key: string, value: string, later: string)
    requires entries != []
    requires key == EncodeString(entries[0].key) && value == EncodeValue(entries[0].value) &&
             later == EncodeEntries(entries[1..])
    ensures EncodeEntries(entries) == (key + value) + later
  {
  }

  lemma {:induction false} NothingFollows(mem: string, p: nat)
    requires |mem| == REACH && p <= SIZE && forall i :: p <= i < SIZE ==> mem[i] == '\0'
    ensures LengthAt(mem, p, 0) == (0, SIZE)
    decreases SIZE - p
  {
    if p < SIZE {
      NothingFollows(mem, p + 1);
    }
  }

  /**
   In an empty hash the search for a key takes the closing 's' and all that follows for the
   length of an empty key, and leaves the cursor behind the buffer.
   */
  lemma {:induction false} EmptyHashRunsOff(text: string, behind: string, p: nat)
    requires p + 1 == |text| <= SIZE && |behind| == REACH - SIZE && At(Padded(text) + behind, p, EncodeEntries([]))
    ensures TakeStringAt(Padded(text) + behind, p, MAX_KEY + 1) == Taken(true, "", SIZE)
  {
    var mem := Padded(text) + behind;
    StandsAt(mem, p, 's');
    TextIsAt(text, behind);
    NothingFollows(mem, p + 1);
    assert LengthAt(mem, p, 0) == LengthAt(mem, p + 1, Nibble(0, 's'));
  }
}
