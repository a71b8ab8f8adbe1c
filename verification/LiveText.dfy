/** The text of live messages (firmware/livemessage.c), and how it is read. */
module LiveText {
  import opened Options

  const SIZE := 200

  /** How far an 8-bit cursor reaches: over the buffer and over 56 bytes of whatever follows it. */
  const REACH := 256

  /** A 32-bit word holds integers below this. */
  const WORD := 0x1_0000_0000

  function HexChar(d: nat): char
    requires d < 16
  {
    "0123456789ABCDEF"[d]
  }

  /** `hexToByte` of firmware/common.c. */
  function HexToByte(c: char): (d: nat)
    ensures d < 16
  {
    if '0' <= c <= '9' then c as nat - '0' as nat
    else if 'a' <= c <= 'f' then c as nat - 'a' as nat + 10
    else if 'A' <= c <= 'F' then c as nat - 'A' as nat + 10
    else 0
  }

  lemma {:induction false} HexInverse(d: nat)
    requires d < 16
    ensures HexToByte(HexChar(d)) == d
    ensures HexChar(d) != 's' && HexChar(d) != ':' && HexChar(d) != '\0'
  {
  }

  /** A digit in either case. */
  predicate IsDigit(c: char, d: nat) {
    d < 16 && (c == "0123456789abcdef"[d] || c == "0123456789ABCDEF"[d])
  }

  /** Either case is read as the digit it is, and any other character as 0. */
  lemma {:induction false} EitherCase(c: char, d: nat)
    ensures IsDigit(c, d) ==> HexToByte(c) == d && c != 's' && c != ':' && c != '\0'
    ensures HexToByte(c) != 0 ==> IsDigit(c, HexToByte(c))
  {
  }

  predicate NulFree(s: string) {
    forall i :: 0 <= i < |s| ==> s[i] != '\0'
  }

  // ---------------------------------------------------------------- the text

  datatype Value = IntValue(number: nat) | StringValue(text: string)

  datatype Entry = Entry(key: string, value: Value)

  /** What `btohexa_low` makes a digit of: what is left of an 8-bit number when the sixteens are taken off. */
  function LowDigit(n: nat): (d: nat)
    ensures d < 16 && (n < 16 ==> d == n)
  {
    if n < 16 then n else LowDigit(n - 16)
  }

  /** What `btohexa_high` makes a digit of: how many sixteens there were. */
  function HighDigit(n: nat): (d: nat)
    ensures d < 16 && (n < 16 ==> d == 0)
  {
    if n < 16 then 0 else if HighDigit(n - 16) == 15 then 0 else HighDigit(n - 16) + 1
  }

  lemma {:induction false} DigitsOfByte(n: nat)
    requires n < 256
    ensures 16 * HighDigit(n) + LowDigit(n) == n && (HighDigit(n) == 0 <==> n < 16)
  {
    if n >= 16 {
      DigitsOfByte(n - 16);
    }
  }

  /** The two digits of an 8-bit length, the first one only if it is not zero. */
  function EncodeLength(n: nat): string {
    if HighDigit(n) == 0 then [HexChar(LowDigit(n))] else [HexChar(HighDigit(n)), HexChar(LowDigit(n))]
  }

  function EncodeString(s: string): string {
    EncodeLength(|s|) + ":" + s
  }

  /** Hexadecimal digits without leading zeros; none at all for zero. */
  function Hex(v: nat): string
    decreases v
  {
    if v == 0 then "" else Hex(v / 16) + [HexChar(v % 16)]
  }

  function IntDigits(v: nat): string {
    if v == 0 then "0" else Hex(v)
  }

  function EncodeInt(v: nat): string {
    "i" + (IntDigits(v) + "s")
  }

  predicate ValidValue(v: Value) {
    match v
    case IntValue(number) => number < WORD
    case StringValue(text) => |text| < 256
  }

  function EncodeValue(v: Value): string {
    match v
    case IntValue(number) => EncodeInt(number)
    case StringValue(text) => EncodeString(text)
  }

  predicate ValidEntry(e: Entry) {
    |e.key| < 256 && NulFree(e.key) && ValidValue(e.value)
  }

  function EncodeEntry(e: Entry): string {
    EncodeString(e.key) + EncodeValue(e.value)
  }

  predicate ValidEntries(entries: seq<Entry>) {
    forall e :: e in entries ==> ValidEntry(e)
  }

  /** The inside of a hash, with the 's' that ends it. */
  function EncodeEntries(entries: seq<Entry>): string
    decreases |entries|
  {
    if entries == [] then "s" else EncodeEntry(entries[0]) + EncodeEntries(entries[1..])
  }

  /** A message: its name and a hash. */
  function EncodeMessage(name: string, entries: seq<Entry>): string {
    EncodeString(name) + ("h" + EncodeEntries(entries))
  }

  /** How a message looks. */
  lemma {:induction false} MessageText()
    ensures EncodeMessage("send", [Entry("P", IntValue(11)), Entry("S", StringValue("ab"))]) ==
            "4:send" + ("h" + ("1:PiBs" + ("1:S2:ab" + "s")))
  {
    var p, s := Entry("P", IntValue(11)), Entry("S", StringValue("ab"));
    EntryTexts(p, s);
    TwoEntries(p, s, "1:PiBs", "1:S2:ab");
    assert EncodeString("send") == "4:send";
  }

  lemma {:induction false} TwoEntries(a: Entry, b: Entry, first: string, second: string)
    requires EncodeEntry(a) == first && EncodeEntry(b) == second
    ensures EncodeEntries([a, b]) == first + (second + "s")
  {
    assert [a, b][1..] == [b] && [b][1..] == [];
    assert EncodeEntries([b]) == second + "s";
  }

  lemma {:induction false} EntryTexts(p: Entry, s: Entry)
    requires p == Entry("P", IntValue(11)) && s == Entry("S", StringValue("ab"))
    ensures EncodeEntry(p) == "1:PiBs" && EncodeEntry(s) == "1:S2:ab"
  {
    assert Hex(11) == Hex(0) + [HexChar(11)] == "B";
    assert EncodeInt(11) == "i" + ("B" + "s");
    assert EncodeString("P") == "1" + ":" + "P" && EncodeString("S") == "1" + ":" + "S";
    assert EncodeString("ab") == "2" + ":" + "ab";
  }

  // ---------------------------------------------------------------- reading it back

  /** The text stands in the buffer from position p on. */
  predicate At(mem: string, p: nat, s: string) {
    p + |s| <= SIZE <= |mem| && mem[p..p + |s|] == s
  }

  lemma {:induction false} AtConcat(mem: string, p: nat, a: string, b: string)
    ensures At(mem, p, a + b) <==> At(mem, p, a) && At(mem, p + |a|, b)
  {
    if At(mem, p, a + b) {
      assert mem[p..p + |a|] == (a + b)[..|a|];
      assert mem[p + |a|..p + |a| + |b|] == (a + b)[|a|..];
    }
    if At(mem, p, a) && At(mem, p + |a|, b) {
      assert mem[p..p + |a + b|] == mem[p..p + |a|] + mem[p + |a|..p + |a| + |b|];
    }
  }

  /** An 8-bit sum. */
  function Add8(a: nat, b: nat): (r: nat)
    requires a < 256 && b < 256
    ensures r < 256
  {
    if a + b < 256 then a + b else a + b - 256
  }

  /** The loop of `LMTakeInt`: digits up to an 's' or the end of the buffer. */
  function TakeHex(mem: string, p: nat, value: nat): (r: (nat, nat))
    requires |mem| == REACH && p < REACH
    ensures r.1 < REACH
    decreases REACH - p
  {
    if p >= SIZE then (value, p)
    else if mem[p] == 's' then (value, p + 1)
    else TakeHex(mem, p + 1, (value * 16) % WORD + HexToByte(mem[p]))
  }

  /** The integer at the cursor and where the cursor goes. */
  function TakeIntAt(mem: string, p: nat): (r: (nat, nat))
    requires |mem| == REACH && p < REACH
    ensures r.1 < REACH
  {
    if mem[p] != 'i' then (0, p) else TakeHex(mem, Add8(p, 1), 0)
  }

  /** What the digits add up to, in 32 bits. */
  function Shifted(value: nat, digits: string): nat
    decreases |digits|
  {
    if digits == "" then value else Shifted((value * 16) % WORD + HexToByte(digits[0]), digits[1..])
  }

  lemma {:induction false} ShiftedSnoc(value: nat, digits: string, c: char)
    ensures Shifted(value, digits + [c]) == (Shifted(value, digits) * 16) % WORD + HexToByte(c)
    decreases |digits|
  {
    if digits == "" {
      assert ("" + [c])[1..] == "";
    } else {
      assert (digits + [c])[1..] == digits[1..] + [c];
      ShiftedSnoc((value * 16) % WORD + HexToByte(digits[0]), digits[1..], c);
    }
  }

  predicate Digits(s: string) {
    forall i :: 0 <= i < |s| ==> s[i] != 's' && s[i] != ':' && s[i] != '\0'
  }

  lemma {:induction false} HexDigits(v: nat)
    ensures Digits(Hex(v)) && (v < WORD ==> Shifted(0, Hex(v)) == v)
    decreases v
  {
    if v > 0 {
      var q, d := v / 16, v % 16;
      HexDigits(q);
      LastDigit(Hex(q), q, d);
      assert v == 16 * q + d && Hex(v) == Hex(q) + [HexChar(d)];
    }
  }

  lemma {:induction false} LastDigit(front: string, q: nat, d: nat)
    requires d < 16 && Digits(front) && (q < WORD ==> Shifted(0, front) == q)
    ensures Digits(front + [HexChar(d)])
    ensures 16 * q + d < WORD ==> Shifted(0, front + [HexChar(d)]) == 16 * q + d
  {
    HexInverse(d);
    ShiftedSnoc(0, front, HexChar(d));
    AnotherDigit(front, HexChar(d));
  }

  lemma {:induction false} AnotherDigit(front: string, c: char)
    requires Digits(front) && c != 's' && c != ':' && c != '\0'
    ensures Digits(front + [c])
  {
  }

  lemma {:induction false} TakeDigits(mem: string, p: nat, digits: string, value: nat)
    requires |mem| == REACH && Digits(digits) && At(mem, p, digits + "s")
    ensures TakeHex(mem, p, value) == (Shifted(value, digits), p + |digits| + 1)
    decreases |digits|
  {
    assert mem[p] == (digits + "s")[0];
    if digits != "" {
      AtConcat(mem, p, [digits[0]], digits[1..] + "s");
      assert [digits[0]] + (digits[1..] + "s") == digits + "s";
      TakeDigits(mem, p + 1, digits[1..], (value * 16) % WORD + HexToByte(digits[0]));
    }
  }

  /** The number that some digits are, the highest first. */
  function Number(ds: seq<nat>): nat
    decreases |ds|
  {
    if ds == [] then 0 else Number(ds[..|ds| - 1]) * 16 + ds[|ds| - 1]
  }

  /** A text whose characters are these digits, each in either case. */
  predicate Spells(s: string, ds: seq<nat>) {
    |s| == |ds| && forall i :: 0 <= i < |s| ==> IsDigit(s[i], ds[i])
  }

  /** One more digit below a number that is kept in 32 bits. */
  lemma {:induction false} NextInWord(n: nat, d: nat)
    requires d < 16
    ensures (n % WORD * 16) % WORD + d == (n * 16 + d) % WORD
  {
    var q, r := n / WORD, n % WORD;
    LowPart(r / 0x1000_0000, r % 0x1000_0000, 0);
    LowPart(16 * q + r / 0x1000_0000, r % 0x1000_0000, d);
    assert n * 16 + d == WORD * (16 * q + r / 0x1000_0000) + (16 * (r % 0x1000_0000) + d);
  }

  lemma {:induction false} LowPart(high: nat, low: nat, d: nat)
    requires low < 0x1000_0000 && d < 16
    ensures (WORD * high + (16 * low + d)) % WORD == 16 * low + d
  {
  }

  /** And below one that is kept in 8 bits. */
  lemma {:induction false} NextInByte(n: nat, d: nat)
    requires d < 16
    ensures LowDigit(n % 256) * 16 + d == (n * 16 + d) % 256
  {
    DigitsOfByte(n % 256);
    NextOfDigits(n / 256, HighDigit(n % 256), LowDigit(n % 256), d);
  }

  lemma {:induction false} NextOfDigits(q: nat, high: nat, low: nat, d: nat)
    requires low < 16 && d < 16
    ensures ((256 * q + (16 * high + low)) * 16 + d) % 256 == low * 16 + d
  {
    assert (256 * q + (16 * high + low)) * 16 + d == 256 * (16 * q + high) + (16 * low + d);
  }

  /** The digits are read as a number, in 32 bits. */
  predicate ReadAs(s: string, n: nat) {
    Digits(s) && Shifted(0, s) == n % WORD
  }

  lemma {:induction false} OneMoreDigit(front: string, c: char, s: string, n: nat, d: nat)
    requires ReadAs(front, n) && IsDigit(c, d) && s == front + [c]
    ensures ReadAs(s, n * 16 + d)
  {
    EitherCase(c, d);
    ShiftedSnoc(0, front, c);
    NextInWord(n, d);
  }

  lemma {:induction false} SpellsFront(s: string, ds: seq<nat>)
    requires Spells(s, ds) && s != ""
    ensures var n := |s| - 1;
            && Spells(s[..n], ds[..n]) && IsDigit(s[n], ds[n]) && s == s[..n] + [s[n]]
            && Number(ds) == Number(ds[..n]) * 16 + ds[n]
  {
  }

  lemma {:induction false} SpelledNumber(s: string, ds: seq<nat>)
    requires Spells(s, ds)
    ensures ReadAs(s, Number(ds))
    decreases |ds|
  {
    if ds != [] {
      var n := |ds| - 1;
      var front := s[..n];
      SpellsFront(s, ds);
      SpelledNumber(front, ds[..n]);
      OneMoreDigit(front, s[n], s, Number(ds[..n]), ds[n]);
    }
  }

  /** Any number of digits in either case: the number they are, in 32 bits, and the cursor stands behind them. */
  lemma {:induction false} IntIsNumber(mem: string, p: nat, s: string, ds: seq<nat>)
    requires |mem| == REACH && Spells(s, ds) && At(mem, p, "i" + (s + "s"))
    ensures TakeIntAt(mem, p) == (Number(ds) % WORD, p + |s| + 2)
  {
    AtConcat(mem, p, "i", s + "s");
    assert mem[p] == mem[p..p + 1][0];
    SpelledNumber(s, ds);
    TakeDigits(mem, p + 1, s, 0);
  }

  lemma {:induction false} TakeDigitsToEnd(mem: string, p: nat, digits: string, value: nat)
    requires |mem| == REACH && Digits(digits) && At(mem, p, digits) && p + |digits| == SIZE
    ensures TakeHex(mem, p, value) == (Shifted(value, digits), SIZE)
    decreases |digits|
  {
    if digits != "" {
      AtConcat(mem, p, [digits[0]], digits[1..]);
      assert [digits[0]] + digits[1..] == digits;
      assert mem[p] == mem[p..p + 1][0];
      TakeDigitsToEnd(mem, p + 1, digits[1..], (value * 16) % WORD + HexToByte(digits[0]));
    }
  }

  /** Digits that nothing ends are read to the end of the buffer. */
  lemma {:induction false} IntAtTheEnd(mem: string, p: nat, s: string, ds: seq<nat>)
    requires |mem| == REACH && Spells(s, ds) && At(mem, p, "i" + s) && p + 1 + |s| == SIZE
    ensures TakeIntAt(mem, p) == (Number(ds) % WORD, SIZE)
  {
    AtConcat(mem, p, "i", s);
    assert mem[p] == mem[p..p + 1][0];
    SpelledNumber(s, ds);
    TakeDigitsToEnd(mem, p + 1, s, 0);
  }

  /** Where a string stands there is no integer: 0 is read, and the cursor stays. */
  lemma {:induction false} StringIsNoInt(mem: string, p: nat, s: string)
    requires |mem| == REACH && p < REACH && |s| < 256 && At(mem, p, EncodeString(s))
    ensures TakeIntAt(mem, p) == (0, p)
  {
    AtConcat(mem, p, EncodeLength(|s|) + ":", s);
    StandAt(mem, p, EncodeLength(|s|) + ":");
    HexInverse(LowDigit(|s|));
    HexInverse(HighDigit(|s|));
    NoLetterI(LowDigit(|s|));
    NoLetterI(HighDigit(|s|));
  }

  lemma {:induction false} NoLetterI(d: nat)
    requires d < 16
    ensures HexChar(d) != 'i'
  {
  }

  /** Every 32-bit integer comes back, and the cursor stands behind it. */
  lemma {:induction false} IntRoundTrip(mem: string, p: nat, v: nat)
    requires |mem| == REACH && v < WORD && At(mem, p, EncodeInt(v))
    ensures p < SIZE && mem[p] == 'i' && TakeIntAt(mem, p) == (v, p + |EncodeInt(v)|)
  {
    AtConcat(mem, p, "i", IntDigits(v) + "s");
    assert mem[p] == mem[p..p + 1][0];
    HexDigits(v);
    TakeDigits(mem, p + 1, IntDigits(v), 0);
    if v == 0 {
      assert Shifted(0, "0") == Shifted(0, "0"[1..]);
    }
  }

  /** The loop of `LMTakeString` over the length, an 8-bit number. */
  function LengthAt(mem: string, p: nat, length: nat): (r: (nat, nat))
    requires |mem| == REACH && p < REACH && length < 256
    ensures r.0 < 256 && r.1 < REACH
    decreases REACH - p
  {
    if p >= SIZE then (length, p)
    else if mem[p] == ':' then (length, p + 1)
    else LengthAt(mem, p + 1, Nibble(length, mem[p]))
  }

  /** `length <<= 4` and or-ing a digit in, in 8 bits. */
  function Nibble(length: nat, c: char): (n: nat)
    requires length < 256
    ensures n < 256
  {
    LowDigit(length) * 16 + HexToByte(c)
  }

  /** The first characters of a text in memory. */
  lemma {:induction false} StandAt(mem: string, p: nat, s: string)
    requires At(mem, p, s)
    ensures |s| > 0 ==> mem[p] == s[0]
    ensures |s| > 1 ==> mem[p + 1] == s[1]
    ensures |s| > 2 ==> mem[p + 2] == s[2]
  {
    var here := mem[p..p + |s|];
    assert |s| > 0 ==> mem[p] == here[0];
    assert |s| > 1 ==> mem[p + 1] == here[1];
    assert |s| > 2 ==> mem[p + 2] == here[2];
  }

  lemma {:induction false} OneDigit(mem: string, p: nat, d: nat)
    requires |mem| == REACH && d < 16 && p + 2 <= SIZE && mem[p] == HexChar(d) && mem[p + 1] == ':'
    ensures LengthAt(mem, p, 0) == (d, p + 2)
  {
    HexInverse(d);
    assert LengthAt(mem, p + 1, d) == (d, p + 2);
  }

  lemma {:induction false} TwoDigits(mem: string, p: nat, high: nat, low: nat)
    requires |mem| == REACH && high < 16 && low < 16 && p + 3 <= SIZE
    requires mem[p] == HexChar(high) && mem[p + 1] == HexChar(low) && mem[p + 2] == ':'
    ensures LengthAt(mem, p, 0) == (high * 16 + low, p + 3)
  {
    HexInverse(high);
    HexInverse(low);
    assert Nibble(0, mem[p]) == high && Nibble(high, mem[p + 1]) == high * 16 + low;
    assert LengthAt(mem, p + 1, high) == LengthAt(mem, p + 2, high * 16 + low);
  }

  lemma {:induction false} LengthRoundTrip(mem: string, p: nat, n: nat)
    requires |mem| == REACH && n < 256 && At(mem, p, EncodeLength(n) + ":")
    ensures LengthAt(mem, p, 0) == (n, p + |EncodeLength(n)| + 1)
  {
    var code := EncodeLength(n) + ":";
    DigitsOfByte(n);
    StandAt(mem, p, code);
    if n >= 16 {
      assert code == [HexChar(HighDigit(n)), HexChar(LowDigit(n)), ':'];
      TwoDigits(mem, p, HighDigit(n), LowDigit(n));
    } else {
      assert code == [HexChar(n), ':'];
      OneDigit(mem, p, n);
    }
  }

  lemma {:induction false} NibbleNumber(length: nat, n: nat, c: char, d: nat)
    requires length == n % 256 && IsDigit(c, d)
    ensures Nibble(length, c) == (n * 16 + d) % 256
  {
    EitherCase(c, d);
    NextInByte(n, d);
  }

  lemma {:induction false} CharAt(mem: string, p: nat, s: string, k: nat)
    requires At(mem, p, s) && k < |s|
    ensures p + k < SIZE && mem[p + k] == s[k]
  {
    assert mem[p..p + |s|][k] == mem[p + k];
  }

  lemma {:induction false} NumberSnoc(ds: seq<nat>, k: nat)
    requires k < |ds|
    ensures Number(ds[..k + 1]) == Number(ds[..k]) * 16 + ds[k]
  {
    assert ds[..k + 1][..k] == ds[..k];
  }

  /** What remains of the digits of a length, when some have been read. */
  lemma {:induction false} LengthGoesOn(mem: string, p: nat, s: string, ds: seq<nat>, k: nat)
    requires |mem| == REACH && Spells(s, ds) && k <= |s| && At(mem, p, s + ":")
    ensures LengthAt(mem, p + k, Number(ds[..k]) % 256) == (Number(ds) % 256, p + |s| + 1)
    decreases |s| - k
  {
    CharAt(mem, p, s + ":", k);
    if k == |s| {
      assert ds[..k] == ds;
    } else {
      NumberSnoc(ds, k);
      EitherCase(s[k], ds[k]);
      NibbleNumber(Number(ds[..k]) % 256, Number(ds[..k]), s[k], ds[k]);
      LengthGoesOn(mem, p, s, ds, k + 1);
    }
  }

  /** Any number of digits of a length in either case: the number they are, in 8 bits. */
  lemma {:induction false} LengthIsNumber(mem: string, p: nat, s: string, ds: seq<nat>)
    requires |mem| == REACH && Spells(s, ds) && At(mem, p, s + ":")
    ensures LengthAt(mem, p, 0) == (Number(ds) % 256, p + |s| + 1)
  {
    LengthGoesOn(mem, p, s, ds, 0);
  }

  datatype Taken = Taken(ok: bool, text: string, next: nat)

  /** The characters that the copying loop finds; nothing stops it at the end of the buffer. */
  function Copy(mem: string, p: nat, length: nat): (s: string)
    requires |mem| == REACH && p < REACH && length < 256
    ensures |s| == length
    decreases length
  {
    if length == 0 then "" else Copy(mem, p, length - 1) + [mem[Add8(p, length - 1)]]
  }

  lemma {:induction false} CopyIsSlice(mem: string, p: nat, length: nat)
    requires |mem| == REACH && p + length <= SIZE && p < REACH && length < 256
    ensures Copy(mem, p, length) == mem[p..p + length]
    decreases length
  {
    if length > 0 {
      var last := p + length - 1;
      CopyIsSlice(mem, p, length - 1);
      assert mem[p..last + 1] == mem[p..last] + [mem[last]];
    }
  }

  /** What `LMTakeString` does: too long a string is skipped, and with no room at all every string is. */
  function TakeStringAt(mem: string, p: nat, count: nat): (r: Taken)
    requires |mem| == REACH && p < REACH
    ensures r.next < REACH
  {
    var (length, q) := LengthAt(mem, p, 0);
    if length < count then Taken(true, Copy(mem, q, length), Add8(q, length)) else Taken(false, "", Add8(q, length))
  }

  /** Every string that there is room for comes back; the cursor stands behind it in either case. */
  lemma {:induction false} StringRoundTrip(mem: string, p: nat, s: string, count: nat)
    requires |mem| == REACH && |s| < 256 && At(mem, p, EncodeString(s))
    ensures p < SIZE
    ensures TakeStringAt(mem, p, count) ==
            if |s| < count then Taken(true, s, p + |EncodeString(s)|) else Taken(false, "", p + |EncodeString(s)|)
  {
    var code := EncodeLength(|s|) + ":";
    AtConcat(mem, p, code, s);
    LengthRoundTrip(mem, p, |s|);
    var q := p + |code|;
    assert mem[q..q + |s|] == s && q + |s| == p + |EncodeString(s)| <= SIZE;
    CopyIsSlice(mem, q, |s|);
  }

  // ---------------------------------------------------------------- the association list

  /** The longest key that `LMFindHashString` has room for. */
  const MAX_KEY := 11

  /** The value of the first entry with the key, unless a longer key than there is room for comes before. */
  function FirstMatch(entries: seq<Entry>, key: string): Option<Value>
    decreases |entries|
  {
    if entries == [] || |entries[0].key| > MAX_KEY then None
    else if entries[0].key == key then Some(entries[0].value)
    else FirstMatch(entries[1..], key)
  }

  /** Entry i has the key, no earlier one has it, and no key up to there is too long. */
  predicate Matches(entries: seq<Entry>, key: string, i: nat) {
    && i < |entries| && entries[i].key == key
    && (forall j :: 0 <= j < i ==> entries[j].key != key)
    && (forall j :: 0 <= j <= i ==> |entries[j].key| <= 11)
  }

  lemma {:induction false} MatchesLater(entries: seq<Entry>, key: string, i: nat)
    requires entries != [] && |entries[0].key| <= MAX_KEY && entries[0].key != key && i > 0
    ensures Matches(entries, key, i) <==> Matches(entries[1..], key, i - 1)
  {
    var rest := entries[1..];
    if Matches(rest, key, i - 1) {
      forall j | 0 <= j <= i ensures |entries[j].key| <= MAX_KEY && (j < i ==> entries[j].key != key) {
        if j > 0 {
          assert entries[j] == rest[j - 1];
        }
      }
    }
    if Matches(entries, key, i) {
      forall j | 0 <= j <= i - 1 ensures |rest[j].key| <= MAX_KEY && (j < i - 1 ==> rest[j].key != key) {
        assert rest[j] == entries[j + 1];
      }
    }
  }

  /**
   For every list and key: the lookup finds the value of an entry if and only if that entry is
   the first with the key and neither it nor one before it has too long a key.
   */
  lemma {:induction false} FirstMatchIsFirst(entries: seq<Entry>, key: string)
    ensures FirstMatch(entries, key).Some? <==> exists i: nat :: Matches(entries, key, i)
    ensures forall i: nat :: Matches(entries, key, i) ==> FirstMatch(entries, key) == Some(entries[i].value)
    decreases |entries|
  {
    if entries != [] && |entries[0].key| <= MAX_KEY {
      if entries[0].key == key {
        assert Matches(entries, key, 0);
      } else {
        FirstMatchIsFirst(entries[1..], key);
        forall i: nat ensures Matches(entries, key, i) <==> i > 0 && Matches(entries[1..], key, i - 1) {
          if i > 0 {
            MatchesLater(entries, key, i);
          }
        }
        if exists i: nat :: Matches(entries[1..], key, i) {
          var i: nat :| Matches(entries[1..], key, i);
          assert Matches(entries, key, i + 1);
        }
      }
    }
  }

  /** With short keys only, that is every key that is there. */
  lemma {:induction false} FindsShortKeys(entries: seq<Entry>, key: string)
    requires forall e :: e in entries ==> |e.key| <= MAX_KEY
    ensures FirstMatch(entries, key).Some? <==> exists e :: e in entries && e.key == key
    decreases |entries|
  {
    if entries != [] {
      var rest := entries[1..];
      FindsShortKeys(rest, key);
      if entries[0].key != key && exists e :: e in entries && e.key == key {
        var e :| e in entries && e.key == key;
        assert e in rest;
      }
    }
  }

  /** A key that is there and is not found, because a longer one stands before it. */
  lemma {:induction false} LongKeyHides()
    ensures var entries := [Entry("temperature2", IntValue(1)), Entry("ip", IntValue(2))];
            ValidEntries(entries) && entries[1].key == "ip" && FirstMatch(entries, "ip") == None
  {
    assert |"temperature2"| == 12;
  }
}
