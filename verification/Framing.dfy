/** The framing automaton of firmware/livemessage.c, for any check of signatures. */
module Framing {
  import opened LiveText

  datatype Phase = Cleared | ParseSignature | ParseLength | ParseMessage | MessageReceived

  /** The state of the automaton; `text` is what stands in the buffer before its first NUL. */
  datatype State = State(phase: Phase, text: string, signature: seq<nat>, length: nat)

  const HEADER := "28:"

  /** `LMAppendChar`: a NUL leaves the text as it is. */
  function Append(text: string, ch: char): string {
    if ch == '\0' then text else text + [ch]
  }

  /** `(hexToByte(high) << 4) | hexToByte(low)` for each pair of characters. */
  function SignatureOf(digits: string): seq<nat>
    decreases |digits|
  {
    if |digits| < 2 then []
    else [HexToByte(digits[0]) * 16 + HexToByte(digits[1])] + SignatureOf(digits[2..])
  }

  /** While cleared: the text is three characters wide, and slides until it is the header. */
  function ClearedStep(st: State, ch: char): State {
    var text := Append(st.text, ch);
    if |text| < 3 then st.(text := text)
    else if text[..3] == HEADER then st.(phase := ParseSignature, text := text)
    else st.(text := text[1..3])
  }

  function SignatureStep(st: State, ch: char): State {
    var text := Append(st.text, ch);
    if |text| == 43 then State(ParseLength, "", SignatureOf(text[3..]), 0) else st.(text := text)
  }

  function LengthStep(st: State, ch: char): State {
    if ch == ':' then st.(phase := ParseMessage, text := "")
    else st.(length := Nibble(st.length % 256, ch))
  }

  function MessageStep(accepts: (seq<nat>, string) -> bool, st: State, ch: char): State {
    var text, length := Append(st.text, ch), if st.length == 0 then 255 else st.length - 1;
    if length != 0 then st.(text := text, length := length)
    else if accepts(st.signature, text) then st.(phase := MessageReceived, text := text, length := 0)
    else st.(phase := Cleared, text := "", length := 0)
  }

  /** `LMParseChar`. */
  function Step(accepts: (seq<nat>, string) -> bool, st: State, ch: char): State {
    match st.phase
    case Cleared => ClearedStep(st, ch)
    case ParseSignature => SignatureStep(st, ch)
    case ParseLength => LengthStep(st, ch)
    case ParseMessage => MessageStep(accepts, st, ch)
    case MessageReceived => st.(phase := ParseSignature, text := Append("", ch))
  }

  /** The bounds that every run keeps: the window slides, and the signature is complete at 43 characters. */
  predicate Inv(st: State) {
    st.length < 256 && (st.phase == Cleared ==> |st.text| < 3) && (st.phase == ParseSignature ==> |st.text| < 43)
  }

  lemma {:induction false} StepKeepsInv(accepts: (seq<nat>, string) -> bool, st: State, ch: char)
    requires Inv(st)
    ensures Inv(Step(accepts, st, ch))
  {
  }

  function Run(accepts: (seq<nat>, string) -> bool, st: State, chars: string): State
    decreases |chars|
  {
    var n := |chars|;
    if n == 0 then st else Step(accepts, Run(accepts, st, chars[..n - 1]), chars[n - 1])
  }

  lemma {:induction false} RunSnoc(accepts: (seq<nat>, string) -> bool, st: State, chars: string, ch: char)
    ensures Run(accepts, st, chars + [ch]) == Step(accepts, Run(accepts, st, chars), ch)
  {
    assert (chars + [ch])[..|chars|] == chars;
  }

  lemma {:induction false} RunConcat(accepts: (seq<nat>, string) -> bool, st: State, a: string, b: string)
    ensures Run(accepts, st, a + b) == Run(accepts, Run(accepts, st, a), b)
    decreases |b|
  {
    if b == "" {
      assert a + b == a;
    } else {
      var front, last := b[..|b| - 1], b[|b| - 1];
      assert a + b == (a + front) + [last];
      RunSnoc(accepts, st, a + front, last);
      RunConcat(accepts, st, a, front);
    }
  }

  // ---------------------------------------------------------------- noise

  predicate HeaderAt(s: string, i: nat) {
    i + 3 <= |s| && s[i..i + 3] == HEADER
  }

  ghost predicate HeaderFree(s: string) {
    forall i: nat :: !HeaderAt(s, i)
  }

  function LastTwo(s: string): string {
    if |s| < 2 then s else s[|s| - 2..]
  }

  lemma {:induction false} HeaderFreePrefix(s: string, n: nat)
    requires HeaderFree(s) && n <= |s|
    ensures HeaderFree(s[..n])
  {
    forall i: nat ensures !HeaderAt(s[..n], i) {
      if i + 3 <= n {
        assert s[..n][i..i + 3] == s[i..i + 3];
        assert !HeaderAt(s, i);
      }
    }
  }

  lemma {:induction false} LastThree(s: string, ch: char)
    requires |s| >= 2
    ensures LastTwo(s) + [ch] == (s + [ch])[|s| - 2..|s| + 1] && (LastTwo(s) + [ch])[1..3] == LastTwo(s + [ch])
  {
  }

  lemma {:induction false} NoiseStep(st: State, front: string, ch: char)
    requires st.text == LastTwo(front) && ch != '\0' && HeaderFree(front + [ch])
    ensures ClearedStep(st, ch) == st.(text := LastTwo(front + [ch]))
  {
    if |front| >= 2 {
      var text := LastTwo(front) + [ch];
      LastThree(front, ch);
      assert text[..3] == text;
      assert !HeaderAt(front + [ch], |front| - 2);
    }
  }

  /** Noise without a header is forgotten but for its last two characters. */
  lemma {:induction false} NoiseKeeps(accepts: (seq<nat>, string) -> bool, st: State, noise: string)
    requires st.phase == Cleared && st.text == "" && NulFree(noise) && HeaderFree(noise)
    ensures Run(accepts, st, noise) == st.(text := LastTwo(noise))
    decreases |noise|
  {
    var n := |noise| - 1;
    if n >= 0 {
      var front, last := noise[..n], noise[n];
      HeaderFreePrefix(noise, n);
      NoiseKeeps(accepts, st, front);
      RunSnoc(accepts, st, front, last);
      FrontLast(noise);
      NoiseStep(st.(text := LastTwo(front)), front, last);
    }
  }

  lemma {:induction false} FrontLast(s: string)
    requires s != ""
    ensures s[..|s| - 1] + [s[|s| - 1]] == s
  {
  }

  lemma {:induction false} HeaderFreeSnoc(noise: string, ch: char)
    requires HeaderFree(noise) && ch != ':'
    ensures HeaderFree(noise + [ch])
  {
    forall i: nat ensures !HeaderAt(noise + [ch], i) {
      if i + 3 <= |noise| {
        assert (noise + [ch])[i..i + 3] == noise[i..i + 3];
        assert !HeaderAt(noise, i);
      } else if i + 3 == |noise| + 1 {
        assert (noise + [ch])[i..i + 3][2] == ch;
      }
    }
  }

  /** The first header is found, whatever stood before it. */
  lemma {:induction false} HeaderFound(accepts: (seq<nat>, string) -> bool, st: State, noise: string)
    requires st.phase == Cleared && st.text == "" && NulFree(noise) && HeaderFree(noise)
    ensures Run(accepts, st, noise + HEADER) == st.(phase := ParseSignature, text := HEADER)
  {
    HeaderFreeSnoc(noise, '2');
    HeaderFreeSnoc(noise + ['2'], '8');
    var before := noise + ['2'] + ['8'];
    NoiseKeeps(accepts, st, before);
    assert LastTwo(before) + [':'] == HEADER;
    assert noise + HEADER == before + [':'];
    RunSnoc(accepts, st, before, ':');
  }

  // ---------------------------------------------------------------- a frame

  lemma {:induction false} SignatureGrows(accepts: (seq<nat>, string) -> bool, st: State, sig: string)
    requires st.phase == ParseSignature && st.text == HEADER && NulFree(sig) && |sig| < 40
    ensures Run(accepts, st, sig) == st.(text := HEADER + sig)
    decreases |sig|
  {
    if sig == "" {
      assert HEADER + sig == HEADER;
    } else {
      var n := |sig| - 1;
      SignatureGrows(accepts, st, sig[..n]);
      assert HEADER + sig[..n] + [sig[n]] == HEADER + sig;
    }
  }

  lemma {:induction false} SignatureRead(accepts: (seq<nat>, string) -> bool, st: State, sig: string)
    requires st.phase == ParseSignature && st.text == HEADER && NulFree(sig) && |sig| == 40
    ensures Run(accepts, st, sig) == State(ParseLength, "", SignatureOf(sig), 0)
  {
    SignatureGrows(accepts, st, sig[..39]);
    var text := HEADER + sig[..39] + [sig[39]];
    assert text == HEADER + sig;
    assert text[3..] == sig;
  }

  lemma {:induction false} DigitRead(accepts: (seq<nat>, string) -> bool, st: State, d: nat)
    requires st.phase == ParseLength && st.text == "" && st.length < 16 && d < 16
    ensures Step(accepts, st, HexChar(d)) == st.(length := 16 * st.length + d)
  {
    HexInverse(d);
  }

  lemma {:induction false} DigitsRead(accepts: (seq<nat>, string) -> bool, st: State, n: nat)
    requires st.phase == ParseLength && st.text == "" && st.length == 0 && n < 256
    ensures Run(accepts, st, EncodeLength(n)) == st.(length := n)
  {
    var high, low := HighDigit(n), LowDigit(n);
    DigitsOfByte(n);
    if high == 0 {
      DigitRead(accepts, st, low);
      OneChar(accepts, st, HexChar(low));
    } else {
      DigitRead(accepts, st, high);
      DigitRead(accepts, st.(length := high), low);
      TwoChars(accepts, st, HexChar(high), HexChar(low));
    }
  }

  lemma {:induction false} TwoChars(accepts: (seq<nat>, string) -> bool, st: State, a: char, b: char)
    ensures Run(accepts, st, [a, b]) == Step(accepts, Step(accepts, st, a), b)
  {
    OneChar(accepts, st, a);
    RunSnoc(accepts, st, [a], b);
    assert [a] + [b] == [a, b];
  }

  lemma {:induction false} LengthRead(accepts: (seq<nat>, string) -> bool, st: State, n: nat)
    requires st.phase == ParseLength && st.text == "" && st.length == 0 && n < 256
    ensures Run(accepts, st, EncodeLength(n) + ":") == st.(phase := ParseMessage, length := n)
  {
    DigitsRead(accepts, st, n);
    RunSnoc(accepts, st, EncodeLength(n), ':');
  }

  lemma {:induction false} OneChar(accepts: (seq<nat>, string) -> bool, st: State, ch: char)
    ensures Run(accepts, st, [ch]) == Step(accepts, st, ch)
  {
    assert [ch][..0] == "";
  }

  lemma {:induction false} PayloadGrows(accepts: (seq<nat>, string) -> bool, st: State, payload: string)
    requires st.phase == ParseMessage && st.text == "" && NulFree(payload) && |payload| < st.length
    ensures Run(accepts, st, payload) == st.(text := payload, length := st.length - |payload|)
    decreases |payload|
  {
    if payload != "" {
      var n := |payload| - 1;
      PayloadGrows(accepts, st, payload[..n]);
      assert payload[..n] + [payload[n]] == payload;
    }
  }

  lemma {:induction false} PayloadRead(accepts: (seq<nat>, string) -> bool, st: State, payload: string)
    requires st.phase == ParseMessage && st.text == "" && NulFree(payload) && 0 < |payload| == st.length
    ensures Run(accepts, st, payload) == Done(accepts, st, payload)
  {
    var n := |payload| - 1;
    PayloadGrows(accepts, st, payload[..n]);
    assert payload[..n] + [payload[n]] == payload;
  }

  /** The payload is kept if the signature fits it; otherwise everything is forgotten. */
  function Done(accepts: (seq<nat>, string) -> bool, st: State, payload: string): State {
    if accepts(st.signature, payload) then State(MessageReceived, payload, st.signature, 0)
    else State(Cleared, "", st.signature, 0)
  }

  predicate IsFrame(noise: string, sig: string, payload: string) {
    |sig| == 40 && 0 < |payload| < SIZE && NulFree(noise) && NulFree(sig) && NulFree(payload)
  }

  function Stream(noise: string, sig: string, payload: string): string
    requires IsFrame(noise, sig, payload)
  {
    noise + EncodeString(sig) + EncodeString(payload)
  }

  /** A 40-character string is announced by the header. */
  lemma {:induction false} HeaderIsLength(sig: string)
    requires |sig| == 40
    ensures EncodeString(sig) == HEADER + sig
  {
    assert EncodeLength(40) == "28";
    assert EncodeLength(40) + ":" == HEADER;
  }

  /**
   Any noise without a header, then a frame: the automaton ends with exactly the payload if the
   signature fits it, and cleared otherwise.
   */
  lemma {:induction false} FrameIsReceived(
    accepts: (seq<nat>, string) -> bool, st: State, noise: string, sig: string, payload: string)
    requires st.phase == Cleared && st.text == "" && IsFrame(noise, sig, payload) && HeaderFree(noise)
    ensures Run(accepts, st, Stream(noise, sig, payload)) ==
            if accepts(SignatureOf(sig), payload) then State(MessageReceived, payload, SignatureOf(sig), 0)
            else State(Cleared, "", SignatureOf(sig), 0)
  {
    var n := |payload|;
    var start, code := noise + HEADER, EncodeLength(n) + ":";
    HeaderIsLength(sig);
    assert Stream(noise, sig, payload) == ((start + sig) + code) + payload;
    HeaderFound(accepts, st, noise);
    RunConcat(accepts, st, start, sig);
    SignatureRead(accepts, Run(accepts, st, start), sig);
    RunConcat(accepts, st, start + sig, code);
    LengthRead(accepts, Run(accepts, st, start + sig), n);
    RunConcat(accepts, st, (start + sig) + code, payload);
    PayloadRead(accepts, Run(accepts, st, (start + sig) + code), payload);
  }

  // ---------------------------------------------------------------- any digits, a NUL, and the next frame

  /** The bytes of a signature, from digits in either case. */
  lemma {:induction false} SignatureDigits(sig: string, ds: seq<nat>, i: nat)
    requires Spells(sig, ds) && 2 * i + 1 < |sig|
    ensures i < |SignatureOf(sig)| && SignatureOf(sig)[i] == 16 * ds[2 * i] + ds[2 * i + 1]
    decreases |sig|
  {
    EitherCase(sig[0], ds[0]);
    EitherCase(sig[1], ds[1]);
    if i > 0 {
      SignatureDigits(sig[2..], ds[2..], i - 1);
    }
  }

  /** Any number of digits of a length, in either case: the number they are, in 8 bits. */
  lemma {:induction false} SpelledLengthRead(accepts: (seq<nat>, string) -> bool, st: State, s: string, ds: seq<nat>)
    requires st.phase == ParseLength && st.text == "" && st.length == 0 && Spells(s, ds)
    ensures Run(accepts, st, s + ":") == st.(phase := ParseMessage, length := Number(ds) % 256)
  {
    SpelledDigitsRead(accepts, st, s, ds);
    RunSnoc(accepts, st, s, ':');
  }

  lemma {:induction false} SpelledDigitRead(accepts: (seq<nat>, string) -> bool, st: State, c: char, d: nat, n: nat)
    requires st.phase == ParseLength && st.length == n % 256 && IsDigit(c, d)
    ensures Step(accepts, st, c) == st.(length := (n * 16 + d) % 256)
  {
    EitherCase(c, d);
    NibbleNumber(n % 256, n, c, d);
  }

  lemma {:induction false} SpelledDigitsRead(accepts: (seq<nat>, string) -> bool, st: State, s: string, ds: seq<nat>)
    requires st.phase == ParseLength && st.text == "" && st.length == 0 && Spells(s, ds)
    ensures Run(accepts, st, s) == st.(length := Number(ds) % 256)
    decreases |s|
  {
    if s != "" {
      var n := |s| - 1;
      var m := Number(ds[..n]);
      SpellsFront(s, ds);
      SpelledDigitsRead(accepts, st, s[..n], ds[..n]);
      SpelledDigitRead(accepts, st.(length := m % 256), s[n], ds[n], m);
    }
  }

  /** Outside a length and a payload a NUL changes nothing; in a payload it counts but leaves no trace. */
  lemma {:induction false} NulLeavesNoTrace(accepts: (seq<nat>, string) -> bool, st: State)
    requires Inv(st)
    ensures st.phase == Cleared || st.phase == ParseSignature ==> Step(accepts, st, '\0') == st
    ensures st.phase == ParseMessage && st.length > 1 ==>
              Step(accepts, st, '\0') == st.(length := st.length - 1)
  {
  }

  lemma {:induction false} SignatureAgain(accepts: (seq<nat>, string) -> bool, st: State, s: string)
    requires st.phase == MessageReceived && NulFree(s) && 0 < |s| <= 43
    ensures Run(accepts, st, s) ==
            if |s| < 43 then st.(phase := ParseSignature, text := s)
            else State(ParseLength, "", SignatureOf(s[3..]), 0)
    decreases |s|
  {
    var n := |s| - 1;
    if n == 0 {
      assert s[..0] == "" && s == [s[0]];
    } else {
      SignatureAgain(accepts, st, s[..n]);
      assert s[..n] + [s[n]] == s;
    }
  }

  /**
   A frame that comes while a message is still there takes its place, and is judged in the same
   way; the first three of its characters can be any.
   */
  lemma {:induction false} NextFrameIsReceived(
    accepts: (seq<nat>, string) -> bool, st: State, three: string, sig: string, payload: string)
    requires st.phase == MessageReceived && |three| == 3 && IsFrame(three, sig, payload)
    ensures Run(accepts, st, (three + sig) + EncodeString(payload)) ==
            if accepts(SignatureOf(sig), payload) then State(MessageReceived, payload, SignatureOf(sig), 0)
            else State(Cleared, "", SignatureOf(sig), 0)
  {
    var n := |payload|;
    var code := EncodeLength(n) + ":";
    assert (three + sig) + EncodeString(payload) == ((three + sig) + code) + payload;
    assert (three + sig)[3..] == sig;
    SignatureAgain(accepts, st, three + sig);
    RunConcat(accepts, st, three + sig, code);
    LengthRead(accepts, Run(accepts, st, three + sig), n);
    RunConcat(accepts, st, (three + sig) + code, payload);
    PayloadRead(accepts, Run(accepts, st, (three + sig) + code), payload);
  }

  // ---------------------------------------------------------------- room in the buffer

  lemma {:induction false} PrefixConcat(a: string, b: string, k: nat)
    requires k <= |a| + |b|
    ensures (a + b)[..k] == if k <= |a| then a[..k] else a + b[..k - |a|]
  {
  }

  lemma {:induction false} DigitsKeepText(accepts: (seq<nat>, string) -> bool, st: State, digits: string)
    requires st.phase == ParseLength && st.text == "" && Digits(digits)
    ensures Run(accepts, st, digits).phase == ParseLength && Run(accepts, st, digits).text == ""
    decreases |digits|
  {
    if digits != "" {
      DigitsKeepText(accepts, st, digits[..|digits| - 1]);
    }
  }

  lemma {:induction false} LengthDigits(n: nat)
    requires n < 256
    ensures Digits(EncodeLength(n))
  {
    HexInverse(LowDigit(n));
    HexInverse(HighDigit(n));
  }

  lemma {:induction false} PayloadFits(
    accepts: (seq<nat>, string) -> bool, st: State, noise: string, sig: string, n: nat, part: string)
    requires st.phase == Cleared && st.text == "" && NulFree(noise) && HeaderFree(noise) && NulFree(sig) && |sig| == 40
    requires |part| < n < SIZE && NulFree(part)
    ensures Run(accepts, st, ((noise + HEADER + sig) + (EncodeLength(n) + ":")) + part).text == part
  {
    var start, code := noise + HEADER, EncodeLength(n) + ":";
    HeaderFound(accepts, st, noise);
    RunConcat(accepts, st, start, sig);
    SignatureRead(accepts, Run(accepts, st, start), sig);
    RunConcat(accepts, st, start + sig, code);
    LengthRead(accepts, Run(accepts, st, start + sig), n);
    RunConcat(accepts, st, (start + sig) + code, part);
    PayloadGrows(accepts, Run(accepts, st, (start + sig) + code), part);
  }

  lemma {:induction false} StreamFront(noise: string, sig: string, payload: string)
    returns (front: string, before: string)
    requires IsFrame(noise, sig, payload)
    ensures before == noise + HEADER + sig + EncodeLength(|payload|) && front == before + ":"
    ensures front == (noise + HEADER + sig) + (EncodeLength(|payload|) + ":")
    ensures Stream(noise, sig, payload) == front + payload
  {
    before := noise + HEADER + sig + EncodeLength(|payload|);
    front := before + ":";
    HeaderIsLength(sig);
    assert front == (noise + HEADER + sig) + (EncodeLength(|payload|) + ":");
    assert Stream(noise, sig, payload) == front + payload;
  }

  /** On its way through such a stream the automaton never writes behind the buffer. */
  lemma {:induction false} FrameFits(
    accepts: (seq<nat>, string) -> bool, st: State, noise: string, sig: string, payload: string, k: nat)
    requires st.phase == Cleared && st.text == "" && IsFrame(noise, sig, payload) && HeaderFree(noise)
    requires k < |Stream(noise, sig, payload)|
    ensures HasRoom(Run(accepts, st, Stream(noise, sig, payload)[..k]))
  {
    var n := |payload|;
    var front, before := StreamFront(noise, sig, payload);
    PrefixConcat(front, payload, k);
    if k < |front| {
      PrefixConcat(before, ":", k);
      BeforePayloadFits(accepts, st, noise, sig, EncodeLength(n), n, k);
    } else {
      assert (front + payload)[..k] == front + payload[..k - |front|];
      PayloadFits(accepts, st, noise, sig, n, payload[..k - |front|]);
    }
  }

  lemma {:induction false} BeforePayloadFits(
    accepts: (seq<nat>, string) -> bool, st: State, noise: string, sig: string, digits: string, n: nat, k: nat)
    requires st.phase == Cleared && st.text == "" && NulFree(noise) && HeaderFree(noise) && NulFree(sig) && |sig| == 40
    requires n < 256 && digits == EncodeLength(n) && k <= |noise| + 43 + |digits|
    ensures |Run(accepts, st, (noise + HEADER + sig + digits)[..k]).text| < 50
  {
    var start := noise + HEADER;
    PrefixConcat(start + sig, digits, k);
    if k < |start| {
      PrefixConcat(start, sig, k);
      NoiseFits(accepts, st, noise, k);
    } else if k < |start| + 40 {
      assert (start + sig)[..k] == start + sig[..k - |start|];
      SignatureFits(accepts, st, noise, sig[..k - |start|]);
    } else if k == |start| + 40 {
      assert (start + sig) + "" == start + sig;
      LengthFits(accepts, st, noise, sig, "");
    } else {
      LengthDigits(n);
      LengthFits(accepts, st, noise, sig, digits[..k - |start| - 40]);
    }
  }

  lemma {:induction false} NoiseFits(accepts: (seq<nat>, string) -> bool, st: State, noise: string, k: nat)
    requires st.phase == Cleared && st.text == "" && NulFree(noise) && HeaderFree(noise) && k < |noise| + 3
    ensures |Run(accepts, st, (noise + HEADER)[..k]).text| < 50
  {
    var before := noise + ['2'] + ['8'];
    HeaderFreeSnoc(noise, '2');
    HeaderFreeSnoc(noise + ['2'], '8');
    HeaderFreePrefix(before, k);
    NoiseKeeps(accepts, st, before[..k]);
    assert noise + HEADER == before + [':'];
    PrefixConcat(before, [':'], k);
  }

  lemma {:induction false} SignatureFits(accepts: (seq<nat>, string) -> bool, st: State, noise: string, part: string)
    requires st.phase == Cleared && st.text == "" && NulFree(noise) && HeaderFree(noise) && NulFree(part) && |part| < 40
    ensures |Run(accepts, st, noise + HEADER + part).text| < 50
  {
    HeaderFound(accepts, st, noise);
    RunConcat(accepts, st, noise + HEADER, part);
    SignatureGrows(accepts, Run(accepts, st, noise + HEADER), part);
  }

  lemma {:induction false} LengthFits(accepts: (seq<nat>, string) -> bool, st: State, noise: string, sig: string,
                                      part: string)
    requires st.phase == Cleared && st.text == "" && NulFree(noise) && HeaderFree(noise) && NulFree(sig) && |sig| == 40
    requires Digits(part)
    ensures Run(accepts, st, (noise + HEADER + sig) + part).text == ""
  {
    var start := noise + HEADER;
    HeaderFound(accepts, st, noise);
    RunConcat(accepts, st, start, sig);
    SignatureRead(accepts, Run(accepts, st, start), sig);
    RunConcat(accepts, st, start + sig, part);
    DigitsKeepText(accepts, Run(accepts, st, start + sig), part);
  }

  // ---------------------------------------------------------------- which streams stay inside

  /** There is room for the next character and a NUL, or the buffer is cleared before it. */
  predicate HasRoom(st: State) {
    st.phase == MessageReceived || |st.text| + 1 < SIZE
  }

  /** The payload announced fits the buffer. */
  predicate Fits(st: State) {
    Inv(st) && HasRoom(st) && (st.phase == ParseMessage ==> 0 < st.length && |st.text| + st.length < SIZE)
  }

  /** The character ends a length that is not that of a payload of 1 to 199 characters. */
  predicate Overstates(st: State, ch: char) {
    st.phase == ParseLength && ch == ':' && !(0 < st.length < SIZE)
  }

  lemma {:induction false} StepKeepsFits(accepts: (seq<nat>, string) -> bool, st: State, ch: char)
    requires Fits(st) && !Overstates(st, ch)
    ensures Fits(Step(accepts, st, ch))
  {
    StepKeepsInv(accepts, st, ch);
  }

  ghost predicate Modest(accepts: (seq<nat>, string) -> bool, st: State, chars: string) {
    forall k :: 0 <= k < |chars| ==> !Overstates(Run(accepts, st, chars[..k]), chars[k])
  }

  /** Any stream at all stays inside the buffer as long as it announces no length but 1 to 199. */
  lemma {:induction false} ModestStaysInside(accepts: (seq<nat>, string) -> bool, st: State, chars: string)
    requires Fits(st) && Modest(accepts, st, chars)
    ensures Fits(Run(accepts, st, chars))
    decreases |chars|
  {
    if chars != "" {
      var n := |chars| - 1;
      forall k | 0 <= k < n ensures !Overstates(Run(accepts, st, chars[..n][..k]), chars[..n][k]) {
        assert chars[..n][..k] == chars[..k];
      }
      ModestStaysInside(accepts, st, chars[..n]);
      StepKeepsFits(accepts, Run(accepts, st, chars[..n]), chars[n]);
    }
  }

  /** The payload is still being read after each of the characters. */
  ghost predicate StillReading(accepts: (seq<nat>, string) -> bool, st: State, chars: string) {
    forall k :: 0 <= k <= |chars| ==> Run(accepts, st, chars[..k]).phase == ParseMessage
  }

  function Xs(n: nat): (s: string)
    ensures |s| == n && forall i :: 0 <= i < n ==> s[i] == 'x'
  {
    seq(n, _ => 'x')
  }

  lemma {:induction false} Filling(accepts: (seq<nat>, string) -> bool, st: State, n: nat)
    requires st.phase == ParseMessage && st.text == "" && n < SIZE && (st.length == 0 || SIZE <= st.length < 256)
    ensures Run(accepts, st, Xs(n)) ==
            st.(text := Xs(n),
                length := if n == 0 then st.length else if st.length == 0 then 256 - n else st.length - n)
    decreases n
  {
    if n > 0 {
      Filling(accepts, st, n - 1);
      assert Xs(n)[..n - 1] == Xs(n - 1);
      assert Xs(n - 1) + ['x'] == Xs(n);
    }
  }

  /**
   The length announced decides: while the payload is read there is always room for another
   character if and only if it is one of 1 to 199.
   */
  lemma {:induction false} AnnouncementDecides(accepts: (seq<nat>, string) -> bool, st: State)
    requires st.phase == ParseLength && Inv(st)
    ensures var open := Step(accepts, st, ':');
            (forall chars: string :: StillReading(accepts, open, chars) ==> HasRoom(Run(accepts, open, chars)))
            <==> 1 <= st.length <= 199
  {
    var open := Step(accepts, st, ':');
    if 0 < st.length < SIZE {
      forall chars: string | StillReading(accepts, open, chars) ensures HasRoom(Run(accepts, open, chars)) {
        ModestStaysInside(accepts, open, chars);
      }
    } else {
      var chars := Xs(SIZE - 1);
      forall k | 0 <= k <= |chars| ensures Run(accepts, open, chars[..k]).phase == ParseMessage {
        Filling(accepts, open, k);
        assert chars[..k] == Xs(k);
      }
      assert chars[..SIZE - 1] == chars;
      Filling(accepts, open, SIZE - 1);
      assert StillReading(accepts, open, chars) && !HasRoom(Run(accepts, open, chars));
    }
  }
}
