/**
 rf/transmit.c statement by statement. Timer interrupts may arrive before any statement of
 the main loop, `delay(k)` of them before the k-th, and keep arriving while it waits. The
 methods are proved to be runs of the step system of module Transmit.
 */
module Transmitters {
  import opened Transmit
  import opened TransmitProofs
  import opened TransmitTheorems

  /** The i-th pair of bits of a byte, highest first. */
  function Digit(b: bv8, i: nat): bv8 {
    match i
    case 0 => b >> 6
    case 1 => (b >> 4) & 3
    case 2 => (b >> 2) & 3
    case _ => b & 3
  }

  /** The byte after `time <<= 2` has been done i times. */
  function Shifted(b: bv8, i: nat): bv8 {
    match i
    case 0 => b
    case 1 => b << 2
    case 2 => b << 4
    case _ => b << 6
  }

  lemma {:induction false} ShiftOnce(b: bv8, i: nat)
    requires i < 3
    ensures Shifted(b, i) << 2 == Shifted(b, i + 1)
  {
  }

  /** Shifting left by two keeps the next pair in the two highest bits. */
  lemma {:induction false} TopPair(b: bv8, i: nat)
    requires i < 4
    ensures (Shifted(b, i) & 0xC0) >> 6 == Digit(b, i) < 4
  {
  }

  /** A packed string: 4 pulse lengths, a pulse count, then 2 bits for each pulse. */
  ghost predicate IsPacked(packet: seq<bv8>) {
    |packet| >= 5 && 5 + ((packet[4] as nat) + 3) / 4 <= |packet|
  }

  function Pulses(packet: seq<bv8>): nat
    requires IsPacked(packet)
  {
    packet[4] as nat
  }

  /** The length that the k-th pulse names in the table. */
  function LengthOf(packet: seq<bv8>, k: nat): nat
    requires IsPacked(packet) && k < Pulses(packet)
  {
    packet[Digit(packet[5 + k / 4], k % 4) as nat] as nat
  }

  function UnpackedFrom(packet: seq<bv8>, k: nat): seq<nat>
    requires IsPacked(packet) && k <= Pulses(packet)
    decreases Pulses(packet) - k
  {
    if k == Pulses(packet) then [] else [LengthOf(packet, k)] + UnpackedFrom(packet, k + 1)
  }

  // ---------------------------------------------------------------- packing a string

  /** Four codes in a byte, the first one highest. */
  function Quad(a: bv8, b: bv8, c: bv8, d: bv8): bv8 {
    (a << 6) | (b << 4) | (c << 2) | d
  }

  function CodeAt(codes: seq<bv8>, k: nat): bv8 {
    if k < |codes| then codes[k] else 0
  }

  /** A table of four lengths, the number of codes, and four codes to a byte. */
  function Pack(table: seq<bv8>, count: bv8, codes: seq<bv8>): (packet: seq<bv8>)
    requires |table| == 4 && count as nat == |codes|
    ensures |packet| == 5 + (|codes| + 3) / 4
  {
    table + [count] +
    seq((|codes| + 3) / 4, j requires 0 <= j < (|codes| + 3) / 4 =>
      Quad(CodeAt(codes, 4 * j), CodeAt(codes, 4 * j + 1), CodeAt(codes, 4 * j + 2), CodeAt(codes, 4 * j + 3)))
  }

  lemma {:induction false} QuadDigits(a: bv8, b: bv8, c: bv8, d: bv8)
    requires a < 4 && b < 4 && c < 4 && d < 4
    ensures Digit(Quad(a, b, c, d), 0) == a && Digit(Quad(a, b, c, d), 1) == b
    ensures Digit(Quad(a, b, c, d), 2) == c && Digit(Quad(a, b, c, d), 3) == d
  {
  }

  lemma {:induction false} PackedDigit(table: seq<bv8>, count: bv8, codes: seq<bv8>, k: nat)
    requires |table| == 4 && count as nat == |codes| && k < |codes| && forall i :: 0 <= i < |codes| ==> codes[i] < 4
    ensures Digit(Pack(table, count, codes)[5 + k / 4], k % 4) == codes[k]
  {
    var j := k / 4;
    QuadDigits(CodeAt(codes, 4 * j), CodeAt(codes, 4 * j + 1), CodeAt(codes, 4 * j + 2), CodeAt(codes, 4 * j + 3));
    assert k == 4 * j + k % 4;
  }

  /** Whatever table and codes are packed: the string played is the length that each code names, in order. */
  lemma {:induction false} PackedIsPlayed(table: seq<bv8>, count: bv8, codes: seq<bv8>, k: nat)
    requires |table| == 4 && count as nat == |codes| && forall i :: 0 <= i < |codes| ==> codes[i] < 4
    requires k <= |codes|
    ensures IsPacked(Pack(table, count, codes)) && Pulses(Pack(table, count, codes)) == |codes|
    ensures |UnpackedFrom(Pack(table, count, codes), k)| == |codes| - k
    ensures forall i :: 0 <= i < |codes| - k ==>
              UnpackedFrom(Pack(table, count, codes), k)[i] == table[codes[k + i] as nat] as nat
    decreases |codes| - k
  {
    var packet := Pack(table, count, codes);
    assert packet[4] == count;
    if k < |codes| {
      PackedIsPlayed(table, count, codes, k + 1);
      PackedDigit(table, count, codes, k);
      SmallCode(codes[k]);
      assert packet[codes[k] as nat] == table[codes[k] as nat];
    }
  }

  lemma {:induction false} SmallCode(c: bv8)
    requires c < 4
    ensures c as nat < 4
  {
  }

  lemma {:induction false} AfterStep(start: State, events: seq<Event>, before: State, e: Event, after: State)
    requires before == After(start, events) && after == Step(before, e)
    ensures after == After(start, events + [e])
  {
    AfterSnoc(start, events, e);
  }

  class Transmitter {
    var rfNextTime: nat
    var rfCurrentTime: nat
    var rfNewTime: bool
    var rfNextIsZero: bool
    var sender: bool   // the pin SENDER
    var timerOn: bool  // TMR3ON

    ghost var posted: bool  // rfNextTime has been written since the start of this sending
    ghost var todo: seq<Action>
    ghost var played: seq<Played>
    ghost var wave: seq<bool>
    ghost var start: State
    ghost var events: seq<Event>

    ghost function Current(): State
      reads this
    {
      State(if posted then rfNextTime else 0, rfCurrentTime, rfNewTime, rfNextIsZero, sender, timerOn,
            todo, played, wave)
    }

    /** The variables hold what the step system says after the events so far. */
    ghost predicate Valid()
      reads this
    {
      Current() == After(start, events) && (timerOn ==> posted)
    }

    constructor ()
      ensures !sender && !timerOn
    {
      rfNextTime, rfCurrentTime, rfNewTime, rfNextIsZero := 0, 0, false, false;
      sender, timerOn := false, false;
      todo, played, wave, events, posted := [], [], [], [], false;
    }

    /** `rfTransmitUpdate`, called when the timer runs. */
    method TransmitUpdate()
      requires Valid()
      modifies this
      ensures Valid() && start == old(start) && events == old(events) + [TickEvent]
      ensures Current() == Tick(old(Current())) && timerOn == old(timerOn) && posted == old(posted)
    {
      ghost var before, done := Current(), events;
      ghost var next := Tick(before);
      Interrupt();
      played, wave, events := next.played, next.wave, events + [TickEvent];
      assert Current() == next;
      AfterStep(start, done, before, TickEvent, next);
    }

    method Interrupt()
      requires timerOn ==> posted
      modifies this`rfNextTime, this`rfCurrentTime, this`rfNewTime, this`rfNextIsZero, this`sender
      ensures Current() == Tick(old(Current())).(played := played, wave := wave)
    {
      if !timerOn {
        return;
      }
      if rfCurrentTime == 0 {
        rfNewTime := true;
        if rfNextTime == 0 {
          return;
        }
        LoadNext();
      }
      if rfCurrentTime > 0 {
        rfCurrentTime := rfCurrentTime - 1;
      }
    }

    method LoadNext()
      modifies this`rfCurrentTime, this`rfNextTime, this`sender, this`rfNextIsZero
      ensures rfCurrentTime == old(rfNextTime) && rfNextTime == 0 && !rfNextIsZero
      ensures sender == if old(rfNextIsZero) then old(sender) else !old(sender)
    {
      rfCurrentTime := rfNextTime;
      rfNextTime := 0;
      if !rfNextIsZero {
        sender := !sender;
      } else {
        rfNextIsZero := false;
      }
    }

    /** Interrupts that arrive between two statements of the main loop. */
    method Ticks(n: nat)
      requires Valid()
      modifies this
      ensures Valid() && start == old(start) && todo == old(todo) && timerOn == old(timerOn) && posted == old(posted)
    {
      for i := 0 to n
        invariant Valid() && start == old(start) && todo == old(todo) && timerOn == old(timerOn) &&
                  posted == old(posted)
      {
        TransmitUpdate();
      }
    }

    /** `while(!rfNewTime);` The interrupt sets the flag when the current pulse is used up. */
    method AwaitNewTime()
      requires Valid() && timerOn && todo != [] && todo[0] == Wait
      modifies this
      ensures Valid() && start == old(start) && todo == old(todo)[1..] && timerOn
    {
      while !rfNewTime
        invariant Valid() && start == old(start) && todo == old(todo) && timerOn
        decreases !rfNewTime, rfCurrentTime
      {
        TransmitUpdate();
      }
      ghost var before := Current();
      todo := todo[1..];
      AfterStep(start, events, before, MainEvent, Current());
      events := events + [MainEvent];
    }

    method PostNext(time: nat)
      requires Valid() && todo != [] && todo[0] == Post(time)
      modifies this
      ensures Valid() && start == old(start) && todo == old(todo)[1..] && timerOn == old(timerOn) && posted
    {
      ghost var before := Current();
      rfNextTime, posted := time, true;
      todo := todo[1..];
      AfterStep(start, events, before, MainEvent, Current());
      events := events + [MainEvent];
    }

    method MarkNext()
      requires Valid() && todo != [] && todo[0] == Mark
      modifies this
      ensures Valid() && start == old(start) && todo == old(todo)[1..]
      ensures timerOn == old(timerOn) && posted == old(posted)
    {
      ghost var before := Current();
      rfNextIsZero := true;
      todo := todo[1..];
      AfterStep(start, events, before, MainEvent, Current());
      events := events + [MainEvent];
    }

    method ClearNewTime()
      requires Valid() && todo != [] && todo[0] == Clear
      modifies this
      ensures Valid() && start == old(start) && todo == old(todo)[1..]
      ensures timerOn == old(timerOn) && posted == old(posted)
    {
      ghost var before := Current();
      rfNewTime := false;
      todo := todo[1..];
      AfterStep(start, events, before, MainEvent, Current());
      events := events + [MainEvent];
    }

    method StartTimer()
      requires Valid() && todo != [] && todo[0] == TimerOn && posted
      modifies this
      ensures Valid() && start == old(start) && todo == old(todo)[1..]
      ensures timerOn
    {
      ghost var before := Current();
      timerOn := true;
      todo := todo[1..];
      AfterStep(start, events, before, MainEvent, Current());
      events := events + [MainEvent];
    }

    method StopTimer()
      requires Valid() && todo != [] && todo[0] == Finish
      modifies this
      ensures Valid() && start == old(start) && todo == old(todo)[1..]
      ensures !timerOn
    {
      ghost var before := Current();
      timerOn := false;
      sender := false;
      todo := todo[1..];
      AfterStep(start, events, before, MainEvent, Current());
      events := events + [MainEvent];
    }

    /** The assignments both functions begin with; rfNextTime keeps a stale value. */
    method Reset(ghost program: seq<Action>)
      requires !timerOn
      modifies this
      ensures Valid() && start == Start(program, old(sender)) && todo == program && !timerOn && events == []
    {
      rfNextIsZero := false;
      rfCurrentTime := 0;
      rfNewTime := false;
      todo, played, wave, events, posted := program, [], [], [], false;
      start := Start(program, sender);
    }

    /** The end that both functions share: wait for the last pulse to be used up, then stop. */
    method End(delay: nat -> nat, k: nat)
      requires Valid() && timerOn && todo == [Clear, Wait, Finish]
      modifies this
      ensures Valid() && start == old(start) && todo == []
    {
      Ticks(delay(k));
      ClearNewTime();
      assert todo == [Wait, Finish];
      AwaitNewTime();
      assert todo == [Finish];
      Ticks(delay(k + 1));
      StopTimer();
    }

    /** One turn of the loop of `rfSend`, with `late` interrupts between clearing and posting. */
    method SendNext(time: nat, late: nat, ghost rest: seq<Action>)
      requires Valid() && timerOn && todo == [Clear, Post(time), Wait] + rest
      modifies this
      ensures Valid() && start == old(start) && todo == rest && timerOn && posted
    {
      ClearNewTime();
      assert todo == [Post(time), Wait] + rest;
      Ticks(late);
      PostAndWait(time, rest);
    }

    method PostAndWait(time: nat, ghost rest: seq<Action>)
      requires Valid() && timerOn && todo == [Post(time), Wait] + rest
      modifies this
      ensures Valid() && start == old(start) && todo == rest && timerOn && posted
    {
      PostNext(time);
      assert todo == [Wait] + rest;
      AwaitNewTime();
    }

    /** The first element: posted before the timer runs. */
    method SendFirst(time: nat, late: nat, ghost rest: seq<Action>)
      requires Valid() && todo == [Post(time), TimerOn, Wait] + rest
      modifies this
      ensures Valid() && start == old(start) && todo == rest && timerOn
    {
      PostNext(time);
      assert todo == [TimerOn, Wait] + rest;
      Ticks(late);
      StartTimer();
      assert todo == [Wait] + rest;
      AwaitNewTime();
    }

    /** `rfSend`. It always returns, and what it sent is judged by the two schedule conditions. */
    method Send(packet: seq<nat>, delay: nat -> nat)
      requires packet != [] && NonZero(packet) && !timerOn
      modifies this
      ensures start == Start(SendProgram(packet), old(sender))
      ensures Current() == After(start, events) && todo == []
      ensures NoTickInWindow(start, events) ==> Delivered(Current(), IntendedBySend(packet, old(sender)))
      ensures PostedInTime(start, events) ==>
                ExactlySent(Current(), IntendedBySend(packet, old(sender)), IdleTicks(start, events))
    {
      ghost var tail := [Clear, Wait, Finish];
      ghost var before := sender;
      Reset(SendProgram(packet));
      ghost var body := BodyProgram(packet[1..]) + tail;
      assert todo == [Post(packet[0]), TimerOn, Wait] + body;
      SendFirst(packet[0], delay(0), body);
      var i := 1;
      while i < |packet|
        invariant 1 <= i <= |packet|
        invariant Valid() && start == Start(SendProgram(packet), before) && timerOn
        invariant todo == BodyProgram(packet[i..]) + tail
      {
        ghost var rest := BodyProgram(packet[i + 1..]) + tail;
        assert packet[i..][1..] == packet[i + 1..];
        Ticks(delay(3 * i));
        if packet[i] == 1 {
          assert todo == [Mark] + rest;
          MarkNext();
          assert todo == rest;
        } else {
          assert todo == [Clear, Post(packet[i]), Wait] + rest;
          SendNext(packet[i], delay(3 * i + 1), rest);
        }
        i := i + 1;
      }
      assert packet[i..] == [];
      assert todo == tail;
      End(delay, 3 * i);
      if NoTickInWindow(start, events) {
        LatenessOnlyStretches(packet, before, events);
      }
      if PostedInTime(start, events) {
        SendIsExact(packet, before, events);
      }
    }

    /** One pulse of `rfSendExtended`: post, start the timer, wait, clear. */
    method PlayPulse(time: nat, late: nat, ghost rest: seq<Action>)
      requires Valid() && todo == (if time == 1 then [Mark] else [Post(time), TimerOn, Wait, Clear]) + rest
      modifies this
      ensures Valid() && start == old(start) && todo == rest
      ensures timerOn == (old(timerOn) || time != 1)
    {
      Ticks(late);
      if time == 1 {
        MarkNext();
      } else {
        assert todo == [Post(time), TimerOn, Wait] + ([Clear] + rest);
        SendFirst(time, late, [Clear] + rest);
        Ticks(late);
        ClearNewTime();
      }
    }

    /** `rfSendExtended` unpacks its table and plays it exactly as `rfSend` would play the string. */
    method SendExtended(packet: seq<bv8>, delay: nat -> nat)
      requires IsPacked(packet) && !timerOn
      requires NonZero(UnpackedFrom(packet, 0))
      requires Pulses(packet) > 0 ==> exists k :: 0 <= k < Pulses(packet) && LengthOf(packet, k) != 1
      modifies this
      ensures Pulses(packet) == 0 ==> sender == old(sender) && !timerOn
      ensures Pulses(packet) > 0 ==> start == Start(ExtendedProgram(UnpackedFrom(packet, 0)), old(sender))
      ensures Pulses(packet) > 0 ==> Current() == After(start, events) && todo == []
      ensures Pulses(packet) > 0 && NoTickInWindow(start, events) ==>
                Delivered(Current(), Intended(UnpackedFrom(packet, 0), old(sender), false))
      ensures Pulses(packet) > 0 && PostedInTime(start, events) ==>
                ExactlySent(Current(), Intended(UnpackedFrom(packet, 0), old(sender), false), IdleTicks(start, events))
    {
      ghost var s := UnpackedFrom(packet, 0);
      ghost var before := sender;
      Reset(ExtendedProgram(s));
      var pulses: nat := packet[4] as nat;
      if pulses == 0 {
        return;
      }
      var j := 5;
      while pulses > 0
        invariant pulses <= Pulses(packet)
        invariant pulses > 0 ==> Pulses(packet) - pulses == 4 * (j - 5) && j >= 5
        invariant start == Start(ExtendedProgram(s), before) && Remaining(packet, Pulses(packet) - pulses)
      {
        pulses := SendByte(packet, j, pulses, delay);
        j := j + 1;
      }
      assert todo == [Clear, Wait, Finish];
      End(delay, 256);
      if NoTickInWindow(start, events) {
        ExtendedLatenessOnlyStretches(s, before, events);
      }
      if PostedInTime(start, events) {
        ExtendedIsExact(s, before, events);
      }
    }

    /** `k` pulses of the packed string are done. */
    ghost predicate Remaining(packet: seq<bv8>, k: nat)
      requires IsPacked(packet) && k <= Pulses(packet)
      reads this
    {
      && Valid()
      && todo == ExtendedBody(UnpackedFrom(packet, k)) + [Clear, Wait, Finish]
      && (timerOn || forall l :: 0 <= l < k ==> LengthOf(packet, l) == 1)
    }

    method PlayCode(packet: seq<bv8>, timePointer: bv8, ghost k: nat, late: nat)
      requires IsPacked(packet) && k < Pulses(packet) && timePointer == Digit(packet[5 + k / 4], k % 4) < 4
      requires Remaining(packet, k)
      modifies this
      ensures start == old(start) && Remaining(packet, k + 1)
    {
      NextPulse(packet, k, [Clear, Wait, Finish]);
      PlayPulse(packet[timePointer as nat] as nat, late,
                ExtendedBody(UnpackedFrom(packet, k + 1)) + [Clear, Wait, Finish]);
    }

    /** The inner loop of `rfSendExtended`: up to four pulses from one byte. */
    method SendByte(packet: seq<bv8>, j: nat, pulses0: nat, delay: nat -> nat) returns (pulses: nat)
      requires IsPacked(packet) && 0 < pulses0 <= Pulses(packet)
      requires Pulses(packet) - pulses0 == 4 * (j - 5) && j >= 5
      requires Remaining(packet, Pulses(packet) - pulses0)
      modifies this
      ensures start == old(start) && pulses == (if pulses0 <= 4 then 0 else pulses0 - 4)
      ensures Remaining(packet, Pulses(packet) - pulses)
    {
      pulses := pulses0;
      var time := packet[j];
      var i := 0;
      while i < 4 && pulses > 0
        invariant 0 <= i <= 4 && i + pulses == pulses0
        invariant i < 4 ==> time == Shifted(packet[j], i)
        invariant start == old(start) && Remaining(packet, Pulses(packet) - pulses)
      {
        time := PlayPair(packet, j, i, time, pulses, delay(pulses));
        pulses := pulses - 1;
        i := i + 1;
      }
    }

    method PlayPair(packet: seq<bv8>, j: nat, i: nat, time: bv8, pulses: nat, late: nat) returns (rest: bv8)
      requires IsPacked(packet) && 0 < pulses <= Pulses(packet) && i < 4
      requires Pulses(packet) - pulses == 4 * (j - 5) + i && j >= 5 && time == Shifted(packet[j], i)
      requires Remaining(packet, Pulses(packet) - pulses)
      modifies this
      ensures start == old(start) && Remaining(packet, Pulses(packet) - pulses + 1)
      ensures i < 3 ==> rest == Shifted(packet[j], i + 1)
    {
      TopPair(packet[j], i);
      PlayCode(packet, (time & 0xC0) >> 6, Pulses(packet) - pulses, late);
      if i < 3 {
        ShiftOnce(packet[j], i);
      }
      rest := time << 2;
    }
  }

  lemma {:induction false} NextPulse(packet: seq<bv8>, k: nat, tail: seq<Action>)
    requires IsPacked(packet) && k < Pulses(packet)
    ensures var rest := ExtendedBody(UnpackedFrom(packet, k + 1)) + tail;
            var time := LengthOf(packet, k);
            ExtendedBody(UnpackedFrom(packet, k)) + tail
            == (if time == 1 then [Mark] else [Post(time), TimerOn, Wait, Clear]) + rest
  {
    var all := UnpackedFrom(packet, k);
    assert all[1..] == UnpackedFrom(packet, k + 1);
  }
}
