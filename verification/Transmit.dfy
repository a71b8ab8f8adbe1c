/**
 The transmit handshake of rf/transmit.c. The timer interrupt and the main loop share four
 volatile variables; each is an actor here and a schedule interleaves their steps freely.
 The main loop is the list of its remaining statements on the shared variables, in the
 order in which the C loop reaches them.
 */
module Transmit {
  import opened RunLength

  /** A statement of the main loop that touches the shared variables. */
  datatype Action =
    | Post(time: nat)  // rfNextTime = time
    | Mark             // rfNextIsZero = 1
    | Clear            // rfNewTime = 0
    | TimerOn          // TMR3ON = 1
    | Wait             // while(!rfNewTime)
    | Finish           // TMR3ON = 0; SENDER = 0

  /** A pulse of the waveform that the string asks for. */
  datatype Pulse = Pulse(level: bool, time: nat)

  /** A pulse the interrupt has loaded, and the number of ticks SENDER has held it so far. */
  datatype Played = Played(pulse: Pulse, held: nat)

  /** The shared variables, the main loop's remaining statements, and what was sent so far. */
  datatype State = State(
    nextTime: nat, currentTime: nat, newTime: bool, nextIsZero: bool,
    sender: bool, timerOn: bool, todo: seq<Action>,
    played: seq<Played>, wave: seq<bool>)

  datatype Event = TickEvent | MainEvent

  // ---------------------------------------------------------------- the two actors

  function HoldOn(played: seq<Played>): (r: seq<Played>)
    ensures |r| == |played|
  {
    var n := |played| - 1;
    if n < 0 then played else played[n := played[n].(held := played[n].held + 1)]
  }

  /** The interrupt found the current pulse used up and no next pulse posted. */
  predicate IsIdleTick(st: State) {
    st.timerOn && st.currentTime == 0 && st.nextTime == 0
  }

  function Tick(st: State): State {
    if !st.timerOn then st
    else if st.currentTime > 0 then
      st.(currentTime := st.currentTime - 1, played := HoldOn(st.played), wave := st.wave + [st.sender])
    else if st.nextTime == 0 then
      st.(newTime := true, played := HoldOn(st.played), wave := st.wave + [st.sender])
    else
      var level := if st.nextIsZero then st.sender else !st.sender;
      st.(newTime := true, currentTime := st.nextTime - 1, nextTime := 0,
          sender := level, nextIsZero := false,
          played := st.played + [Played(Pulse(level, st.nextTime), 1)], wave := st.wave + [level])
  }

  function MainStep(st: State): State {
    if st.todo == [] then st
    else
      var rest := st.(todo := st.todo[1..]);
      match st.todo[0]
      case Post(time) => rest.(nextTime := time)
      case Mark => rest.(nextIsZero := true)
      case Clear => rest.(newTime := false)
      case TimerOn => rest.(timerOn := true)
      case Wait => if st.newTime then rest else st
      case Finish => rest.(timerOn := false, sender := false)
  }

  function Step(st: State, e: Event): State {
    match e
    case TickEvent => Tick(st)
    case MainEvent => MainStep(st)
  }

  function After(st: State, events: seq<Event>): State {
    if events == [] then st else Step(After(st, events[..|events| - 1]), events[|events| - 1])
  }

  // ---------------------------------------------------------------- the programs

  function BodyProgram(s: seq<nat>): seq<Action> {
    if s == [] then []
    else (if s[0] == 1 then [Mark] else [Clear, Post(s[0]), Wait]) + BodyProgram(s[1..])
  }

  /** `rfSend`: the first element is posted unconditionally, the others may be markers. */
  function SendProgram(s: seq<nat>): seq<Action>
    requires s != []
  {
    [Post(s[0]), TimerOn, Wait] + BodyProgram(s[1..]) + [Clear, Wait, Finish]
  }

  function ExtendedBody(s: seq<nat>): seq<Action> {
    if s == [] then []
    else (if s[0] == 1 then [Mark] else [Post(s[0]), TimerOn, Wait, Clear]) + ExtendedBody(s[1..])
  }

  /** `rfSendExtended`, once its packed pulse table is looked up: it clears after the wait. */
  function ExtendedProgram(s: seq<nat>): seq<Action> {
    ExtendedBody(s) + [Clear, Wait, Finish]
  }

  /** Both functions reset the shared variables before the timer runs. */
  function Start(program: seq<Action>, sender: bool): State {
    State(0, 0, false, false, sender, false, program, [], [])
  }

  // ---------------------------------------------------------------- the intended waveform

  /** The pulses asked for after `level`: each toggles unless a marker 1 stands before it. */
  function Intended(s: seq<nat>, level: bool, marked: bool): seq<Pulse> {
    if s == [] then []
    else if s[0] == 1 then Intended(s[1..], level, true)
    else
      var l := if marked then level else !level;
      [Pulse(l, s[0])] + Intended(s[1..], l, false)
  }

  /** As `rfSend` reads it: the first element is a pulse whatever its value. */
  function IntendedBySend(s: seq<nat>, level: bool): seq<Pulse>
    requires s != []
  {
    [Pulse(!level, s[0])] + Intended(s[1..], !level, false)
  }

  function PulsesOf(played: seq<Played>): (r: seq<Pulse>)
    ensures |r| == |played|
    ensures forall i :: 0 <= i < |r| ==> r[i] == played[i].pulse
  {
    seq(|played|, i requires 0 <= i < |played| => played[i].pulse)
  }

  /** The waveform as runs of ticks. */
  function HeldRuns(played: seq<Played>): (r: seq<RunLength.Run>)
    ensures |r| == |played|
    ensures forall i :: 0 <= i < |r| ==> r[i] == RunLength.Run(played[i].pulse.level, played[i].held)
  {
    seq(|played|, i requires 0 <= i < |played| => RunLength.Run(played[i].pulse.level, played[i].held))
  }

  function PulseRuns(pulses: seq<Pulse>): (r: seq<RunLength.Run>)
    ensures |r| == |pulses|
    ensures forall i :: 0 <= i < |r| ==> r[i] == RunLength.Run(pulses[i].level, pulses[i].time)
  {
    seq(|pulses|, i requires 0 <= i < |pulses| => RunLength.Run(pulses[i].level, pulses[i].time))
  }

  // ---------------------------------------------------------------- schedules

  /** After clearing rfNewTime the main loop has a pulse still to post (markers may come first). */
  predicate InWindow(todo: seq<Action>) {
    todo != [] && (todo[0].Post? || (todo[0].Mark? && InWindow(todo[1..])))
  }

  /** No expiring tick falls between the clearing of rfNewTime and the posting of rfNextTime. */
  ghost predicate NoTickInWindow(st: State, events: seq<Event>) {
    forall i :: 0 <= i < |events| && events[i] == TickEvent && IsIdleTick(After(st, events[..i])) ==>
                  !InWindow(After(st, events[..i]).todo)
  }

  /** The main loop still owes a pulse: posted and not loaded, or not even posted. */
  predicate Owes(st: State) {
    st.nextTime > 0 || exists i :: 0 <= i < |st.todo| && st.todo[i].Post?
  }

  /** Every next time is posted before the current one expires. */
  ghost predicate PostedInTime(st: State, events: seq<Event>) {
    forall i :: 0 <= i < |events| && events[i] == TickEvent && IsIdleTick(After(st, events[..i])) ==>
                  !Owes(After(st, events[..i]))
  }

  function IdleTicks(st: State, events: seq<Event>): nat {
    if events == [] then 0
    else
      var n := |events| - 1;
      IdleTicks(st, events[..n])
      + (if events[n] == TickEvent && IsIdleTick(After(st, events[..n])) then 1 else 0)
  }
}
