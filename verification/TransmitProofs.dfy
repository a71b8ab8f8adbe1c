/**
 What the handshake of module Transmit keeps over every interleaving. The invariant has four
 parts: how the flags and the position of the main loop fit together, that the waveform so far
 is the one recorded, that no pulse was cut short, and that the pulses loaded, posted and still
 in the program make up the whole string. Every tick outside the window and every statement of
 the main loop keep all four, and both programs start with them; what follows at the end of a
 run is the subject of module TransmitTheorems.
 */
module TransmitProofs {
  import opened RunLength
  import opened Transmit

  // ---------------------------------------------------------------- the invariant

  /** The pulses that the remaining statements will post. */
  function TodoPulses(todo: seq<Action>, level: bool, marked: bool): seq<Pulse> {
    if todo == [] then []
    else match todo[0]
      case Post(time) =>
        var l := if marked then level else !level;
        [Pulse(l, time)] + TodoPulses(todo[1..], l, false)
      case Mark => TodoPulses(todo[1..], level, true)
      case _ => TodoPulses(todo[1..], level, marked)
  }

  /** The pulses not loaded yet: the posted one, if any, then those still in the program. */
  function Future(st: State): seq<Pulse> {
    var l := if st.nextIsZero then st.sender else !st.sender;
    if st.nextTime > 0 then [Pulse(l, st.nextTime)] + TodoPulses(st.todo, l, false)
    else TodoPulses(st.todo, st.sender, st.nextIsZero)
  }

  /** The next statement waits for a posted pulse (and not for the end of the last one). */
  predicate AwaitsLoad(todo: seq<Action>) {
    |todo| > 0 && todo[0] == Wait && todo[1..] != [Finish]
  }

  /** What the two programs have in common. */
  predicate WellFormed(todo: seq<Action>) {
    todo == [] ||
    (WellFormed(todo[1..]) &&
     match todo[0]
     case Post(time) => time > 0 && (AwaitsLoad(todo[1..]) || (|todo| > 1 && todo[1] == TimerOn))
     case TimerOn => AwaitsLoad(todo[1..])
     case Wait => |todo| > 1 && !InWindow(todo[1..]) && todo[1] != TimerOn && todo[1] != Wait
     case Mark => |todo| > 1 && todo[1] != Finish && todo[1] != TimerOn && todo[1] != Wait
     case Clear => |todo| > 1 && todo[1] != Finish && todo[1] != TimerOn && !AwaitsLoad(todo[1..])
     case Finish => todo == [Finish])
  }

  /** How the flags and the position of the main loop fit together. */
  ghost predicate Protocol(st: State) {
    && WellFormed(st.todo)
    && (st.nextTime > 0 ==> !st.newTime && (AwaitsLoad(st.todo) || (st.todo != [] && st.todo[0] == TimerOn)))
    && (InWindow(st.todo) ==> !st.newTime)
    && (st.played == [] ==> !st.newTime && st.currentTime == 0)
    && (st.played == [] && st.timerOn ==> st.nextTime > 0)
    && (st.played == [] && st.todo != [] && st.todo[0] == TimerOn ==> st.nextTime > 0)
    && (st.todo == [] ==> !st.timerOn && !st.sender && st.played != [] && st.nextTime == 0)
  }

  function Last(played: seq<Played>): Played
    requires played != []
  {
    played[|played| - 1]
  }

  /** The recorded waveform and the pulse being held. */
  ghost predicate Waveform(st: State) {
    && st.wave == Expand(HeldRuns(st.played))
    && (st.played != [] && st.todo != [] ==> st.sender == Last(st.played).pulse.level)
  }

  /** Loaded pulses are held at least their time; the current one is still counted down. */
  ghost predicate HeldLongEnough(st: State) {
    && (forall i :: 0 <= i < |st.played| - 1 ==> st.played[i].held >= st.played[i].pulse.time)
    && (st.played != [] ==>
          var last := Last(st.played);
          if st.currentTime > 0 then last.held + st.currentTime == last.pulse.time
          else last.held >= last.pulse.time)
  }

  /** The final wait ends only on a tick that finds the last pulse used up. */
  ghost predicate EndsLate(st: State) {
    (st.todo == [Wait, Finish] && st.newTime) || st.todo == [Finish] || st.todo == [] ==>
      st.played != [] && st.currentTime == 0 && st.nextTime == 0 && Last(st.played).held > Last(st.played).pulse.time
  }

  ghost predicate Invariant(st: State, goal: seq<Pulse>) {
    && Protocol(st)
    && Waveform(st)
    && HeldLongEnough(st)
    && EndsLate(st)
    && PulsesOf(st.played) + Future(st) == goal
  }

  // ---------------------------------------------------------------- one tick

  lemma {:induction false} HoldOnWave(played: seq<Played>)
    requires played != []
    ensures Expand(HeldRuns(HoldOn(played))) == Expand(HeldRuns(played)) + [Last(played).pulse.level]
  {
    var n := |played| - 1;
    var before, after := HeldRuns(played), HeldRuns(HoldOn(played));
    assert after[..n] == before[..n];
    assert after[n].count == before[n].count + 1;
  }

  lemma {:induction false} LoadWave(played: seq<Played>, p: Pulse)
    ensures Expand(HeldRuns(played + [Played(p, 1)])) == Expand(HeldRuns(played)) + [p.level]
  {
    assert HeldRuns(played + [Played(p, 1)]) == HeldRuns(played) + [RunLength.Run(p.level, 1)];
    ExpandSnoc(HeldRuns(played), RunLength.Run(p.level, 1));
    assert Repeat(p.level, 1) == [p.level];
  }

  lemma {:induction false} TickProtocol(st: State)
    requires Protocol(st) && (IsIdleTick(st) ==> !InWindow(st.todo))
    ensures Protocol(Tick(st))
  {
    if st.timerOn && st.nextTime > 0 {
      assert !InWindow(st.todo);
    }
  }

  lemma {:induction false} TickWaveform(st: State)
    requires Protocol(st) && Waveform(st)
    ensures Waveform(Tick(st))
  {
    if st.timerOn {
      if st.currentTime > 0 || st.nextTime == 0 {
        HoldOnWave(st.played);
      } else {
        LoadWave(st.played, Pulse(if st.nextIsZero then st.sender else !st.sender, st.nextTime));
      }
    }
  }

  lemma {:induction false} TickHeld(st: State)
    requires Protocol(st) && HeldLongEnough(st) && EndsLate(st)
    ensures HeldLongEnough(Tick(st)) && EndsLate(Tick(st))
  {
  }

  lemma {:induction false} TickFuture(st: State)
    requires Protocol(st)
    ensures PulsesOf(Tick(st).played) + Future(Tick(st)) == PulsesOf(st.played) + Future(st)
  {
    if st.timerOn && st.currentTime == 0 && st.nextTime > 0 {
      var p := Pulse(if st.nextIsZero then st.sender else !st.sender, st.nextTime);
      assert PulsesOf(Tick(st).played) == PulsesOf(st.played) + [p];
      assert Future(st) == [p] + Future(Tick(st));
    } else {
      assert PulsesOf(Tick(st).played) == PulsesOf(st.played);
    }
  }

  // ---------------------------------------------------------------- one main step

  lemma {:induction false} MainProtocol(st: State)
    requires Protocol(st) && HeldLongEnough(st) && EndsLate(st)
    ensures Protocol(MainStep(st))
  {
    if st.todo != [] {
      if st.todo[0] == Wait {
        WaitProtocol(st);
      } else {
        OtherProtocol(st);
      }
    }
  }

  lemma {:induction false} WaitProtocol(st: State)
    requires Protocol(st) && st.todo != [] && st.todo[0] == Wait
    ensures Protocol(MainStep(st))
  {
  }

  lemma {:induction false} OtherProtocol(st: State)
    requires Protocol(st) && EndsLate(st) && st.todo != [] && st.todo[0] != Wait
    ensures Protocol(MainStep(st))
  {
  }

  lemma {:induction false} MainFuture(st: State)
    requires Protocol(st)
    ensures Future(MainStep(st)) == Future(st)
  {
    if st.todo != [] {
      match st.todo[0]
      case Finish =>
        assert st.nextTime == 0;
        assert TodoPulses(st.todo, st.sender, st.nextIsZero) == TodoPulses(st.todo[1..], st.sender, st.nextIsZero);
        assert MainStep(st).todo == [];
      case _ =>
    }
  }

  lemma {:induction false} MainEnds(st: State)
    requires Protocol(st) && EndsLate(st)
    ensures EndsLate(MainStep(st))
  {
  }

  lemma {:induction false} TickKeepsInvariant(st: State, goal: seq<Pulse>)
    requires Invariant(st, goal)
    requires IsIdleTick(st) ==> !InWindow(st.todo)
    ensures Invariant(Tick(st), goal)
  {
    TickProtocol(st);
    TickWaveform(st);
    TickHeld(st);
    TickFuture(st);
  }

  lemma {:induction false} MainPlays(st: State)
    ensures MainStep(st).played == st.played && MainStep(st).wave == st.wave
    ensures MainStep(st).currentTime == st.currentTime
    ensures MainStep(st).todo != [] && MainStep(st).todo != st.todo && WellFormed(st.todo) ==>
            MainStep(st).sender == st.sender
  {
  }

  lemma {:induction false} MainWaveform(st: State)
    requires Protocol(st) && Waveform(st) && HeldLongEnough(st)
    ensures Waveform(MainStep(st)) && HeldLongEnough(MainStep(st))
  {
    MainPlays(st);
  }

  lemma {:induction false} MainKeepsInvariant(st: State, goal: seq<Pulse>)
    requires Invariant(st, goal)
    ensures Invariant(MainStep(st), goal)
  {
    MainProtocol(st);
    MainWaveform(st);
    MainFuture(st);
    MainEnds(st);
    MainPlays(st);
  }

  // ---------------------------------------------------------------- the two programs

  /** The elements a packet may hold: a string has no NUL inside. */
  ghost predicate NonZero(s: seq<nat>) {
    forall i :: 0 <= i < |s| ==> s[i] > 0
  }

  lemma {:induction false} TailWellFormed()
    ensures WellFormed([Clear, Wait, Finish])
  {
    var tail := [Clear, Wait, Finish];
    assert tail[1..] == [Wait, Finish] && tail[1..][1..] == [Finish] && [Finish][1..] == [];
    assert WellFormed([Finish]) && WellFormed([Wait, Finish]);
  }

  lemma {:induction false} BodyWellFormed(s: seq<nat>, tail: seq<Action>)
    requires NonZero(s) && tail == [Clear, Wait, Finish]
    ensures WellFormed(BodyProgram(s) + tail) && !InWindow(BodyProgram(s) + tail)
    ensures var p := BodyProgram(s) + tail; p[0] == Mark || p[0] == Clear
  {
    if s == [] {
      TailWellFormed();
      assert BodyProgram(s) + tail == tail;
    } else {
      var rest := BodyProgram(s[1..]) + tail;
      BodyWellFormed(s[1..], tail);
      if s[0] == 1 {
        FlagWellFormed(Mark, rest);
        assert BodyProgram(s) + tail == [Mark] + rest;
      } else {
        PostWellFormed([Clear, Post(s[0]), Wait], rest);
        assert BodyProgram(s) + tail == [Clear, Post(s[0]), Wait] + rest;
      }
    }
  }

  /** One pulse of `rfSend` in front of a well-formed rest. */
  lemma {:induction false} PostWellFormed(front: seq<Action>, rest: seq<Action>)
    requires |front| == 3 && front[1].Post? && front[1].time > 0 && front[0] == Clear && front[2] == Wait
    requires WellFormed(rest) && rest != [] && (rest[0] == Mark || rest[0] == Clear) && !InWindow(rest)
    ensures WellFormed(front + rest)
    ensures WellFormed([front[1], TimerOn, Wait] + rest)
  {
    var wait := [Wait] + rest;
    assert wait[1..] == rest;
    assert WellFormed(wait);
    var post := [front[1]] + wait;
    assert post[1..] == wait;
    assert WellFormed(post);
    assert (front + rest)[1..] == post;
    var on := [TimerOn] + wait;
    assert on[1..] == wait;
    assert WellFormed(on);
    assert ([front[1], TimerOn, Wait] + rest)[1..] == on;
  }

  /** TodoPulses reads one statement at a time. */
  lemma {:induction false} FirstAction(a: Action, rest: seq<Action>, level: bool, marked: bool)
    ensures TodoPulses([a] + rest, level, marked) ==
            match a
            case Post(time) =>
              (var l := if marked then level else !level; [Pulse(l, time)] + TodoPulses(rest, l, false))
            case Mark => TodoPulses(rest, level, true)
            case _ => TodoPulses(rest, level, marked)
  {
    assert ([a] + rest)[1..] == rest;
  }

  lemma {:induction false} SendPulse(time: nat, rest: seq<Action>, level: bool, marked: bool)
    ensures TodoPulses([Clear, Post(time), Wait] + rest, level, marked)
         == (var l := if marked then level else !level; [Pulse(l, time)] + TodoPulses(rest, l, false))
  {
    var l := if marked then level else !level;
    FirstAction(Wait, rest, l, false);
    FirstAction(Post(time), [Wait] + rest, level, marked);
    FirstAction(Clear, [Post(time)] + ([Wait] + rest), level, marked);
    assert [Clear, Post(time), Wait] + rest == [Clear] + ([Post(time)] + ([Wait] + rest));
  }

  lemma {:induction false} ExtendedPulse(time: nat, rest: seq<Action>, level: bool, marked: bool)
    ensures TodoPulses([Post(time), TimerOn, Wait] + rest, level, marked)
         == (var l := if marked then level else !level; [Pulse(l, time)] + TodoPulses(rest, l, false))
  {
    var l := if marked then level else !level;
    FirstAction(Wait, rest, l, false);
    FirstAction(TimerOn, [Wait] + rest, l, false);
    FirstAction(Post(time), [TimerOn] + ([Wait] + rest), level, marked);
    assert [Post(time), TimerOn, Wait] + rest == [Post(time)] + ([TimerOn] + ([Wait] + rest));
  }

  lemma {:induction false} NoPulses(level: bool, marked: bool)
    ensures TodoPulses([Clear, Wait, Finish], level, marked) == []
  {
    FirstAction(Finish, [], level, marked);
    FirstAction(Wait, [Finish], level, marked);
    FirstAction(Clear, [Wait, Finish], level, marked);
    assert [Clear, Wait, Finish] == [Clear] + [Wait, Finish] && [Wait, Finish] == [Wait] + [Finish] &&
           [Finish] == [Finish] + [];
  }

  lemma {:induction false} BodyPulses(s: seq<nat>, tail: seq<Action>, level: bool, marked: bool)
    requires tail == [Clear, Wait, Finish]
    ensures TodoPulses(BodyProgram(s) + tail, level, marked) == Intended(s, level, marked)
  {
    if s == [] {
      assert BodyProgram(s) + tail == tail;
      NoPulses(level, marked);
    } else {
      var rest := BodyProgram(s[1..]) + tail;
      if s[0] == 1 {
        BodyPulses(s[1..], tail, level, true);
        FirstAction(Mark, rest, level, marked);
        assert BodyProgram(s) + tail == [Mark] + rest;
      } else {
        BodyPulses(s[1..], tail, if marked then level else !level, false);
        SendPulse(s[0], rest, level, marked);
        assert BodyProgram(s) + tail == [Clear, Post(s[0]), Wait] + rest;
      }
    }
  }

  lemma {:induction false} SendProgramParts(s: seq<nat>)
    requires s != []
    ensures SendProgram(s) == [Post(s[0]), TimerOn, Wait] + (BodyProgram(s[1..]) + [Clear, Wait, Finish])
  {
  }

  lemma {:induction false} SendWellFormed(s: seq<nat>)
    requires s != [] && NonZero(s)
    ensures WellFormed(SendProgram(s))
  {
    var tail := [Clear, Wait, Finish];
    BodyWellFormed(s[1..], tail);
    PostWellFormed([Clear, Post(s[0]), Wait], BodyProgram(s[1..]) + tail);
    SendProgramParts(s);
  }

  lemma {:induction false} SendFuture(s: seq<nat>, sender: bool)
    requires s != []
    ensures Future(Start(SendProgram(s), sender)) == IntendedBySend(s, sender)
  {
    var tail := [Clear, Wait, Finish];
    BodyPulses(s[1..], tail, !sender, false);
    ExtendedPulse(s[0], BodyProgram(s[1..]) + tail, sender, false);
    SendProgramParts(s);
  }

  lemma {:induction false} SendStarts(s: seq<nat>, sender: bool)
    requires s != [] && NonZero(s)
    ensures Invariant(Start(SendProgram(s), sender), IntendedBySend(s, sender))
  {
    SendWellFormed(s);
    SendFuture(s, sender);
    var st := Start(SendProgram(s), sender);
    assert st.todo[0] == Post(s[0]);
    assert PulsesOf(st.played) == [];
    assert Expand(HeldRuns([])) == [];
  }

  lemma {:induction false} FlagWellFormed(a: Action, rest: seq<Action>)
    requires a == Mark || a == Clear
    requires WellFormed(rest) && rest != [] && (rest[0] == Mark || rest[0] == Clear || rest[0].Post?)
    ensures WellFormed([a] + rest) && (a == Clear || !InWindow(rest) ==> !InWindow([a] + rest))
  {
    assert ([a] + rest)[1..] == rest;
  }

  lemma {:induction false} LoopWellFormed(time: nat, rest: seq<Action>)
    requires time > 0
    requires WellFormed(rest) && rest != [] && (rest[0] == Mark || rest[0] == Clear || rest[0].Post?)
    ensures WellFormed([Post(time), TimerOn, Wait, Clear] + rest)
  {
    var clear := [Clear] + rest;
    FlagWellFormed(Clear, rest);
    PostWellFormed([Clear, Post(time), Wait], clear);
    assert [Post(time), TimerOn, Wait, Clear] + rest == [Post(time), TimerOn, Wait] + clear;
  }

  lemma {:induction false} ExtendedWellFormed(s: seq<nat>, tail: seq<Action>)
    requires NonZero(s) && tail == [Clear, Wait, Finish]
    ensures WellFormed(ExtendedBody(s) + tail)
    ensures var p := ExtendedBody(s) + tail; p[0] == Mark || p[0] == Clear || p[0].Post?
  {
    if s == [] {
      TailWellFormed();
      assert ExtendedBody(s) + tail == tail;
    } else {
      ExtendedWellFormed(s[1..], tail);
      var rest := ExtendedBody(s[1..]) + tail;
      if s[0] == 1 {
        FlagWellFormed(Mark, rest);
        assert ExtendedBody(s) + tail == [Mark] + rest;
      } else {
        LoopWellFormed(s[0], rest);
        assert ExtendedBody(s) + tail == [Post(s[0]), TimerOn, Wait, Clear] + rest;
      }
    }
  }

  lemma {:induction false} LoopPulse(time: nat, rest: seq<Action>, level: bool, marked: bool)
    ensures TodoPulses([Post(time), TimerOn, Wait, Clear] + rest, level, marked)
         == (var l := if marked then level else !level; [Pulse(l, time)] + TodoPulses(rest, l, false))
  {
    FirstAction(Clear, rest, if marked then level else !level, false);
    ExtendedPulse(time, [Clear] + rest, level, marked);
    assert [Post(time), TimerOn, Wait, Clear] + rest == [Post(time), TimerOn, Wait] + ([Clear] + rest);
  }

  lemma {:induction false} ExtendedPulses(s: seq<nat>, tail: seq<Action>, level: bool, marked: bool)
    requires tail == [Clear, Wait, Finish]
    ensures TodoPulses(ExtendedBody(s) + tail, level, marked) == Intended(s, level, marked)
  {
    if s == [] {
      assert ExtendedBody(s) + tail == tail;
      NoPulses(level, marked);
    } else {
      var rest := ExtendedBody(s[1..]) + tail;
      if s[0] == 1 {
        ExtendedPulses(s[1..], tail, level, true);
        FirstAction(Mark, rest, level, marked);
        assert ExtendedBody(s) + tail == [Mark] + rest;
      } else {
        var l := if marked then level else !level;
        ExtendedPulses(s[1..], tail, l, false);
        LoopPulse(s[0], rest, level, marked);
        assert ExtendedBody(s) + tail == [Post(s[0]), TimerOn, Wait, Clear] + rest;
      }
    }
  }

  lemma {:induction false} ExtendedStarts(s: seq<nat>, sender: bool)
    requires NonZero(s)
    ensures Invariant(Start(ExtendedProgram(s), sender), Intended(s, sender, false))
  {
    var tail := [Clear, Wait, Finish];
    var st := Start(ExtendedProgram(s), sender);
    ExtendedWellFormed(s, tail);
    ExtendedPulses(s, tail, sender, false);
    assert PulsesOf(st.played) == [];
    assert Expand(HeldRuns([])) == [];
  }
}
