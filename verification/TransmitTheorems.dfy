/** What `rfSend` and `rfSendExtended` deliver over whole runs. */
module TransmitTheorems {
  import opened RunLength
  import opened Transmit
  import opened TransmitProofs

  // ---------------------------------------------------------------- runs

  lemma {:induction false} AfterSnoc(st: State, events: seq<Event>, e: Event)
    ensures After(st, events + [e]) == Step(After(st, events), e)
  {
    assert (events + [e])[..|events + [e]| - 1] == events;
  }

  lemma {:induction false} RunPrefix(st: State, events: seq<Event>, i: nat)
    requires i <= |events|
    ensures forall j :: 0 <= j <= i ==> After(st, events[..i][..j]) == After(st, events[..j])
  {
    forall j | 0 <= j <= i ensures After(st, events[..i][..j]) == After(st, events[..j]) {
      assert events[..i][..j] == events[..j];
    }
  }

  lemma {:induction false} RunKeepsInvariant(st: State, events: seq<Event>, goal: seq<Pulse>)
    requires Invariant(st, goal) && NoTickInWindow(st, events)
    ensures Invariant(After(st, events), goal)
  {
    if events != [] {
      var n := |events| - 1;
      RunPrefix(st, events, n);
      assert NoTickInWindow(st, events[..n]);
      RunKeepsInvariant(st, events[..n], goal);
      var before := After(st, events[..n]);
      if events[n] == TickEvent {
        TickKeepsInvariant(before, goal);
      } else {
        MainKeepsInvariant(before, goal);
      }
    }
  }

  /** A pulse still in the program's future has not been posted in vain. */
  lemma {:induction false} WindowOwes(st: State)
    requires InWindow(st.todo)
    ensures Owes(st)
  {
    WindowHasPost(st.todo);
  }

  lemma {:induction false} WindowHasPost(todo: seq<Action>)
    requires InWindow(todo)
    ensures exists i :: 0 <= i < |todo| && todo[i].Post?
  {
    if !todo[0].Post? {
      WindowHasPost(todo[1..]);
      var i :| 0 <= i < |todo[1..]| && todo[1..][i].Post?;
      assert todo[i + 1].Post?;
    } else {
      assert todo[0].Post?;
    }
  }

  lemma {:induction false} PostedInTimeSparesWindow(st: State, events: seq<Event>)
    requires PostedInTime(st, events)
    ensures NoTickInWindow(st, events)
  {
    forall i | 0 <= i < |events| && events[i] == TickEvent && IsIdleTick(After(st, events[..i]))
      ensures !InWindow(After(st, events[..i]).todo)
    {
      if InWindow(After(st, events[..i]).todo) {
        WindowOwes(After(st, events[..i]));
      }
    }
  }

  // ---------------------------------------------------------------- lateness only stretches

  /** Everything asked for was loaded once and in order, and nothing was cut short. */
  ghost predicate Delivered(st: State, goal: seq<Pulse>) {
    && PulsesOf(st.played) == goal
    && goal != []
    && st.wave == Expand(HeldRuns(st.played))
    && (forall i :: 0 <= i < |goal| ==> st.played[i].held >= goal[i].time)
    && Last(st.played).held > goal[|goal| - 1].time
    && !st.sender && !st.timerOn
  }

  lemma {:induction false} EndOfRun(st: State, goal: seq<Pulse>)
    requires Invariant(st, goal) && st.todo == []
    ensures Delivered(st, goal)
  {
    assert PulsesOf(st.played) + [] == PulsesOf(st.played);
  }

  /**
   `rfSend`, over every interleaving in which no expiring tick falls between the clearing of
   rfNewTime and the posting of rfNextTime: at every moment the pulses loaded are the first
   ones of the string, each held at least its time; when `rfSend` returns they are all of
   them, and SENDER is low.
   */
  lemma {:induction false} LatenessOnlyStretches(s: seq<nat>, sender: bool, events: seq<Event>)
    requires s != [] && NonZero(s)
    requires NoTickInWindow(Start(SendProgram(s), sender), events)
    ensures var st := After(Start(SendProgram(s), sender), events);
            && PulsesOf(st.played) <= IntendedBySend(s, sender)
            && st.wave == Expand(HeldRuns(st.played))
            && HeldLongEnough(st)
            && (st.todo == [] ==> Delivered(st, IntendedBySend(s, sender)))
  {
    SendStarts(s, sender);
    RunKeepsInvariant(Start(SendProgram(s), sender), events, IntendedBySend(s, sender));
    var st := After(Start(SendProgram(s), sender), events);
    if st.todo == [] {
      EndOfRun(st, IntendedBySend(s, sender));
    }
  }

  /** The same for `rfSendExtended`, whose window runs from the end of one wait to the next post. */
  lemma {:induction false} ExtendedLatenessOnlyStretches(s: seq<nat>, sender: bool, events: seq<Event>)
    requires NonZero(s)
    requires NoTickInWindow(Start(ExtendedProgram(s), sender), events)
    ensures var st := After(Start(ExtendedProgram(s), sender), events);
            && PulsesOf(st.played) <= Intended(s, sender, false)
            && st.wave == Expand(HeldRuns(st.played))
            && HeldLongEnough(st)
            && (st.todo == [] ==> Delivered(st, Intended(s, sender, false)))
  {
    ExtendedStarts(s, sender);
    RunKeepsInvariant(Start(ExtendedProgram(s), sender), events, Intended(s, sender, false));
    var st := After(Start(ExtendedProgram(s), sender), events);
    if st.todo == [] {
      EndOfRun(st, Intended(s, sender, false));
    }
  }

  // ---------------------------------------------------------------- the exact waveform

  function TotalTime(pulses: seq<Pulse>): nat {
    if pulses == [] then 0 else TotalTime(pulses[..|pulses| - 1]) + pulses[|pulses| - 1].time
  }

  /** All pulses but the current one took exactly their time; the current one is `idle` ticks over. */
  ghost predicate OnTime(st: State, idle: nat) {
    && (forall i :: 0 <= i < |st.played| - 1 ==> st.played[i].held == st.played[i].pulse.time)
    && (st.played == [] ==> idle == 0)
    && (st.played != [] ==> Last(st.played).held + st.currentTime == Last(st.played).pulse.time + idle)
    && (Owes(st) ==> idle == 0)
  }

  lemma {:induction false} OwesShrinks(st: State)
    requires Owes(MainStep(st))
    ensures Owes(st)
  {
    if st.nextTime == 0 && st.todo != [] {
      if st.todo[0].Post? {
        assert st.todo[0].Post?;
      } else {
        var next := MainStep(st);
        var i :| 0 <= i < |next.todo| && next.todo[i].Post?;
        if next.todo == st.todo[1..] {
          assert st.todo[i + 1].Post?;
        }
      }
    }
  }

  lemma {:induction false} TickOnTime(st: State, idle: nat)
    requires Protocol(st) && OnTime(st, idle) && (IsIdleTick(st) ==> !Owes(st))
    ensures OnTime(Tick(st), idle + if IsIdleTick(st) then 1 else 0)
  {
    assert Owes(Tick(st)) ==> Owes(st);
  }

  lemma {:induction false} RunOnTime(st: State, events: seq<Event>, goal: seq<Pulse>)
    requires Invariant(st, goal) && OnTime(st, 0) && PostedInTime(st, events)
    ensures OnTime(After(st, events), IdleTicks(st, events))
  {
    if events != [] {
      var n := |events| - 1;
      RunPrefix(st, events, n);
      assert PostedInTime(st, events[..n]);
      RunOnTime(st, events[..n], goal);
      PostedInTimeSparesWindow(st, events[..n]);
      RunKeepsInvariant(st, events[..n], goal);
      StepOnTime(After(st, events[..n]), events[n], IdleTicks(st, events[..n]));
    }
  }

  lemma {:induction false} StepOnTime(st: State, e: Event, idle: nat)
    requires Protocol(st) && OnTime(st, idle) && (e == TickEvent && IsIdleTick(st) ==> !Owes(st))
    ensures OnTime(Step(st, e), idle + if e == TickEvent && IsIdleTick(st) then 1 else 0)
  {
    if e == TickEvent {
      TickOnTime(st, idle);
    } else if Owes(MainStep(st)) {
      OwesShrinks(st);
    }
  }

  /** The waveform of pulses that took exactly their time, with the last one drawn out. */
  lemma {:induction false} ExactWave(played: seq<Played>, idle: nat)
    requires played != []
    requires forall i :: 0 <= i < |played| - 1 ==> played[i].held == played[i].pulse.time
    requires Last(played).held == Last(played).pulse.time + idle
    ensures Expand(HeldRuns(played)) == Expand(PulseRuns(PulsesOf(played))) + Repeat(Last(played).pulse.level, idle)
  {
    var n := |played| - 1;
    var held, exact := HeldRuns(played), PulseRuns(PulsesOf(played));
    assert held[..n] == exact[..n];
    assert Repeat(exact[n].level, exact[n].count + idle) ==
           Repeat(exact[n].level, exact[n].count) + Repeat(exact[n].level, idle);
    assert Expand(held) == Expand(held[..n]) + Repeat(held[n].level, held[n].count);
    assert Expand(exact) == Expand(exact[..n]) + Repeat(exact[n].level, exact[n].count);
  }

  lemma {:induction false} WaveLength(pulses: seq<Pulse>)
    ensures |Expand(PulseRuns(pulses))| == TotalTime(pulses)
  {
    if pulses != [] {
      var n := |pulses| - 1;
      WaveLength(pulses[..n]);
      assert PulseRuns(pulses)[..n] == PulseRuns(pulses[..n]);
    }
  }

  /** The SENDER levels, tick by tick, are the string's own expansion and then `idle` ticks of its last level. */
  ghost predicate ExactlySent(st: State, goal: seq<Pulse>, idle: nat) {
    && goal != [] && idle >= 1
    && st.wave == Expand(PulseRuns(goal)) + Repeat(goal[|goal| - 1].level, idle)
    && |st.wave| == TotalTime(goal) + idle
    && !st.sender && !st.timerOn
  }

  lemma {:induction false} ExactRun(st: State, events: seq<Event>, goal: seq<Pulse>)
    requires Invariant(st, goal) && OnTime(st, 0) && PostedInTime(st, events)
    requires After(st, events).todo == []
    ensures ExactlySent(After(st, events), goal, IdleTicks(st, events))
  {
    PostedInTimeSparesWindow(st, events);
    RunKeepsInvariant(st, events, goal);
    RunOnTime(st, events, goal);
    ExactEnd(After(st, events), goal, IdleTicks(st, events));
  }

  lemma {:induction false} ExactEnd(end: State, goal: seq<Pulse>, idle: nat)
    requires Invariant(end, goal) && OnTime(end, idle) && end.todo == []
    ensures ExactlySent(end, goal, idle)
  {
    EndOfRun(end, goal);
    ExactWave(end.played, idle);
    WaveLength(goal);
  }

  /**
   `rfSend`, over every interleaving in which each next time is posted before the current
   one expires: each element is held exactly its own number of ticks. The one tick more
   that the string needs is the one that tells the main loop the last pulse is over; a main
   loop that is slow to look draws out only that last level.
   */
  lemma {:induction false} SendIsExact(s: seq<nat>, sender: bool, events: seq<Event>)
    requires s != [] && NonZero(s)
    requires PostedInTime(Start(SendProgram(s), sender), events)
    requires After(Start(SendProgram(s), sender), events).todo == []
    ensures ExactlySent(After(Start(SendProgram(s), sender), events), IntendedBySend(s, sender),
                        IdleTicks(Start(SendProgram(s), sender), events))
  {
    SendStarts(s, sender);
    ExactRun(Start(SendProgram(s), sender), events, IntendedBySend(s, sender));
  }

  lemma {:induction false} ExtendedIsExact(s: seq<nat>, sender: bool, events: seq<Event>)
    requires NonZero(s)
    requires PostedInTime(Start(ExtendedProgram(s), sender), events)
    requires After(Start(ExtendedProgram(s), sender), events).todo == []
    ensures ExactlySent(After(Start(ExtendedProgram(s), sender), events), Intended(s, sender, false),
                        IdleTicks(Start(ExtendedProgram(s), sender), events))
  {
    ExtendedStarts(s, sender);
    ExactRun(Start(ExtendedProgram(s), sender), events, Intended(s, sender, false));
  }

  /** On strings without a leading marker both functions are asked for the same waveform. */
  lemma {:induction false} SameIntention(s: seq<nat>, sender: bool)
    requires s != []
    ensures IntendedBySend(s, sender) == Intended(s, sender, false) <==> s[0] != 1
  {
    if s[0] == 1 {
      IntendedCount(s[1..], !sender, false, sender, true);
    }
  }

  /** Markers aside, the number of pulses does not depend on where the level starts. */
  lemma {:induction false} IntendedCount(s: seq<nat>, l1: bool, m1: bool, l2: bool, m2: bool)
    ensures |Intended(s, l1, m1)| == |Intended(s, l2, m2)|
  {
    if s != [] {
      if s[0] == 1 {
        IntendedCount(s[1..], l1, true, l2, true);
      } else {
        IntendedCount(s[1..], if m1 then l1 else !l1, false, if m2 then l2 else !l2, false);
      }
    }
  }

  // ---------------------------------------------------------------- tables of markers only

  predicate OnlyMarks(todo: seq<Action>) {
    todo == [Clear, Wait, Finish] || (todo != [] && todo[0].Mark? && OnlyMarks(todo[1..]))
  }

  /** The timer never runs, and the main loop waits for it, or will. */
  predicate Hangs(st: State) {
    !st.timerOn && (OnlyMarks(st.todo) || (st.todo == [Wait, Finish] && !st.newTime))
  }

  lemma {:induction false} MarksOnly(s: seq<nat>)
    requires forall i :: 0 <= i < |s| ==> s[i] == 1
    ensures OnlyMarks(ExtendedProgram(s))
  {
    if s != [] {
      MarksOnly(s[1..]);
      assert ExtendedProgram(s)[1..] == ExtendedProgram(s[1..]);
    }
  }

  /**
   A table without a pulse that is no marker never starts the timer, and so keeps `rfSendExtended`
   waiting for ever.
   */
  lemma {:induction false} MarkersNeverEnd(s: seq<nat>, sender: bool, events: seq<Event>)
    requires forall i :: 0 <= i < |s| ==> s[i] == 1
    ensures Hangs(After(Start(ExtendedProgram(s), sender), events))
    ensures After(Start(ExtendedProgram(s), sender), events).todo != []
  {
    if events == [] {
      MarksOnly(s);
    } else {
      MarkersNeverEnd(s, sender, events[..|events| - 1]);
    }
  }
}
