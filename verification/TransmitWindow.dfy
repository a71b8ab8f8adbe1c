/** What a tick in the window between clearing and posting can do, and when it can. */
module TransmitWindow {
  import opened Transmit
  import opened TransmitProofs
  import opened TransmitTheorems

  // ---------------------------------------------------------------- losing a pulse

  function PostsIn(todo: seq<Action>): nat {
    if todo == [] then 0 else (if todo[0].Post? then 1 else 0) + PostsIn(todo[1..])
  }

  /** How many pulses can still be played in all. */
  function Reach(st: State): nat {
    |st.played| + (if st.nextTime > 0 then 1 else 0) + PostsIn(st.todo)
  }

  lemma {:induction false} StepReach(st: State, e: Event)
    ensures Reach(Step(st, e)) <= Reach(st)
  {
  }

  lemma {:induction false} RunReach(st: State, more: seq<Event>)
    ensures Reach(After(st, more)) <= Reach(st)
  {
    if more != [] {
      RunReach(st, more[..|more| - 1]);
      StepReach(After(st, more[..|more| - 1]), more[|more| - 1]);
    }
  }

  lemma {:induction false} TodoReach(todo: seq<Action>, level: bool, marked: bool)
    ensures |TodoPulses(todo, level, marked)| == PostsIn(todo)
  {
    if todo != [] {
      match todo[0]
      case Post(_) => TodoReach(todo[1..], if marked then level else !level, false);
      case Mark => TodoReach(todo[1..], level, true);
      case _ => TodoReach(todo[1..], level, marked);
    }
  }

  lemma {:induction false} ReachIsGoal(st: State, goal: seq<Pulse>)
    requires PulsesOf(st.played) + Future(st) == goal
    ensures Reach(st) == |goal|
  {
    var l := if st.nextIsZero then st.sender else !st.sender;
    TodoReach(st.todo, l, false);
    TodoReach(st.todo, st.sender, st.nextIsZero);
  }

  /** No schedule whatever can complete the string from here. */
  ghost predicate Doomed(st: State, goal: seq<Pulse>) {
    forall more: seq<Event> :: !Delivered(After(st, more), goal)
  }

  lemma {:induction false} TooFewDooms(st: State, goal: seq<Pulse>)
    requires Reach(st) < |goal|
    ensures Doomed(st, goal)
  {
    forall more: seq<Event> ensures !Delivered(After(st, more), goal) {
      RunReach(st, more);
    }
  }

  lemma {:induction false} StoppedStays(st: State, more: seq<Event>)
    requires st.todo == [] && !st.timerOn
    ensures After(st, more) == st
  {
    if more != [] {
      StoppedStays(st, more[..|more| - 1]);
    }
  }

  lemma {:induction false} ShortLastDooms(st: State, goal: seq<Pulse>)
    requires st.todo == [] && !st.timerOn && !Delivered(st, goal)
    ensures Doomed(st, goal)
  {
    forall more: seq<Event> ensures !Delivered(After(st, more), goal) {
      StoppedStays(st, more);
    }
  }

  lemma {:induction false} AfterThen(st: State, e: Event, c: seq<Event>)
    ensures After(st, [e] + c) == After(Step(st, e), c)
  {
    if c == [] {
      assert ([e] + c)[..0] == [];
    } else {
      AfterThen(st, e, c[..|c| - 1]);
      assert ([e] + c)[..|c|] == [e] + c[..|c| - 1];
    }
  }

  /** One event in front of a schedule. */
  lemma {:induction false} Then(st: State, e: Event, c: seq<Event>)
    requires e == TickEvent && IsIdleTick(st) ==> !InWindow(st.todo)
    requires NoTickInWindow(Step(st, e), c)
    ensures After(st, [e] + c) == After(Step(st, e), c) && NoTickInWindow(st, [e] + c)
  {
    var all := [e] + c;
    AfterThen(st, e, c);
    forall i | 0 <= i < |all| && all[i] == TickEvent && IsIdleTick(After(st, all[..i]))
      ensures !InWindow(After(st, all[..i]).todo)
    {
      if i > 0 {
        AfterThen(st, e, c[..i - 1]);
        assert all[..i] == [e] + c[..i - 1];
      }
    }
  }

  /** The main loop has left its wait although the pulse it posted is not loaded. */
  ghost predicate LeftTooEarly(st: State) {
    && st.timerOn && st.currentTime == 0 && st.nextTime > 0
    && WellFormed(st.todo) && |st.todo| > 1
    && st.todo[0] != TimerOn && !AwaitsLoad(st.todo)
  }

  /** Running on without ticks, it overwrites the pulse or ends the sending under it. */
  lemma {:induction false} Overrun(st: State, goal: seq<Pulse>) returns (c: seq<Event>)
    requires LeftTooEarly(st) && Reach(st) == |goal|
    ensures NoTickInWindow(st, c) && Doomed(After(st, c), goal)
    decreases |st.todo|
  {
    var next := MainStep(st);
    if st.todo[0].Post? {
      c := [MainEvent];
      Then(st, MainEvent, []);
      TooFewDooms(next, goal);
    } else if st.todo[0] == Wait {
      c := EndTooEarly(st, goal);
    } else {
      assert next.todo == st.todo[1..];
      var rest := Overrun(next, goal);
      c := [MainEvent] + rest;
      Then(st, MainEvent, rest);
    }
  }

  /** At the final wait the pending pulse is either lost or cut after one tick. */
  lemma {:induction false} EndTooEarly(st: State, goal: seq<Pulse>) returns (c: seq<Event>)
    requires LeftTooEarly(st) && Reach(st) == |goal| && st.todo[0] == Wait
    ensures NoTickInWindow(st, c) && Doomed(After(st, c), goal)
  {
    assert st.todo == [Wait, Finish];
    if st.newTime {
      c := [MainEvent, MainEvent];
      Then(MainStep(st), MainEvent, []);
      Then(st, MainEvent, [MainEvent]);
      assert c == [MainEvent] + [MainEvent];
      var end := MainStep(MainStep(st));
      assert MainStep(st).todo == [Finish];
      assert end.todo == [] && end.nextTime > 0;
      ShortLastDooms(end, goal);
    } else {
      c := [TickEvent, MainEvent, MainEvent];
      var loaded := Tick(st);
      Then(MainStep(loaded), MainEvent, []);
      Then(loaded, MainEvent, [MainEvent]);
      Then(st, TickEvent, [MainEvent, MainEvent]);
      assert c == [TickEvent] + [MainEvent, MainEvent] && [MainEvent, MainEvent] == [MainEvent] + [MainEvent];
      var end := MainStep(MainStep(loaded));
      assert MainStep(loaded).todo == [Finish];
      assert Last(end.played).held == 1;
      ShortLastDooms(end, goal);
    }
  }

  /** From the window, with the flag already set by a tick: post, and walk through the wait. */
  lemma {:induction false} PostIntoRace(st: State, goal: seq<Pulse>) returns (c: seq<Event>)
    requires InWindow(st.todo) && WellFormed(st.todo)
    requires st.timerOn && st.currentTime == 0 && st.nextTime == 0 && st.newTime
    requires Reach(st) == |goal|
    ensures NoTickInWindow(st, c) && Doomed(After(st, c), goal)
    decreases |st.todo|
  {
    var next := MainStep(st);
    var rest;
    if st.todo[0].Mark? {
      rest := PostIntoRace(next, goal);
    } else {
      rest := PassWait(next, goal);
    }
    c := [MainEvent] + rest;
    Then(st, MainEvent, rest);
  }

  lemma {:induction false} PassWait(st: State, goal: seq<Pulse>) returns (c: seq<Event>)
    requires WellFormed(st.todo) && (AwaitsLoad(st.todo) || (st.todo != [] && st.todo[0] == TimerOn))
    requires st.timerOn && st.currentTime == 0 && st.nextTime > 0 && st.newTime
    requires Reach(st) == |goal|
    ensures NoTickInWindow(st, c) && Doomed(After(st, c), goal)
    decreases |st.todo|
  {
    var next := MainStep(st);
    var rest;
    if st.todo[0] == TimerOn {
      rest := PassWait(next, goal);
    } else {
      assert next.todo == st.todo[1..];
      assert next.todo[0] == Finish ==> next.todo == [Finish];
      rest := Overrun(next, goal);
    }
    c := [MainEvent] + rest;
    Then(st, MainEvent, rest);
  }

  // ---------------------------------------------------------------- completing the string

  /** The first pulse, perhaps after markers, and the start of the timer. */
  predicate Begins(todo: seq<Action>) {
    |todo| > 1 && ((todo[0].Post? && todo[1] == TimerOn) || (todo[0].Mark? && Begins(todo[1..])))
  }

  /** The timer runs until the main loop is done, or is about to be started. */
  predicate Live(st: State) {
    st.timerOn || st.todo == [] || st.todo[0] == TimerOn || Begins(st.todo)
  }

  lemma {:induction false} StepKeepsLive(st: State, e: Event)
    requires Protocol(st) && Live(st)
    ensures Live(Step(st, e))
  {
  }

  lemma {:induction false} RunKeepsLive(st: State, events: seq<Event>, goal: seq<Pulse>)
    requires Invariant(st, goal) && Live(st) && NoTickInWindow(st, events)
    ensures Invariant(After(st, events), goal) && Live(After(st, events))
  {
    RunKeepsInvariant(st, events, goal);
    if events != [] {
      var n := |events| - 1;
      RunPrefix(st, events, n);
      assert NoTickInWindow(st, events[..n]);
      RunKeepsLive(st, events[..n], goal);
      StepKeepsLive(After(st, events[..n]), events[n]);
    }
  }

  /** Where the interrupt and the main loop take turns, the string is always delivered. */
  lemma {:induction false} Completes(st: State, goal: seq<Pulse>) returns (c: seq<Event>)
    requires Invariant(st, goal) && Live(st)
    ensures NoTickInWindow(st, c) && Delivered(After(st, c), goal)
    decreases |st.todo|, if st.newTime then 0 else st.currentTime + 1
  {
    if st.todo == [] {
      c := [];
      EndOfRun(st, goal);
    } else {
      var e := CompletesBy(st, goal);
      var rest := Completes(Step(st, e), goal);
      c := [e] + rest;
      Then(st, e, rest);
    }
  }

  /** Main-loop steps where they are possible, and ticks where it waits. */
  lemma {:induction false} CompletesBy(st: State, goal: seq<Pulse>) returns (e: Event)
    requires Invariant(st, goal) && Live(st) && st.todo != []
    ensures Invariant(Step(st, e), goal) && Live(Step(st, e))
    ensures e == TickEvent && IsIdleTick(st) ==> !InWindow(st.todo)
    ensures var next := Step(st, e);
            || |next.todo| < |st.todo|
            || (|next.todo| == |st.todo| && !st.newTime && (next.newTime || next.currentTime < st.currentTime))
  {
    if st.todo[0] == Wait && !st.newTime {
      e := TickEvent;
      TickKeepsInvariant(st, goal);
      TickWhileWaiting(st);
    } else {
      e := MainEvent;
      MainKeepsInvariant(st, goal);
      MainMoves(st);
    }
    StepKeepsLive(st, e);
  }

  lemma {:induction false} MainMoves(st: State)
    requires st.todo != [] && (st.todo[0] == Wait ==> st.newTime)
    ensures MainStep(st).todo == st.todo[1..]
  {
  }

  lemma {:induction false} TickWhileWaiting(st: State)
    requires st.timerOn && st.todo != [] && st.todo[0] == Wait && !st.newTime
    ensures !InWindow(st.todo) && Tick(st).todo == st.todo
    ensures Tick(st).newTime || Tick(st).currentTime < st.currentTime
  {
  }

  // ---------------------------------------------------------------- the window

  /** A tick in the window can be the end of the string, without another one. */
  lemma {:induction false} WindowCanDoom(st: State, goal: seq<Pulse>) returns (c: seq<Event>)
    requires Invariant(st, goal) && IsIdleTick(st) && InWindow(st.todo)
    ensures NoTickInWindow(Tick(st), c) && Doomed(After(Tick(st), c), goal)
  {
    ReachIsGoal(st, goal);
    c := PostIntoRace(Tick(st), goal);
  }

  /**
   What exactly the window is: an expiring tick is one after which some schedule without a
   further tick in a window leaves the string undeliverable if and only if it falls in the
   window.
   */
  lemma {:induction false} WindowIsExact(st: State, goal: seq<Pulse>)
    requires Invariant(st, goal) && IsIdleTick(st)
    ensures InWindow(st.todo) <==>
            exists c: seq<Event> :: NoTickInWindow(Tick(st), c) && Doomed(After(Tick(st), c), goal)
  {
    if InWindow(st.todo) {
      var c := WindowCanDoom(st, goal);
    } else {
      TickKeepsInvariant(st, goal);
      forall c: seq<Event> | NoTickInWindow(Tick(st), c) ensures !Doomed(After(Tick(st), c), goal) {
        RunKeepsLive(Tick(st), c, goal);
        var more := Completes(After(Tick(st), c), goal);
      }
    }
  }

  /** Until the pulse is loaded, the flag set too early makes no difference but to the flag. */
  lemma {:induction false} Rejoins(st: State, goal: seq<Pulse>) returns (c: seq<Event>)
    requires Invariant(st, goal) && st.timerOn && st.currentTime == 0 && st.nextTime == 0 && InWindow(st.todo)
    ensures After(st.(newTime := true), c) == After(st, c)
    ensures NoTickInWindow(st.(newTime := true), c) && NoTickInWindow(st, c)
    decreases |st.todo|
  {
    var early, next := st.(newTime := true), MainStep(st);
    MainKeepsInvariant(st, goal);
    assert MainStep(early) == next.(newTime := true);
    if st.todo[0].Mark? {
      var rest := Rejoins(next, goal);
      c := [MainEvent] + rest;
      Then(st, MainEvent, rest);
      Then(early, MainEvent, rest);
    } else {
      c := [MainEvent, TickEvent];
      assert c == [MainEvent] + [TickEvent] && [TickEvent] == [TickEvent] + [];
      Then(next, TickEvent, []);
      Then(next.(newTime := true), TickEvent, []);
      Then(st, MainEvent, [TickEvent]);
      Then(early, MainEvent, [TickEvent]);
    }
  }

  lemma {:induction false} TooEarlyOnly(st: State, goal: seq<Pulse>)
    requires Invariant(st, goal) && IsIdleTick(st) && InWindow(st.todo)
    ensures Invariant(Tick(st).(newTime := false), goal) && Tick(st).(newTime := false).(newTime := true) == Tick(st)
  {
    TickWaveform(st);
    TickHeld(st);
    TickFuture(st);
  }

  /**
   A tick in the window can also be survived: when the interrupt loads the late pulse before
   the main loop looks at the flag, nothing is lost.
   */
  lemma {:induction false} WindowCanBeSurvived(st: State, goal: seq<Pulse>) returns (c: seq<Event>)
    requires Invariant(st, goal) && IsIdleTick(st) && InWindow(st.todo)
    ensures NoTickInWindow(Tick(st), c) && Delivered(After(Tick(st), c), goal)
  {
    var calm := Tick(st).(newTime := false);
    TooEarlyOnly(st, goal);
    var first := Rejoins(calm, goal);
    RunKeepsLive(calm, first, goal);
    var rest := Completes(After(calm, first), goal);
    c := first + rest;
    AfterConcat(Tick(st), first, rest);
  }

  lemma {:induction false} AfterConcat(st: State, a: seq<Event>, b: seq<Event>)
    ensures After(st, a + b) == After(After(st, a), b)
    ensures NoTickInWindow(st, a) && NoTickInWindow(After(st, a), b) ==> NoTickInWindow(st, a + b)
    decreases |a|
  {
    if a == [] {
      assert a + b == b;
    } else {
      var e, rest := a[0], a[1..];
      assert a == [e] + rest && a + b == [e] + (rest + b);
      AfterThen(st, e, rest);
      AfterThen(st, e, rest + b);
      AfterConcat(Step(st, e), rest, b);
      if NoTickInWindow(st, a) && NoTickInWindow(After(st, a), b) {
        Tail(st, e, rest);
        Then(st, e, rest + b);
      }
    }
  }

  lemma {:induction false} Tail(st: State, e: Event, c: seq<Event>)
    requires NoTickInWindow(st, [e] + c)
    ensures NoTickInWindow(Step(st, e), c)
    ensures e == TickEvent && IsIdleTick(st) ==> !InWindow(st.todo)
  {
    var all := [e] + c;
    assert all[0] == e && all[..0] == [];
    forall i | 0 <= i < |c| && c[i] == TickEvent && IsIdleTick(After(Step(st, e), c[..i]))
      ensures !InWindow(After(Step(st, e), c[..i]).todo)
    {
      AfterThen(st, e, c[..i]);
      assert all[i + 1] == c[i] && all[..i + 1] == [e] + c[..i];
    }
  }

  // ---------------------------------------------------------------- from the start

  /** A pulse is to come that is not the first one. */
  predicate Ahead(st: State) {
    && Live(st) && st.todo != [] && PostsIn(st.todo) >= 1
    && (!st.timerOn && st.todo[0] != TimerOn ==> PostsIn(st.todo) >= 2)
  }

  /** Main-loop steps as long as they are possible; in the window, ticks. */
  function Toward(st: State): Event
    requires st.todo != []
  {
    if (st.timerOn && InWindow(st.todo)) || (st.todo[0] == Wait && !st.newTime) then TickEvent else MainEvent
  }

  lemma {:induction false} TickStaysAhead(st: State)
    requires Protocol(st) && Ahead(st) && Toward(st) == TickEvent && !(IsIdleTick(st) && InWindow(st.todo))
    ensures Ahead(Tick(st)) && Tick(st).todo == st.todo && !st.newTime
    ensures Tick(st).newTime || (!Tick(st).newTime && Tick(st).currentTime < st.currentTime)
  {
  }

  lemma {:induction false} MainStaysAhead(st: State)
    requires Protocol(st) && Ahead(st) && Toward(st) == MainEvent
    ensures Ahead(MainStep(st)) && |MainStep(st).todo| < |st.todo|
  {
    var next, rest := MainStep(st), st.todo[1..];
    StepKeepsLive(st, MainEvent);
    assert next.todo == rest && PostsIn(st.todo) == PostsIn(rest) + if st.todo[0].Post? then 1 else 0;
    if st.todo[0].Post? {
      assert !st.timerOn && rest != [] && rest[0] == TimerOn;
    } else {
      assert PostsIn(rest) >= 1 && rest != [];
    }
  }

  /** An expiring tick in the window can be reached as long as such a pulse is to come. */
  lemma {:induction false} ReachesWindow(st: State, goal: seq<Pulse>) returns (c: seq<Event>)
    requires Invariant(st, goal) && Ahead(st)
    ensures var end := After(st, c); Invariant(end, goal) && IsIdleTick(end) && InWindow(end.todo)
    decreases |st.todo|, if st.newTime then 0 else st.currentTime + 1
  {
    if IsIdleTick(st) && InWindow(st.todo) {
      c := [];
    } else {
      var e := Toward(st);
      if e == TickEvent {
        TickKeepsInvariant(st, goal);
        TickStaysAhead(st);
      } else {
        MainKeepsInvariant(st, goal);
        MainStaysAhead(st);
      }
      var rest := ReachesWindow(Step(st, e), goal);
      c := [e] + rest;
      AfterThen(st, e, rest);
    }
  }

  /** There is only one pulse to post, and the timer waits for it. */
  predicate Single(st: State) {
    PostsIn(st.todo) == 0 || (PostsIn(st.todo) == 1 && !st.timerOn && Begins(st.todo))
  }

  lemma {:induction false} NoPostNoWindow(todo: seq<Action>)
    requires PostsIn(todo) == 0
    ensures !InWindow(todo)
  {
    if todo != [] {
      NoPostNoWindow(todo[1..]);
    }
  }

  lemma {:induction false} StepKeepsSingle(st: State, e: Event)
    requires Protocol(st) && Single(st)
    ensures Single(Step(st, e)) && (e == TickEvent && IsIdleTick(st) ==> !InWindow(st.todo))
  {
    if PostsIn(st.todo) == 0 {
      NoPostNoWindow(st.todo);
    }
  }

  /** One event more, which is no expiring tick in the window. */
  lemma {:induction false} OneMore(st: State, front: seq<Event>, e: Event)
    requires NoTickInWindow(st, front)
    requires e == TickEvent && IsIdleTick(After(st, front)) ==> !InWindow(After(st, front).todo)
    ensures NoTickInWindow(st, front + [e]) && After(st, front + [e]) == Step(After(st, front), e)
  {
    var events := front + [e];
    AfterSnoc(st, front, e);
    forall i | 0 <= i < |events| && events[i] == TickEvent && IsIdleTick(After(st, events[..i]))
      ensures !InWindow(After(st, events[..i]).todo)
    {
      assert events[..i] == if i < |front| then front[..i] else front;
    }
  }

  lemma {:induction false} SingleHasNoWindow(st: State, events: seq<Event>, goal: seq<Pulse>)
    requires Invariant(st, goal) && Single(st)
    ensures NoTickInWindow(st, events) && Single(After(st, events))
  {
    if events != [] {
      var front, e := events[..|events| - 1], events[|events| - 1];
      SingleHasNoWindow(st, front, goal);
      RunKeepsInvariant(st, front, goal);
      StepKeepsSingle(After(st, front), e);
      OneMore(st, front, e);
      assert front + [e] == events;
    }
  }

  /** A started program has a schedule that dooms its string if and only if it has two pulses or more. */
  lemma {:induction false} TwoPulsesAtRisk(program: seq<Action>, sender: bool, goal: seq<Pulse>)
    requires Invariant(Start(program, sender), goal) && Begins(program)
    ensures (exists c: seq<Event> :: Doomed(After(Start(program, sender), c), goal)) <==> |goal| >= 2
  {
    var st := Start(program, sender);
    ReachIsGoal(st, goal);
    if |goal| >= 2 {
      var first := ReachesWindow(st, goal);
      var end := After(st, first);
      var c := WindowCanDoom(end, goal);
      AfterConcat(st, first, [TickEvent] + c);
      AfterThen(end, TickEvent, c);
    } else {
      BeginsHasPost(program);
      forall c: seq<Event> ensures !Doomed(After(st, c), goal) {
        SingleHasNoWindow(st, c, goal);
        RunKeepsLive(st, c, goal);
        var more := Completes(After(st, c), goal);
      }
    }
  }

  lemma {:induction false} BeginsHasPost(todo: seq<Action>)
    requires Begins(todo)
    ensures PostsIn(todo) >= 1
  {
    if !todo[0].Post? {
      BeginsHasPost(todo[1..]);
    }
  }

  /**
   `rfSend`: there is a schedule after which no other can deliver the string if and only if the
   string asks for at least two pulses.
   */
  lemma {:induction false} SendAtRisk(s: seq<nat>, sender: bool)
    requires s != [] && NonZero(s)
    ensures (exists c: seq<Event> :: Doomed(After(Start(SendProgram(s), sender), c), IntendedBySend(s, sender)))
            <==> |IntendedBySend(s, sender)| >= 2
  {
    SendStarts(s, sender);
    assert SendProgram(s)[0] == Post(s[0]) && SendProgram(s)[1] == TimerOn;
    TwoPulsesAtRisk(SendProgram(s), sender, IntendedBySend(s, sender));
  }

  /** The same for `rfSendExtended`, on strings that are not markers only. */
  lemma {:induction false} ExtendedAtRisk(s: seq<nat>, sender: bool)
    requires NonZero(s) && Intended(s, sender, false) != []
    ensures (exists c: seq<Event> :: Doomed(After(Start(ExtendedProgram(s), sender), c), Intended(s, sender, false)))
            <==> |Intended(s, sender, false)| >= 2
  {
    ExtendedStarts(s, sender);
    ExtendedBegins(s, sender, false, [Clear, Wait, Finish]);
    TwoPulsesAtRisk(ExtendedProgram(s), sender, Intended(s, sender, false));
  }

  lemma {:induction false} ExtendedBegins(s: seq<nat>, level: bool, marked: bool, tail: seq<Action>)
    requires Intended(s, level, marked) != [] && tail != []
    ensures Begins(ExtendedBody(s) + tail)
  {
    var all := ExtendedBody(s) + tail;
    if s[0] == 1 {
      ExtendedBegins(s[1..], level, true, tail);
      assert all[1..] == ExtendedBody(s[1..]) + tail;
    } else {
      assert all[0].Post? && all[1] == TimerOn;
    }
  }

  /** One event more. */
  lemma {:induction false} Next(st: State, c: seq<Event>, now: State, e: Event) returns (d: seq<Event>, next: State)
    requires After(st, c) == now
    ensures next == Step(now, e) && After(st, d) == next && d == c + [e]
  {
    AfterSnoc(st, c, e);
    d, next := c + [e], Step(now, e);
  }

  /** The string 2, 3 up to an expiring tick in the window: the first pulse is out, the second not posted. */
  lemma {:induction false} UpToTheWindow(st: State) returns (c: seq<Event>)
    requires st == Start([Post(2), TimerOn, Wait, Clear, Post(3), Wait, Clear, Wait, Finish], false)
    ensures After(st, c) == State(0, 0, true, false, true, true, [Post(3), Wait, Clear, Wait, Finish],
                                  [Played(Pulse(true, 2), 3)], [true, true, true])
  {
    var now := st;
    c := [];
    c, now := Next(st, c, now, MainEvent);  // post 2
    c, now := Next(st, c, now, MainEvent);  // the timer starts
    c, now := Next(st, c, now, TickEvent);  // 2 is loaded
    assert now.todo == [Wait, Clear, Post(3), Wait, Clear, Wait, Finish] && now.newTime;
    c, now := Next(st, c, now, MainEvent);  // the wait is over
    c, now := Next(st, c, now, MainEvent);  // the flag is cleared
    assert now.todo == [Post(3), Wait, Clear, Wait, Finish] && !now.newTime;
    c, now := Next(st, c, now, TickEvent);  // 2 is used up
    c, now := Next(st, c, now, TickEvent);  // nothing is posted yet
  }

  /** The main loop passes its wait at once, and the last pulse is cut after one tick. */
  lemma {:induction false} AfterTheWindow(st: State) returns (c: seq<Event>)
    requires st == State(0, 0, true, false, true, true, [Post(3), Wait, Clear, Wait, Finish],
                         [Played(Pulse(true, 2), 3)], [true, true, true])
    ensures After(st, c) == State(0, 2, true, false, false, false, [],
                                  [Played(Pulse(true, 2), 3), Played(Pulse(false, 3), 1)], [true, true, true, false])
  {
    var now := st;
    c := [];
    c, now := Next(st, c, now, MainEvent);  // post 3
    c, now := Next(st, c, now, MainEvent);  // the flag is still set: the wait is over at once
    c, now := Next(st, c, now, MainEvent);  // the flag is cleared
    assert now.todo == [Wait, Finish] && !now.newTime && now.nextTime == 3;
    c, now := Next(st, c, now, TickEvent);  // 3 is loaded
    c, now := Next(st, c, now, MainEvent);  // the wait for its end is over
    c, now := Next(st, c, now, MainEvent);  // the timer is stopped
  }

  /** A schedule of the string 2, 3 that cuts its second pulse after one of its three ticks. */
  lemma {:induction false} LosesSecondPulse() returns (c: seq<Event>)
    ensures var end := After(Start(SendProgram([2, 3]), false), c);
            && end.todo == [] && end.wave == [true, true, true, false]
            && !Delivered(end, IntendedBySend([2, 3], false))
  {
    var program := [Post(2), TimerOn, Wait, Clear, Post(3), Wait, Clear, Wait, Finish];
    TwoThree(program);
    var st := Start(program, false);
    var first := UpToTheWindow(st);
    var second := AfterTheWindow(After(st, first));
    AfterConcat(st, first, second);
    c := first + second;
    CutIsNotDelivered(After(st, c));
  }

  lemma {:induction false} TwoThree(program: seq<Action>)
    requires program == [Post(2), TimerOn, Wait, Clear, Post(3), Wait, Clear, Wait, Finish]
    ensures SendProgram([2, 3]) == program
    ensures IntendedBySend([2, 3], false) == [Pulse(true, 2), Pulse(false, 3)]
  {
    assert [2, 3][1..] == [3] && [3][1..] == [];
    assert Intended([3], true, false) == [Pulse(false, 3)];
  }

  lemma {:induction false} CutIsNotDelivered(st: State)
    requires |st.played| == 2 && st.played[1].held == 1
    ensures !Delivered(st, [Pulse(true, 2), Pulse(false, 3)])
  {
  }
}
