/** The application state machine (src/main.c, src/kissm.c) next to the shunt regulator, on values. */
module AppStates {
  import opened Bytes
  import T = Timers
  import S = Shunt
  import Command

  datatype State = Initial | Powerup | Idle | Dfu | Shunting | Testmode | Sleep

  datatype Event = NoEvent | Exit | Entry | Timeout | Cmd(cmd: nat)

  const STATE_TMR: nat := 1

  /** The present state, the timer list and the regulator; `K` identifies timers. */
  datatype App<K> = App(ps: State, list: seq<T.Entry<K>>, sh: S.Shunt)

  /** What a TESTMODE command does to the regulator when the command processor executes it. */
  datatype TestEffect = TestOff | TestShunt(pwm: nat) | TestOther

  /** What one turn of the main loop meets: the time, the readings, and what the command processor did and returned. */
  datatype Turn = Turn(
    now: nat,
    active: bool,                   // packet or serial module busy
    c: S.Settings, cellmv: nat, tempc: int,
    query: bool,                    // a STATUS command was executed
    test: Option<TestEffect>,       // a TESTMODE command was executed
    kept: Option<nat>,              // command code of the packet returned to the main loop
    testEnds: bool)                 // the test mode module reports off

  function ScheduleState<K(==)>(a: App<K>, key: K, duration: nat, now: nat): App<K> {
    a.(list := T.Schedule(a.list, key, STATE_TMR, duration, false, now))
  }

  /** The settings may change from turn to turn, as long as the readings do not make the regulator divide by zero. */
  predicate Steady<K>(a: App<K>, t: Turn) {
    t.c.Fit() && t.cellmv < 0x1_0000 &&
    (a.sh.status != S.Off ==> !S.DividesByZero(a.sh, t.c, t.cellmv, t.tempc))
  }

  function RunShunt(sh: S.Shunt, t: Turn): S.Shunt
    requires t.c.Fit() && t.cellmv < 0x1_0000
    requires sh.status != S.Off ==> !S.DividesByZero(sh, t.c, t.cellmv, t.tempc)
  {
    if sh.status == S.Off then S.Stop(sh) else S.Run(sh, t.c, t.now, t.cellmv, t.tempc)
  }

  /** A state handler: what it does, and the state it asks for. */
  function Handler<K(==)>(a: App<K>, st: State, e: Event, key: K, t: Turn): (App<K>, Option<State>)
    requires Steady(a, t)
  {
    match st
    case Initial => (a, Some(Powerup))
    case Powerup =>
      if e == Entry then (ScheduleState(a, key, 1000, t.now), None)
      else if e == Timeout then (a, Some(Idle))
      else (a, None)
    case Idle =>
      if e == Entry then (ScheduleState(a, key, 1000, t.now), None)
      else if e == Exit then (a, None)
      else if e.Cmd? then
        (ScheduleState(a, key, 1000, t.now),
         if e.cmd == Command.DFU then Some(Dfu)
         else if e.cmd == Command.SHUNTON then Some(Shunting)
         else if e.cmd == Command.TESTMODE then Some(Testmode)
         else None)
      else if e == Timeout then (a, Some(Sleep))
      else (if t.active then ScheduleState(a, key, 1000, t.now) else a, None)
    case Dfu =>
      if e == Entry then (ScheduleState(a, key, 8000, t.now), None)
      else if e == Timeout then (a, Some(Idle))
      else (a, None)
    case Shunting =>
      if e == Entry then (a.(sh := S.Start(t.c, t.now)), None)
      else if e.Cmd? then
        if e.cmd == Command.SHUNTOFF then (a.(sh := S.Stop(a.sh)), Some(Idle)) else (a, None)
      else if e == Exit then (a, None)
      else
        var sh := RunShunt(a.sh, t);
        (a.(sh := sh), if sh.status == S.Off then Some(Idle) else None)
    case Testmode =>
      if e == Entry || e == Exit then (a, None)
      else if t.testEnds then (a.(sh := S.Stop(a.sh)), Some(Idle))
      else (a, None)
    case Sleep =>
      if e == Entry || e == Exit then (a, None) else (a, Some(Idle))
  }

  /** A transition: exit event for the old state, entry event for the new one. */
  function Moved<K(==)>(a: App<K>, ns: State, key: K, t: Turn): App<K>
    requires Steady(a, t)
  {
    var a' := Handler(a, a.ps, Exit, key, t).0;
    Handler(a', ns, Entry, key, t).0.(ps := ns)
  }

  /** `kissm_run`: the present state handles the event; if it asks for another state, exit and entry follow. */
  function Kissm<K(==)>(a: App<K>, e: Event, key: K, t: Turn): App<K>
    requires Steady(a, t)
  {
    var (a1, ns) := Handler(a, a.ps, e, key, t);
    if ns == None || ns == Some(a.ps) then a1 else Moved(a1, ns.value, key, t)
  }

  /** What the executed command does to the regulator before the state machine sees anything. */
  function Executed(sh: S.Shunt, t: Turn): S.Shunt {
    var sh1 := if t.query then S.StatusRead(sh, t.now) else sh;
    match t.test
    case None => sh1
    case Some(TestOff) => S.Stop(sh1)
    case Some(TestShunt(pwm)) => S.Start(t.c, t.now).(pwm := pwm)
    case Some(TestOther) => sh1
  }

  /** The event of a turn in which no timer expired. */
  function EventOf(t: Turn): Event {
    if t.kept.Some? then Cmd(t.kept.value) else NoEvent
  }

  /** What follows the timers: an expired timer is an event of its own; otherwise commands are looked at. */
  function AfterTimers<K(==)>(a: App<K>, expired: bool, key: K, t: Turn): App<K>
    requires Steady(a, t)
  {
    if expired then Kissm(a, Timeout, key, t)
    else Kissm(a.(sh := Executed(a.sh, t)), EventOf(t), key, t)
  }

  /** One turn of the main loop. */
  function Loop<K(==)>(a: App<K>, key: K, t: Turn): App<K>
    requires Steady(a, t)
  {
    var (list, fired) := T.Process(a.list, t.now);
    AfterTimers(a.(list := list), fired.Some?, key, t)
  }

  // ---------------------------------------------------------------- coupling

  /** The application is in the shunt state exactly when the regulator runs, and the PWM is off everywhere else. */
  predicate Coupled<K>(a: App<K>) {
    && (a.ps == Shunting <==> a.sh.status != S.Off)
    && (a.sh.pwm != 0 ==> a.ps == Shunting)
  }

  /** The list holds at most the state timer, a one-shot. */
  predicate OnlyStateTimer<K(==)>(a: App<K>, key: K) {
    && |a.list| <= 1
    && (a.list != [] ==> a.list[0].key == key && a.list[0].period == 0)
  }

  /** In the states that only a timeout can leave, the timer runs. */
  predicate TimerRuns<K>(a: App<K>) {
    a.ps == Powerup || a.ps == Idle || a.ps == Dfu ==> a.list != []
  }

  predicate Inv<K(==)>(a: App<K>, key: K) {
    Coupled(a) && OnlyStateTimer(a, key) && TimerRuns(a) && a.ps != Testmode
  }

  /** No TESTMODE command is executed or returned. */
  predicate TestFree(t: Turn) {
    t.test == None && t.kept != Some(Command.TESTMODE)
  }

  lemma ScheduleOnlyTimer<K>(a: App<K>, key: K, duration: nat, now: nat)
    requires OnlyStateTimer(a, key)
    ensures OnlyStateTimer(ScheduleState(a, key, duration, now), key)
    ensures ScheduleState(a, key, duration, now).list == [T.Entry(key, STATE_TMR, now + duration, 0)]
  {}

  lemma ProcessOnlyTimer<K>(a: App<K>, key: K, now: nat)
    requires OnlyStateTimer(a, key)
    ensures var (list, fired) := T.Process(a.list, now);
            (fired.Some? ==> list == [] && fired == Some(key)) && (fired.None? ==> list == a.list)
  {}

  lemma RunShuntStops(sh: S.Shunt, t: Turn)
    requires t.c.Fit() && t.cellmv < 0x1_0000
    requires sh.status != S.Off ==> !S.DividesByZero(sh, t.c, t.cellmv, t.tempc)
    ensures RunShunt(sh, t).status == S.Off ==> RunShunt(sh, t).pwm == 0
  {}

  /** What the state machine may be asked to handle in a TESTMODE-free run. */
  predicate Ordinary(e: Event) {
    e == NoEvent || e == Timeout || (e.Cmd? && e.cmd != Command.TESTMODE)
  }

  /** Entering any state but the test mode keeps the coupling, provided the regulator was off. */
  lemma MovedKeepsInv<K>(a: App<K>, ns: State, key: K, t: Turn)
    requires Steady(a, t) && OnlyStateTimer(a, key) && a.sh.status == S.Off && a.sh.pwm == 0
    requires ns == Idle || ns == Dfu || ns == Shunting || ns == Sleep
    ensures Inv(Moved(a, ns, key, t), key)
  {
    ExitLeaves(a, key, t);
    if ns == Idle {
      ScheduleOnlyTimer(a, key, 1000, t.now);
    } else if ns == Dfu {
      ScheduleOnlyTimer(a, key, 8000, t.now);
    }
  }

  lemma ExitLeaves<K>(a: App<K>, key: K, t: Turn)
    requires Steady(a, t)
    ensures Handler(a, a.ps, Exit, key, t).0 == a
  {}

  lemma IdleKeepsInv<K>(a: App<K>, e: Event, key: K, t: Turn)
    requires Steady(a, t) && Coupled(a) && OnlyStateTimer(a, key) && a.ps == Idle
    requires Ordinary(e) && (e == Timeout || TimerRuns(a))
    ensures Inv(Kissm(a, e, key, t), key)
  {
    ScheduleOnlyTimer(a, key, 1000, t.now);
    var (a1, ns) := Handler(a, Idle, e, key, t);
    if ns.Some? && ns.value != Idle {
      MovedKeepsInv(a1, ns.value, key, t);
    }
  }

  lemma ShuntingKeepsInv<K>(a: App<K>, e: Event, key: K, t: Turn)
    requires Steady(a, t) && Coupled(a) && OnlyStateTimer(a, key) && a.ps == Shunting
    requires Ordinary(e)
    ensures Inv(Kissm(a, e, key, t), key)
  {
    RunShuntStops(a.sh, t);
    var (a1, ns) := Handler(a, Shunting, e, key, t);
    if ns.Some? {
      MovedKeepsInv(a1, Idle, key, t);
    }
  }

  lemma OthersKeepInv<K>(a: App<K>, e: Event, key: K, t: Turn)
    requires Steady(a, t) && Coupled(a) && OnlyStateTimer(a, key)
    requires a.ps == Initial || a.ps == Powerup || a.ps == Dfu || a.ps == Sleep
    requires Ordinary(e) && (e == Timeout || TimerRuns(a))
    ensures Inv(Kissm(a, e, key, t), key)
  {
    ScheduleOnlyTimer(a, key, 1000, t.now);
  }

  /** Any state machine step from a coupled state, given a timeout is not wasted. */
  lemma KissmKeepsInv<K>(a: App<K>, e: Event, key: K, t: Turn)
    requires Steady(a, t) && Coupled(a) && OnlyStateTimer(a, key) && a.ps != Testmode
    requires Ordinary(e) && (e == Timeout || TimerRuns(a))
    ensures Inv(Kissm(a, e, key, t), key)
  {
    if a.ps == Idle {
      IdleKeepsInv(a, e, key, t);
    } else if a.ps == Shunting {
      ShuntingKeepsInv(a, e, key, t);
    } else {
      OthersKeepInv(a, e, key, t);
    }
  }

  lemma LoopKeepsInv<K>(a: App<K>, key: K, t: Turn)
    requires Inv(a, key) && Steady(a, t) && TestFree(t)
    ensures Inv(Loop(a, key, t), key)
  {
    ProcessOnlyTimer(a, key, t.now);
    var (list, fired) := T.Process(a.list, t.now);
    if fired.Some? {
      KissmKeepsInv(a.(list := list), Timeout, key, t);
    } else {
      KissmKeepsInv(a.(list := list, sh := Executed(a.sh, t)), EventOf(t), key, t);
    }
  }

  function Boot<K>(): App<K> {
    App(Initial, [], S.Shunt(0, S.Off, 0, 0, 0, 0))
  }

  predicate Allowed<K(==)>(a: App<K>, key: K, ts: seq<Turn>)
    decreases |ts|
  {
    ts == [] || (Steady(a, ts[0]) && TestFree(ts[0]) && Allowed(Loop(a, key, ts[0]), key, ts[1..]))
  }

  function Turns<K(==)>(a: App<K>, key: K, ts: seq<Turn>): App<K>
    requires Allowed(a, key, ts)
    decreases |ts|
  {
    if ts == [] then a else Turns(Loop(a, key, ts[0]), key, ts[1..])
  }

  lemma {:induction false} TurnsKeepInv<K>(a: App<K>, key: K, ts: seq<Turn>)
    requires Inv(a, key) && Allowed(a, key, ts)
    ensures Inv(Turns(a, key, ts), key)
    decreases |ts|
  {
    if ts != [] {
      LoopKeepsInv(a, key, ts[0]);
      TurnsKeepInv(Loop(a, key, ts[0]), key, ts[1..]);
    }
  }

  /**
   In every TESTMODE-free run from power-up, at each top of the main loop: shunt state and running regulator
   coincide, the PWM is zero elsewhere, and powerup, idle and dfu have their timer running.
   */
  lemma EveryTurnIsCoupled<K>(key: K, ts: seq<Turn>)
    requires Allowed(Boot(), key, ts)
    ensures var a := Turns(Boot(), key, ts); Coupled(a) && TimerRuns(a) && OnlyStateTimer(a, key)
  {
    TurnsKeepInv(Boot(), key, ts);
  }

  /** The timed states are left as soon as their deadline is reached, and not before without a command. */
  lemma TimedStatesEnd<K>(a: App<K>, key: K, t: Turn)
    requires Inv(a, key) && Steady(a, t) && TestFree(t)
    requires a.ps == Powerup || a.ps == Idle || a.ps == Dfu
    requires T.InWindow(a.list, t.now)
    ensures var due := a.list[0].due;
            && (due <= t.now ==> Loop(a, key, t).ps == if a.ps == Idle then Sleep else Idle)
            && (t.now < due && (a.ps != Idle || (t.kept == None && !t.active)) ==>
                  Loop(a, key, t).ps == a.ps && Loop(a, key, t).list == a.list)
  {
    T.ExpiredInWindow(t.now, a.list[0].due);
    ProcessOnlyTimer(a, key, t.now);
    assert T.FirstExpired(a.list, t.now) == if a.list[0].due <= t.now then 0 else 1;
  }

  // ---------------------------------------------------------------- the state timer over runs

  /** Its deadline, if it runs, lies ahead, by no more than the longest time it is ever set for. */
  predicate TimerAhead<K>(a: App<K>, now: nat) {
    forall i :: 0 <= i < |a.list| ==> now < a.list[i].due <= now + 8000
  }

  lemma HandlerTimer<K>(a: App<K>, st: State, e: Event, key: K, t: Turn)
    requires Steady(a, t) && OnlyStateTimer(a, key) && TimerAhead(a, t.now)
    ensures var a' := Handler(a, st, e, key, t).0; OnlyStateTimer(a', key) && TimerAhead(a', t.now)
  {
    ScheduleOnlyTimer(a, key, 1000, t.now);
    ScheduleOnlyTimer(a, key, 8000, t.now);
  }

  lemma KissmTimer<K>(a: App<K>, e: Event, key: K, t: Turn)
    requires Steady(a, t) && OnlyStateTimer(a, key) && TimerAhead(a, t.now)
    ensures var a' := Kissm(a, e, key, t); OnlyStateTimer(a', key) && TimerAhead(a', t.now)
  {
    HandlerTimer(a, a.ps, e, key, t);
    var (a1, ns) := Handler(a, a.ps, e, key, t);
    if ns.Some? {
      HandlerTimer(a1, a1.ps, Exit, key, t);
      HandlerTimer(Handler(a1, a1.ps, Exit, key, t).0, ns.value, Entry, key, t);
    }
  }

  /** What is left after the timers were looked at lies ahead. */
  lemma ProcessLeavesAhead<K>(a: App<K>, key: K, last: nat, now: nat)
    requires OnlyStateTimer(a, key) && TimerAhead(a, last) && last <= now <= last + 0x8000
    ensures T.InWindow(a.list, now)
    ensures var a' := a.(list := T.Process(a.list, now).0); OnlyStateTimer(a', key) && TimerAhead(a', now)
    ensures a.list != [] ==> (T.Process(a.list, now).1.Some? <==> a.list[0].due <= now)
  {
    ProcessOnlyTimer(a, key, now);
    if a.list != [] {
      T.ExpiredInWindow(now, a.list[0].due);
      assert T.FirstExpired(a.list, now) == if a.list[0].due <= now then 0 else 1;
    }
  }

  /** Turns at most 32768 ms apart keep it so: the 16-bit clock is never asked about a deadline outside its window. */
  lemma LoopKeepsTimerAhead<K>(a: App<K>, key: K, last: nat, t: Turn)
    requires Steady(a, t) && OnlyStateTimer(a, key) && TimerAhead(a, last) && last <= t.now <= last + 0x8000
    ensures T.InWindow(a.list, t.now)
    ensures OnlyStateTimer(Loop(a, key, t), key) && TimerAhead(Loop(a, key, t), t.now)
  {
    ProcessLeavesAhead(a, key, last, t.now);
    var (list, fired) := T.Process(a.list, t.now);
    if fired.Some? {
      KissmTimer(a.(list := list), Timeout, key, t);
    } else {
      KissmTimer(a.(list := list, sh := Executed(a.sh, t)), EventOf(t), key, t);
    }
  }

  /** Turns come at least every `d` ms. */
  predicate Paced(last: nat, d: nat, ts: seq<Turn>)
    decreases |ts|
  {
    ts == [] || (last <= ts[0].now <= last + d && Paced(ts[0].now, d, ts[1..]))
  }

  function LastTime(last: nat, ts: seq<Turn>): nat
    decreases |ts|
  {
    if ts == [] then last else LastTime(ts[0].now, ts[1..])
  }

  /** From power-up on, in every run: whenever the timers are looked at, their deadlines are in the window. */
  lemma {:induction false} TurnsKeepTimerAhead<K>(a: App<K>, key: K, last: nat, ts: seq<Turn>)
    requires OnlyStateTimer(a, key) && TimerAhead(a, last) && Allowed(a, key, ts) && Paced(last, 0x8000, ts)
    ensures OnlyStateTimer(Turns(a, key, ts), key) && TimerAhead(Turns(a, key, ts), LastTime(last, ts))
    decreases |ts|
  {
    if ts != [] {
      LoopKeepsTimerAhead(a, key, last, ts[0]);
      TurnsKeepTimerAhead(Loop(a, key, ts[0]), key, ts[0].now, ts[1..]);
    }
  }

  // ---------------------------------------------------------------- no state is stuck

  /** The first turn that leaves the state `a` is in: its time, and what it leaves behind. */
  function Leaves<K(==)>(a: App<K>, key: K, ts: seq<Turn>): Option<(nat, App<K>)>
    requires Allowed(a, key, ts)
    decreases |ts|
  {
    if ts == [] then None else
      var a' := Loop(a, key, ts[0]);
      if a'.ps != a.ps then Some((ts[0].now, a')) else Leaves(a', key, ts[1..])
  }

  /** Nothing keeps an idle node awake. */
  predicate Undisturbed(ts: seq<Turn>) {
    forall t :: t in ts ==> t.kept == None && !t.active
  }

  /**
   Powerup and dfu, whatever is said on the bus, and idle, when nothing is: the state is left in the first turn at or
   after its deadline and not before, so within one loop period of it, for idle or for sleep.
   */
  lemma {:induction false} TimedStateIsLeft<K>(a: App<K>, key: K, last: nat, d: nat, ts: seq<Turn>)
    requires Inv(a, key) && TimerAhead(a, last) && d <= 0x8000
    requires a.ps == Powerup || a.ps == Dfu || (a.ps == Idle && Undisturbed(ts))
    requires Allowed(a, key, ts) && Paced(last, d, ts)
    ensures match Leaves(a, key, ts)
            case None => LastTime(last, ts) < a.list[0].due
            case Some((when, a')) =>
              a.list[0].due <= when < a.list[0].due + d && a'.ps == if a.ps == Idle then Sleep else Idle
    decreases |ts|
  {
    if ts != [] {
      var t := ts[0];
      assert t in ts;
      LoopKeepsTimerAhead(a, key, last, t);
      TimedStatesEnd(a, key, t);
      if t.now < a.list[0].due {
        LoopKeepsInv(a, key, t);
        TimedStateIsLeft(Loop(a, key, t), key, t.now, d, ts[1..]);
      }
    }
  }

  /** A turn that enters a timed state sets its deadline. */
  lemma EntrySetsDeadline<K>(a: App<K>, key: K, t: Turn)
    requires Inv(a, key) && Steady(a, t) && TestFree(t)
    requires var ps := Loop(a, key, t).ps; ps != a.ps && (ps == Powerup || ps == Idle || ps == Dfu)
    ensures var a' := Loop(a, key, t);
            |a'.list| == 1 && a'.list[0].due == t.now + (if a'.ps == Dfu then 8000 else 1000)
  {
    ProcessOnlyTimer(a, key, t.now);
    var (list, fired) := T.Process(a.list, t.now);
    if fired.Some? {
      EntryDeadline(a.(list := list), Timeout, key, t);
    } else {
      EntryDeadline(a.(list := list, sh := Executed(a.sh, t)), EventOf(t), key, t);
    }
  }

  lemma EntryDeadline<K>(a: App<K>, e: Event, key: K, t: Turn)
    requires Steady(a, t) && OnlyStateTimer(a, key)
    requires var ps := Kissm(a, e, key, t).ps; ps != a.ps && (ps == Powerup || ps == Idle || ps == Dfu)
    ensures var a' := Kissm(a, e, key, t);
            |a'.list| == 1 && a'.list[0].due == t.now + (if a'.ps == Dfu then 8000 else 1000)
  {
    HandlerOnlyTimer(a, a.ps, e, key, t);
    var (a1, ns) := Handler(a, a.ps, e, key, t);
    HandlerOnlyTimer(a1, a1.ps, Exit, key, t);
    var a2 := Handler(a1, a1.ps, Exit, key, t).0;
    ScheduleOnlyTimer(a2, key, 1000, t.now);
    ScheduleOnlyTimer(a2, key, 8000, t.now);
  }

  lemma HandlerOnlyTimer<K>(a: App<K>, st: State, e: Event, key: K, t: Turn)
    requires Steady(a, t) && OnlyStateTimer(a, key)
    ensures OnlyStateTimer(Handler(a, st, e, key, t).0, key)
  {
    ScheduleOnlyTimer(a, key, 1000, t.now);
    ScheduleOnlyTimer(a, key, 8000, t.now);
  }

  /** From the turn that enters it, powerup ends within 1000 ms and one loop period, dfu within 8000 ms and one. */
  lemma PowerupAndDfuEnd<K>(a: App<K>, key: K, last: nat, d: nat, ts: seq<Turn>)
    requires Inv(a, key) && TimerAhead(a, last) && d <= 0x8000
    requires ts != [] && Allowed(a, key, ts) && Paced(last, d, ts)
    requires var ps := Loop(a, key, ts[0]).ps; ps != a.ps && (ps == Powerup || ps == Dfu)
    ensures var a' := Loop(a, key, ts[0]);
            var due := ts[0].now + (if a'.ps == Dfu then 8000 else 1000);
            match Leaves(a', key, ts[1..])
            case None => LastTime(last, ts) < due
            case Some((when, a'')) => due <= when < due + d && a''.ps == Idle
  {
    LoopKeepsTimerAhead(a, key, last, ts[0]);
    LoopKeepsInv(a, key, ts[0]);
    EntrySetsDeadline(a, key, ts[0]);
    TimedStateIsLeft(Loop(a, key, ts[0]), key, ts[0].now, d, ts[1..]);
  }

  lemma KissmEntersShunt<K>(a: App<K>, e: Event, key: K, t: Turn)
    requires Steady(a, t) && a.ps != Shunting
    ensures Kissm(a, e, key, t).ps == Shunting <==> a.ps == Idle && e == Cmd(Command.SHUNTON)
  {}

  /** The shunt state is entered exactly from idle, by a turn without timer event that was given a SHUNTON packet. */
  lemma ShuntStateEntered<K>(a: App<K>, key: K, t: Turn)
    requires Steady(a, t) && a.ps != Shunting
    ensures Loop(a, key, t).ps == Shunting <==>
            a.ps == Idle && T.Process(a.list, t.now).1 == None && t.kept == Some(Command.SHUNTON)
  {
    var (list, fired) := T.Process(a.list, t.now);
    if fired.Some? {
      KissmEntersShunt(a.(list := list), Timeout, key, t);
    } else {
      KissmEntersShunt(a.(list := list, sh := Executed(a.sh, t)), EventOf(t), key, t);
    }
  }

  /** However long it runs, a node that is never given a SHUNTON packet never turns its PWM on. */
  lemma {:induction false} NoCommandNoShunt<K>(a: App<K>, key: K, ts: seq<Turn>)
    requires Inv(a, key) && Allowed(a, key, ts)
    requires a.ps != Shunting && forall t :: t in ts ==> t.kept != Some(Command.SHUNTON)
    ensures Turns(a, key, ts).ps != Shunting && Turns(a, key, ts).sh.pwm == 0
    decreases |ts|
  {
    if ts != [] {
      LoopKeepsInv(a, key, ts[0]);
      ShuntStateEntered(a, key, ts[0]);
      NoCommandNoShunt(Loop(a, key, ts[0]), key, ts[1..]);
    }
  }

  // ---------------------------------------------------------------- the exact effect of TESTMODE

  /** A TESTMODE command is executed; its packet is returned if the acknowledgement went out. */
  predicate TestTurn(t: Turn) {
    t.test.Some? && !t.query && (t.kept == None || t.kept == Some(Command.TESTMODE))
  }

  /**
   TESTMODE drives the regulator in every state. The coupling survives the turn exactly unless the command
   turns the shunt on outside the shunt state, or turns it off inside it and is acknowledged.
   */
  lemma TestmodeCoupling<K>(a: App<K>, key: K, t: Turn)
    requires Inv(a, key) && Steady(a, t) && TestTurn(t)
    requires T.Process(a.list, t.now).1 == None
    ensures Coupled(Loop(a, key, t)) <==>
            && !(t.test.value.TestShunt? && a.ps != Shunting)
            && !(t.test.value == TestOff && a.ps == Shunting && t.kept.Some?)
  {
    ProcessOnlyTimer(a, key, t.now);
    var a1 := a.(sh := Executed(a.sh, t));
    var e := EventOf(t);
    if a.ps == Shunting {
      TestInShuntState(a1, e, key, t);
    } else {
      TestElsewhere(a1, e, key, t);
    }
  }

  /** In the shunt state the regulator's own status decides, unless a packet was passed on. */
  lemma TestInShuntState<K>(a: App<K>, e: Event, key: K, t: Turn)
    requires Steady(a, t) && a.ps == Shunting && (a.sh.status == S.Off ==> a.sh.pwm == 0)
    requires e == NoEvent || e == Cmd(Command.TESTMODE)
    ensures Coupled(Kissm(a, e, key, t)) <==> !(e.Cmd? && a.sh.status == S.Off)
  {
    RunShuntStops(a.sh, t);
  }

  /** Elsewhere nothing looks at the regulator. */
  lemma TestElsewhere<K>(a: App<K>, e: Event, key: K, t: Turn)
    requires Steady(a, t) && a.ps != Shunting && a.ps != Testmode
    requires e == NoEvent || e == Cmd(Command.TESTMODE)
    ensures Coupled(Kissm(a, e, key, t)) <==> a.sh.status == S.Off && a.sh.pwm == 0
  {
    KissmLeavesPwm(a, e, key, t);
  }

  lemma KissmLeavesPwm<K>(a: App<K>, e: Event, key: K, t: Turn)
    requires Steady(a, t) && a.ps != Shunting && a.ps != Testmode
    ensures Kissm(a, e, key, t).ps != Shunting ==> Kissm(a, e, key, t).sh == a.sh
  {
    var (a1, ns) := Handler(a, a.ps, e, key, t);
    assert a1.sh == a.sh;
  }

  /** Once on outside the shunt and test states, the PWM stays: no turn there looks at voltage or temperature. */
  lemma UnattendedPwmStays<K>(a: App<K>, key: K, t: Turn)
    requires Steady(a, t) && TestFree(t)
    requires a.ps != Shunting && a.ps != Testmode
    ensures Loop(a, key, t).ps != Shunting ==> Loop(a, key, t).sh.pwm == a.sh.pwm
  {
    var (list, fired) := T.Process(a.list, t.now);
    if fired.Some? {
      KissmLeavesPwm(a.(list := list), Timeout, key, t);
    } else {
      KissmLeavesPwm(a.(list := list, sh := Executed(a.sh, t)), EventOf(t), key, t);
    }
  }
}
