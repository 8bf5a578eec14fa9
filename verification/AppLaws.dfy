/** What each state does with what it meets (doc/design.md): laws of single turns, and of idle over runs. */
module AppLaws {
  import opened Bytes
  import opened AppStates
  import Command
  import S = Shunt
  import T = Timers

  /** A running state timer with that deadline. */
  predicate TimerAt<K(==)>(a: App<K>, key: K, due: int) {
    a.list == [T.Entry(key, STATE_TMR, due, 0)]
  }

  predicate Fires<K>(a: App<K>, t: Turn) {
    T.Process(a.list, t.now).1.Some?
  }

  /** The first turn after power-up enters powerup, for a second. */
  lemma BootEntersPowerup<K>(key: K, t: Turn)
    requires Steady(Boot<K>(), t)
    ensures var a := Loop(Boot<K>(), key, t); a.ps == Powerup && TimerAt(a, key, t.now + 1000)
  {}

  /** Where idle goes on a packet. */
  function IdleNext(kept: Option<nat>): State {
    match kept
    case None => Idle
    case Some(cmd) =>
      if cmd == Command.DFU then Dfu
      else if cmd == Command.SHUNTON then Shunting
      else if cmd == Command.TESTMODE then Testmode
      else Idle
  }

  /** The turn shows a sign of life: a packet for the main loop, or activity on the bus. */
  predicate Disturbs(t: Turn) {
    t.kept.Some? || t.active
  }

  /** Idle without a timer event: three commands lead out of it, and any sign of life puts sleep off by a second. */
  lemma IdleTurn<K>(a: App<K>, key: K, t: Turn)
    requires Steady(a, t) && OnlyStateTimer(a, key) && a.ps == Idle && !Fires(a, t)
    ensures Loop(a, key, t).ps == IdleNext(t.kept)
    ensures Loop(a, key, t).ps == Idle ==>
              if Disturbs(t) then TimerAt(Loop(a, key, t), key, t.now + 1000) else Loop(a, key, t).list == a.list
  {
    ProcessOnlyTimer(a, key, t.now);
    ScheduleOnlyTimer(a, key, 1000, t.now);
  }

  /** Sleep ends on the next turn, whatever it brings, and idle then lasts a second at least. */
  lemma SleepTurn<K>(a: App<K>, key: K, t: Turn)
    requires Steady(a, t) && OnlyStateTimer(a, key) && a.ps == Sleep
    ensures Loop(a, key, t).ps == Idle && TimerAt(Loop(a, key, t), key, t.now + 1000)
  {
    ProcessOnlyTimer(a, key, t.now);
    var a1 := a.(list := T.Process(a.list, t.now).0);
    ScheduleOnlyTimer(a1, key, 1000, t.now);
  }

  /** The test state lasts until the test module ends it, which turns the regulator off. */
  lemma TestmodeTurn<K>(a: App<K>, key: K, t: Turn)
    requires Steady(a, t) && OnlyStateTimer(a, key) && a.ps == Testmode
    ensures var a' := Loop(a, key, t);
            if t.testEnds
            then a'.ps == Idle && a'.sh.pwm == 0 && a'.sh.status == S.Off && TimerAt(a', key, t.now + 1000)
            else a'.ps == Testmode && a'.sh == if Fires(a, t) then a.sh else Executed(a.sh, t)
  {
    ProcessOnlyTimer(a, key, t.now);
    var a1 := a.(list := T.Process(a.list, t.now).0);
    ScheduleOnlyTimer(a1, key, 1000, t.now);
  }

  /** What a TESTMODE does to the regulator before the state machine runs. */
  lemma TestmodeDrives(sh: S.Shunt, t: Turn)
    ensures t.test == None ==> Executed(sh, t).pwm == sh.pwm && Executed(sh, t).status == sh.status
    ensures t.test == Some(TestOther) ==> Executed(sh, t).pwm == sh.pwm && Executed(sh, t).status == sh.status
    ensures t.test == Some(TestOff) ==> Executed(sh, t).pwm == 0 && Executed(sh, t).status == S.Off
    ensures t.test.Some? && t.test.value.TestShunt? ==>
              && Executed(sh, t).pwm == t.test.value.pwm && Executed(sh, t).status != S.Off
              && (t.c.Fit() ==> Executed(sh, t).CanDivide(t.c))
  {
    if t.c.Fit() {
      S.StartedTargets(t.c, t.now, 0, 0);
    }
  }

  /** An acknowledged TESTMODE in idle leads to the test state, with the shunt at the level it asked for. */
  lemma TestmodeEntered<K>(a: App<K>, key: K, t: Turn)
    requires Steady(a, t) && OnlyStateTimer(a, key) && a.ps == Idle && !Fires(a, t)
    requires t.kept == Some(Command.TESTMODE) && t.test.Some?
    ensures Loop(a, key, t).ps == Testmode && Loop(a, key, t).sh == Executed(a.sh, t)
    ensures t.test.value.TestShunt? ==> Loop(a, key, t).sh.pwm == t.test.value.pwm
  {
    ProcessOnlyTimer(a, key, t.now);
    TestmodeDrives(a.sh, t);
  }

  /** SHUNTOFF ends the shunt state at once, with the regulator off. */
  lemma ShuntoffTurn<K>(a: App<K>, key: K, t: Turn)
    requires Steady(a, t) && OnlyStateTimer(a, key) && a.ps == Shunting && !Fires(a, t)
    requires t.kept == Some(Command.SHUNTOFF)
    ensures var a' := Loop(a, key, t);
            a'.ps == Idle && a'.sh.pwm == 0 && a'.sh.status == S.Off && TimerAt(a', key, t.now + 1000)
  {
    ProcessOnlyTimer(a, key, t.now);
    ScheduleOnlyTimer(a, key, 1000, t.now);
  }

  // ---------------------------------------------------------------- idle over runs

  /** The time of the last sign of life before the state is left; `calm` if there was none. */
  function LastSign<K(==)>(calm: nat, a: App<K>, key: K, ts: seq<Turn>): nat
    requires Allowed(a, key, ts)
    decreases |ts|
  {
    if ts == [] then calm else
      var a' := Loop(a, key, ts[0]);
      if a'.ps != a.ps then calm
      else LastSign(if Disturbs(ts[0]) then ts[0].now else calm, a', key, ts[1..])
  }

  /**
   In every run from idle: the node falls asleep in the first turn that comes 1000 ms or more after the last sign of
   life, so within 1000 ms and one loop period of it, and never earlier.
   */
  lemma {:induction false} IdleSleepsAfterASecond<K>(a: App<K>, key: K, last: nat, d: nat, calm: nat, ts: seq<Turn>)
    requires Inv(a, key) && a.ps == Idle && TimerAt(a, key, calm + 1000) && TimerAhead(a, last) && d <= 0x8000
    requires Allowed(a, key, ts) && Paced(last, d, ts)
    ensures match Leaves(a, key, ts)
            case None => LastTime(last, ts) < LastSign(calm, a, key, ts) + 1000
            case Some((when, a')) =>
              var due := LastSign(calm, a, key, ts) + 1000;
              if a'.ps == Sleep then due <= when < due + d
              else when < due && (a'.ps == Dfu || a'.ps == Shunting)
    decreases |ts|
  {
    if ts != [] {
      var t := ts[0];
      LoopKeepsTimerAhead(a, key, last, t);
      ProcessLeavesAhead(a, key, last, t.now);
      TimedStatesEnd(a, key, t);
      if t.now < calm + 1000 {
        IdleTurn(a, key, t);
        LoopKeepsInv(a, key, t);
        if Loop(a, key, t).ps == Idle {
          IdleSleepsAfterASecond(Loop(a, key, t), key, t.now, d, if Disturbs(t) then t.now else calm, ts[1..]);
        }
      }
    }
  }
}
