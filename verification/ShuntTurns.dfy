/** Shunt sessions inside the main loop (src/main.c:275-319): which turns regulate, and when the session ends. */
module ShuntTurns {
  import opened Bytes
  import opened AppStates
  import Command
  import S = Shunt
  import SR = ShuntRuns
  import T = Timers

  predicate Fires<K>(a: App<K>, t: Turn) {
    T.Process(a.list, t.now).1.Some?
  }

  /** The turn calls `shunt_run`: a timer event or none does, a packet does not. */
  predicate Regulates<K>(a: App<K>, t: Turn) {
    Fires(a, t) || t.kept == None
  }

  /** The turn executes a STATUS command. */
  predicate Asks<K>(a: App<K>, t: Turn) {
    !Fires(a, t) && t.query
  }

  predicate TurnsOff<K>(a: App<K>, t: Turn) {
    !Fires(a, t) && t.kept == Some(Command.SHUNTOFF)
  }

  predicate Sane(s: SR.Session, t: Turn) {
    t.c.Fit() && t.cellmv < 0x1_0000 && !S.DividesByZero(s.sh, t.c, t.cellmv, t.tempc)
  }

  /** The session at the time of the turn, after the STATUS command if there was one. */
  function Before<K>(s: SR.Session, a: App<K>, t: Turn): SR.Session {
    var s1 := s.(now := t.now);
    if Asks(a, t) then s1.(sh := S.StatusRead(s1.sh, t.now), lastQuery := t.now) else s1
  }

  /** The session after the turn, unless a SHUNTOFF ended it. */
  function After<K>(s: SR.Session, a: App<K>, t: Turn): SR.Session
    requires Sane(s, t)
  {
    if Regulates(a, t) then SR.Advance(Before(s, a, t), SR.Loop(t.c, t.cellmv, t.tempc)) else Before(s, a, t)
  }

  lemma {:induction false} TicksKeepInv(s: SR.Session, d: nat, n: nat)
    requires SR.Inv(s, d) && s.now + n <= s.lastLoop + d
    ensures SR.Inv(s.(now := s.now + n), d)
    decreases n
  {
    if n > 0 {
      TicksKeepInv(s, d, n - 1);
      SR.TickKeepsInv(s.(now := s.now + n - 1), d);
    }
  }

  lemma BeforeKeepsInv<K>(s: SR.Session, a: App<K>, t: Turn, d: nat)
    requires SR.Inv(s, d) && s.now <= t.now <= s.lastLoop + d
    ensures SR.Inv(Before(s, a, t), d)
  {
    TicksKeepInv(s, d, t.now - s.now);
    if Asks(a, t) {
      SR.StepKeepsInv(s.(now := t.now), d, SR.StatusQuery);
    }
  }

  /** A running session, seen from the state machine. */
  predicate Matches<K>(s: SR.Session, a: App<K>, d: nat) {
    a.ps == Shunting && a.sh.status != S.Off && s.sh == a.sh && SR.Inv(s, d)
  }

  lemma TurnRegulates<K>(a: App<K>, key: K, t: Turn, sh: S.Shunt)
    requires Steady(a, t) && TestFree(t) && a.ps == Shunting && a.sh.status != S.Off && !TurnsOff(a, t)
    requires sh == if Asks(a, t) then S.StatusRead(a.sh, t.now) else a.sh
    ensures var sh' := if Regulates(a, t) then S.Run(sh, t.c, t.now, t.cellmv, t.tempc) else sh;
            && (Loop(a, key, t).ps == Shunting <==> sh'.status != S.Off)
            && (Loop(a, key, t).ps == Shunting ==> Loop(a, key, t).sh == sh')
  {}

  /** The turn is the session's own step, and exactly when it ends the shunt state. */
  lemma SessionFollows<K>(s: SR.Session, a: App<K>, key: K, t: Turn, d: nat)
    requires Steady(a, t) && TestFree(t) && Matches(s, a, d) && s.now <= t.now <= s.lastLoop + d
    ensures var a' := Loop(a, key, t);
            && (a'.ps == Shunting ==> Matches(After(s, a, t), a', d) && !TurnsOff(a, t))
            && (a'.ps != Shunting <==>
                  || TurnsOff(a, t)
                  || (Regulates(a, t) && s.loopDue <= t.now && Before(s, a, t).lastQuery + S.IDLE_TIME <= t.now))
  {
    if TurnsOff(a, t) {
      SwitchedOff(a, key, t);
    } else {
      var s1 := Before(s, a, t);
      BeforeKeepsInv(s, a, t, d);
      TurnRegulates(a, key, t, s1.sh);
      if Regulates(a, t) {
        SR.LoopEffect(s1, d, t.c, t.cellmv, t.tempc);
        SR.LoopKeepsInv(s1, d, t.c, t.cellmv, t.tempc);
      }
    }
  }

  lemma SwitchedOff<K>(a: App<K>, key: K, t: Turn)
    requires Steady(a, t) && a.ps == Shunting && TurnsOff(a, t)
    ensures Loop(a, key, t).ps == Idle
  {}

  // ---------------------------------------------------------------- runs

  /** The node is in the shunt state after every turn. */
  predicate Stays<K(==)>(a: App<K>, key: K, ts: seq<Turn>)
    requires Allowed(a, key, ts)
    decreases |ts|
  {
    ts == [] || (Loop(a, key, ts[0]).ps == Shunting && Stays(Loop(a, key, ts[0]), key, ts[1..]))
  }

  /** Time never runs back, and no turn comes later than `d` ms after the last one that regulated. */
  predicate Regular<K(==)>(last: nat, lastLoop: nat, d: nat, a: App<K>, key: K, ts: seq<Turn>)
    requires Allowed(a, key, ts)
    decreases |ts|
  {
    ts == [] ||
    (last <= ts[0].now <= lastLoop + d &&
     Regular(ts[0].now, if Regulates(a, ts[0]) then ts[0].now else lastLoop, d, Loop(a, key, ts[0]), key, ts[1..]))
  }

  /** The time of the last STATUS command. */
  function LastAsked<K(==)>(last: nat, a: App<K>, key: K, ts: seq<Turn>): nat
    requires Allowed(a, key, ts)
    decreases |ts|
  {
    if ts == [] then last
    else LastAsked(if Asks(a, ts[0]) then ts[0].now else last, Loop(a, key, ts[0]), key, ts[1..])
  }

  /** As long as the node stays in the shunt state, some session accounts for it. */
  lemma {:induction false} FollowSession<K>(s: SR.Session, a: App<K>, key: K, d: nat, ts: seq<Turn>)
    returns (s': SR.Session)
    requires Matches(s, a, d) && Allowed(a, key, ts) && Stays(a, key, ts)
    requires Regular(s.now, s.lastLoop, d, a, key, ts)
    ensures Matches(s', Turns(a, key, ts), d)
    ensures s'.now == LastTime(s.now, ts) && s'.lastQuery == LastAsked(s.lastQuery, a, key, ts)
    decreases |ts|
  {
    if ts == [] {
      s' := s;
    } else {
      SessionFollows(s, a, key, ts[0], d);
      s' := FollowSession(After(s, a, ts[0]), Loop(a, key, ts[0]), key, d, ts[1..]);
    }
  }

  lemma EntryStarts<K>(a: App<K>, key: K, t: Turn)
    requires Steady(a, t) && a.ps != Shunting && Loop(a, key, t).ps == Shunting
    ensures Loop(a, key, t).sh == S.Start(t.c, t.now)
  {
    ShuntStateEntered(a, key, t);
  }

  /** From the turn that enters the shunt state on, until the settings change, the targets are the documented ones. */
  lemma EntryObeysLaws<K>(a: App<K>, key: K, t: Turn, mv: nat, temp: int)
    requires Steady(a, t) && a.ps != Shunting && Loop(a, key, t).ps == Shunting
    requires t.c.Sane() && mv < 0x1_0000 && 0 <= temp < 0x8000
    ensures var sh := Loop(a, key, t).sh;
            && sh.status != S.Off && sh.pwm == 0 && sh.CanDivide(t.c)
            && S.Target(sh, t.c, mv, temp).0 == S.Min(S.VoltageLaw(t.c, mv), S.TemperatureLaw(t.c, temp))
  {
    EntryStarts(a, key, t);
    S.StartedTargets(t.c, t.now, mv, temp);
  }

  /**
   Idle safety of the whole application: a node that entered the shunt state, with a regulating turn at least every
   `d <= 100` ms, is in it less than 30000 + 100 + d ms after the last STATUS command, or after its entry.
   */
  lemma UnaskedShuntEnds<K>(a: App<K>, key: K, d: nat, t: Turn, ts: seq<Turn>)
    requires Steady(a, t) && a.ps != Shunting && Loop(a, key, t).ps == Shunting && d <= 100
    requires var a' := Loop(a, key, t);
             Allowed(a', key, ts) && Regular(t.now, t.now, d, a', key, ts) && Stays(a', key, ts)
    ensures LastTime(t.now, ts) < LastAsked(t.now, Loop(a, key, t), key, ts) + 30000 + 100 + d
  {
    EntryStarts(a, key, t);
    var s := SR.Begin(t.c, t.now);
    assert SR.Inv(s, d);
    var s' := FollowSession(s, Loop(a, key, t), key, d, ts);
  }

  /** Every turn of the run comes less than 30000 ms after the last STATUS command, and none is a SHUNTOFF. */
  predicate AskedFor<K(==)>(last: nat, a: App<K>, key: K, ts: seq<Turn>)
    requires Allowed(a, key, ts)
    decreases |ts|
  {
    ts == [] ||
    (!TurnsOff(a, ts[0]) && (Asks(a, ts[0]) || ts[0].now < last + S.IDLE_TIME) &&
     AskedFor(if Asks(a, ts[0]) then ts[0].now else last, Loop(a, key, ts[0]), key, ts[1..]))
  }

  /** And a node asked for its status in time stays in the shunt state. */
  lemma {:induction false} AskedShuntStays<K>(s: SR.Session, a: App<K>, key: K, d: nat, ts: seq<Turn>)
    requires Matches(s, a, d) && Allowed(a, key, ts)
    requires Regular(s.now, s.lastLoop, d, a, key, ts) && AskedFor(s.lastQuery, a, key, ts)
    ensures Stays(a, key, ts)
    decreases |ts|
  {
    if ts != [] {
      SessionFollows(s, a, key, ts[0], d);
      AskedShuntStays(After(s, a, ts[0]), Loop(a, key, ts[0]), key, d, ts[1..]);
    }
  }
}
