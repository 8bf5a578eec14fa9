/** The main loop, the state handlers and the state machine runner (src/main.c, src/kissm.c). */
module AppModule {
  import opened Bytes
  import opened AppStates
  import T = Timers
  import L = TimerList
  import S = Shunt
  import Command

  class Application {
    var ps: State                 // p_ps
    const tmr: L.TmrModule
    const stateTmr: L.Node        // state_tmr
    const shunt: S.ShuntModule

    ghost predicate Valid()
      reads this, tmr, tmr.chain, shunt
    {
      && tmr.Valid() && stateTmr != tmr.tmrlist
      && (forall n :: n in tmr.chain ==> n == tmr.tmrlist || n == stateTmr)
      && forall e :: e in tmr.list ==> e.id == STATE_TMR
    }

    ghost function View(): App<L.Node>
      reads this, tmr, shunt
    {
      App(ps, tmr.list, shunt.View())
    }

    constructor ()
      ensures Valid() && View() == Boot() && tmr.now == 0
    {
      ps := Initial;
      tmr := new L.TmrModule();
      stateTmr := new L.Node();
      shunt := new S.ShuntModule();
    }

    /** `tmr_schedule(&state_tmr, STATE_TMR, duration, false)` */
    method Schedule(duration: nat, ghost now: nat)
      requires Valid() && tmr.now == now
      modifies tmr`list, tmr`chain, tmr.tmrlist, stateTmr
      ensures Valid() && View() == ScheduleState(old(View()), stateTmr, duration, now)
    {
      OnlyTwoNodes(tmr.chain, tmr.tmrlist, stateTmr);
      ScheduleKeepsIds(tmr.list, stateTmr, duration, now);
      tmr.TmrSchedule(stateTmr, STATE_TMR, duration, false);
    }

    method StartShunt(t: Turn)
      requires Valid() && tmr.now == t.now
      modifies shunt
      ensures Valid() && View() == old(View()).(sh := S.Start(t.c, t.now))
    {
      StartWraps(t.c, t.now);
      shunt.ShuntStart(t.c, tmr.systick);
    }

    method RunShuntModule(t: Turn) returns (sts: S.Status)
      requires Valid() && tmr.now == t.now && Steady(View(), t)
      modifies shunt
      ensures Valid() && View() == old(View()).(sh := RunShunt(old(View()).sh, t)) && sts == shunt.status
    {
      if shunt.status == S.Off {
        shunt.ShuntStop();
        return S.Off;
      }
      RunWraps(shunt.View(), t);
      sts := shunt.ShuntRun(t.c, tmr.systick, t.cellmv, t.tempc);
    }

    method IdleHandler(e: Event, t: Turn) returns (ns: Option<State>)
      requires Valid() && tmr.now == t.now && Steady(View(), t)
      modifies tmr`list, tmr`chain, tmr.tmrlist, stateTmr
      ensures Valid() && (View(), ns) == Handler(old(View()), Idle, e, stateTmr, t)
    {
      ns := None;
      match e {
        case Entry =>
          Schedule(1000, t.now);
        case Exit =>
        case Cmd(cmd) =>
          Schedule(1000, t.now);
          if cmd == Command.DFU {
            ns := Some(Dfu);
          } else if cmd == Command.SHUNTON {
            ns := Some(Shunting);
          } else if cmd == Command.TESTMODE {
            ns := Some(Testmode);
          }
        case Timeout =>
          ns := Some(Sleep);
        case NoEvent =>
          if t.active {
            Schedule(1000, t.now);
          }
      }
    }

    /** Powerup and dfu: stay until the state timer fires. */
    method WaitHandler(st: State, duration: nat, e: Event, t: Turn) returns (ns: Option<State>)
      requires Valid() && tmr.now == t.now && Steady(View(), t)
      requires (st == Powerup && duration == 1000) || (st == Dfu && duration == 8000)
      modifies tmr`list, tmr`chain, tmr.tmrlist, stateTmr
      ensures Valid() && (View(), ns) == Handler(old(View()), st, e, stateTmr, t)
    {
      ns := None;
      match e {
        case Entry => Schedule(duration, t.now);
        case Timeout => ns := Some(Idle);
        case _ =>
      }
    }

    method ShuntHandler(e: Event, t: Turn) returns (ns: Option<State>)
      requires Valid() && tmr.now == t.now && Steady(View(), t)
      modifies shunt
      ensures Valid() && (View(), ns) == Handler(old(View()), Shunting, e, stateTmr, t)
    {
      ns := None;
      match e {
        case Entry =>
          StartShunt(t);
        case Cmd(cmd) =>
          if cmd == Command.SHUNTOFF {
            shunt.ShuntStop();
            ns := Some(Idle);
          }
        case Exit =>
        case _ =>
          var sts := RunShuntModule(t);
          if sts == S.Off {
            ns := Some(Idle);
          }
      }
    }

    method TestmodeHandler(e: Event, t: Turn) returns (ns: Option<State>)
      requires Valid() && tmr.now == t.now && Steady(View(), t)
      modifies shunt
      ensures Valid() && (View(), ns) == Handler(old(View()), Testmode, e, stateTmr, t)
    {
      ns := None;
      match e {
        case Entry =>
        case Exit =>
        case _ =>
          if t.testEnds {
            shunt.ShuntStop();
            ns := Some(Idle);
          }
      }
    }

    /** Dispatch to the handler of a state. */
    method Handle(st: State, e: Event, t: Turn) returns (ns: Option<State>)
      requires Valid() && tmr.now == t.now && Steady(View(), t)
      modifies tmr`list, tmr`chain, tmr.tmrlist, stateTmr, shunt
      ensures Valid() && (View(), ns) == Handler(old(View()), st, e, stateTmr, t)
    {
      match st {
        case Initial => ns := Some(Powerup);
        case Powerup => ns := WaitHandler(Powerup, 1000, e, t);
        case Idle => ns := IdleHandler(e, t);
        case Dfu => ns := WaitHandler(Dfu, 8000, e, t);
        case Shunting => ns := ShuntHandler(e, t);
        case Testmode => ns := TestmodeHandler(e, t);
        case Sleep => ns := if e == Entry || e == Exit then None else Some(Idle);
      }
    }

    /** Exit event for the old state, entry event for the new one. */
    method Transition(ns: State, t: Turn)
      requires Valid() && tmr.now == t.now && Steady(View(), t)
      modifies this`ps, tmr`list, tmr`chain, tmr.tmrlist, stateTmr, shunt
      ensures Valid() && View() == Moved(old(View()), ns, stateTmr, t)
    {
      var _ := Handle(ps, Exit, t);
      var _ := Handle(ns, Entry, t);
      ps := ns;
    }

    method KissmRun(e: Event, t: Turn)
      requires Valid() && tmr.now == t.now && Steady(View(), t)
      modifies this`ps, tmr`list, tmr`chain, tmr.tmrlist, stateTmr, shunt
      ensures Valid() && View() == Kissm(old(View()), e, stateTmr, t)
    {
      var ns := Handle(ps, e, t);
      if ns != None {
        if ns.value != ps {
          Transition(ns.value, t);
        }
      }
    }

    /** What the command processor's execution of a command does to the regulator. */
    method ExecuteOnShunt(t: Turn)
      requires Valid() && tmr.now == t.now
      modifies shunt
      ensures Valid() && View() == old(View()).(sh := Executed(old(View()).sh, t))
    {
      StartWraps(t.c, t.now);
      if t.query {
        var _ := shunt.ShuntGetStatus(tmr.systick);
      }
      match t.test {
        case None =>
        case Some(TestOff) => shunt.ShuntStop();
        case Some(TestShunt(pwm)) =>
          shunt.ShuntStart(t.c, tmr.systick);
          shunt.ShuntSet(pwm);
        case Some(TestOther) =>
      }
    }

    /** Look for an expired timer; if it is the state timer, that is a timeout event. */
    method TimerEvent(ghost now: nat) returns (expired: bool, e: Event)
      requires Valid() && tmr.now == now
      modifies tmr`list, tmr`chain, tmr.tmrlist, stateTmr
      ensures Valid() && View() == old(View()).(list := T.Process(old(View()).list, now).0)
      ensures expired == T.Process(old(View()).list, now).1.Some?
      ensures e == if expired then Timeout else NoEvent
    {
      forall n: L.Node ensures forall m :: m in L.Without(tmr.chain, n) ==> m in tmr.chain {
        WithoutSubset(tmr.chain, n);
      }
      ProcessKeepsIds(tmr.list, now);
      var timer := tmr.TmrProcess();
      expired, e := timer != null, NoEvent;
      if timer != null {
        if timer.id == STATE_TMR {
          e := Timeout;
        }
      }
    }

    /** The rest of the turn: without an expired timer commands are looked at; then the state machine runs. */
    method AfterTimer(expired: bool, timer: Event, t: Turn)
      requires Valid() && tmr.now == t.now && Steady(View(), t) && timer == if expired then Timeout else NoEvent
      modifies this`ps, tmr`list, tmr`chain, tmr.tmrlist, stateTmr, shunt
      ensures Valid() && View() == AfterTimers(old(View()), expired, stateTmr, t)
    {
      var e := timer;
      if !expired {
        ExecuteOnShunt(t);
        if t.kept.Some? {
          e := Cmd(t.kept.value);
        }
      }
      KissmRun(e, t);
    }
  }

  lemma OnlyTwoNodes(c: seq<L.Node>, head: L.Node, node: L.Node)
    requires c != [] && c[0] == head && head != node && forall n :: n in c ==> n == head || n == node
    ensures L.Without(c, node) != []
    ensures forall n :: n in [head, node] + L.Without(c, node)[1..] ==> n == head || n == node
  {
    WithoutSubset(c, node);
    assert c[0] != node;
    var rest := L.Without(c, node)[1..];
    forall n | n in [head, node] + rest ensures n == head || n == node {
      assert n in rest ==> n in L.Without(c, node);
    }
  }

  lemma ScheduleKeepsIds(list: seq<T.Entry<L.Node>>, node: L.Node, duration: nat, now: nat)
    requires forall e :: e in list ==> e.id == STATE_TMR
    ensures forall e :: e in T.Schedule(list, node, STATE_TMR, duration, false, now) ==> e.id == STATE_TMR
  {
    L.UnscheduleSubset(list, node);
  }

  lemma ProcessKeepsIds(list: seq<T.Entry<L.Node>>, now: nat)
    requires forall e :: e in list ==> e.id == STATE_TMR
    ensures forall e :: e in T.Process(list, now).0 ==> e.id == STATE_TMR
    ensures var k := T.FirstExpired(list, now); k < |list| ==> list[k].id == STATE_TMR
  {}

  lemma WithoutSubset(c: seq<L.Node>, node: L.Node)
    ensures forall n :: n in L.Without(c, node) ==> n in c
  {}

  lemma RunWraps(sh: S.Shunt, t: Turn)
    requires t.c.Fit() && t.cellmv < 0x1_0000 && !S.DividesByZero(sh, t.c, t.cellmv, t.tempc)
    ensures S.Run(sh, t.c, Wrap16(t.now), t.cellmv, t.tempc) == S.Run(sh, t.c, t.now, t.cellmv, t.tempc)
  {
    assert Wrap16(Wrap16(t.now)) == Wrap16(t.now);
  }

  /** Setting timeouts from the wrapped tick is setting them from true time. */
  lemma StartWraps(c: S.Settings, now: nat)
    ensures S.Start(c, Wrap16(now)) == S.Start(c, now)
    ensures forall sh :: S.StatusRead(sh, Wrap16(now)) == S.StatusRead(sh, now)
  {
    assert Wrap16(Wrap16(now) + 1) == Wrap16(now + 1);
    assert Wrap16(Wrap16(now) + S.IDLE_TIME) == Wrap16(now + S.IDLE_TIME);
  }
}
