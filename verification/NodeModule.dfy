/** The main loop of a node (src/main.c): timers, command processor and state machine, turn after turn. */
module NodeModule {
  import opened Bytes
  import opened Command
  import opened AppStates
  import opened NodeTurns
  import opened NodeRuns
  import opened CommandModule
  import AppModule
  import Config
  import Custody
  import T = Timers
  import L = TimerList

  class Node {
    const cmd: CmdModule
    const app: AppModule.Application

    ghost predicate Valid()
      reads this, cmd, cmd.pkt, cmd.pkt.rxbuf, cmd.sender, cmd.sender.txpkt, cmd.sender.ser
      reads app, app.tmr, app.tmr.chain, app.shunt
    {
      cmd.Valid() && app.Valid()
    }

    ghost function View(): NodeState<L.Node>
      requires Valid()
      reads this, cmd, cmd.pkt, cmd.pkt.rxbuf
      reads cmd.sender, cmd.sender.txpkt, cmd.sender.ser, cmd.sender.ser.txbuf
      reads app, app.tmr, app.tmr.chain, app.shunt, cmd.cfg.parms, cmd.cfg.eeprom
    {
      NodeState(app.tmr.now, cmd.sys, cmd.pktTimeout, cmd.cfg.View(), cmd.sender.ser.View(), app.View())
    }

    /** Everything a turn may change. */
    ghost function Parts(): set<object> {
      {cmd, cmd.pkt, cmd.pkt.rxbuf, cmd.cfg.parms, cmd.cfg.eeprom,
       cmd.sender.txpkt, cmd.sender.ser, cmd.sender.ser.txbuf,
       app, app.tmr, app.tmr.tmrlist, app.stateTmr, app.shunt}
    }

    constructor (stored: Config.Block)
      ensures Valid() && View() == PoweredUp<L.Node>(stored).(store := View().store) && View().store.ee == stored
    {
      cmd := new CmdModule(stored);
      app := new AppModule.Application();
    }

    /** Before the loop the configuration is loaded; on a new node, that gives the state `PoweredUp`. */
    method LoadConfiguration(beyond: seq<Byte>)
      requires Valid() && |beyond| == 256
      modifies cmd.cfg.parms
      ensures Valid() && View() == old(View()).(store := Config.PowerOn(old(View()).store.ee))
    {
      var _ := cmd.cfg.CfgLoad(beyond);
    }

    /** The command processor's share of a turn. */
    method RunCommands(i: Input, beyond: seq<Byte>) returns (handled: Option<Message>, kept: bool, reset: bool)
      requires Valid() && Ok(View()) && Readable(i) && !TimerFires(View()) && |beyond| == 256
      modifies cmd, cmd.pkt, cmd.pkt.rxbuf, cmd.cfg.parms, cmd.cfg.eeprom
      modifies cmd.sender.txpkt, cmd.sender.ser, cmd.sender.ser.txbuf
      ensures Valid() && handled == MessageOf(old(View()), i)
      ensures kept == ResultOf(old(View()), i).kept && reset == ResultOf(old(View()), i).reset
      ensures !reset ==> cmd.sys.pc == if kept then Custody.InLoop else Custody.Top
      ensures !reset ==> View() == Called(old(View()), i)
    {
      ghost var n := View();
      CommandsOf(n, i);
      var reply;
      kept, handled, reply, reset := cmd.CmdProcess(i.r, beyond, i.a, i.sending, app.tmr.systick);
      assert handled == MessageOf(n, i);
      assert Result(cmd.cfg.View(), cmd.sender.ser.View(), reply, kept, reset) == ResultOf(n, i);
    }

    /** The turn as the state machine sees it, after the command processor; `now` is the true time behind the tick. */
    method MakeTurn(now: nat, before: Config.Store, handled: Option<Message>, kept: bool, i: Input) returns (t: Turn)
      requires Valid() && now == app.tmr.now && (handled.Some? ==> handled.value.Fits())
      ensures t == TurnOf(now, View().sys.rx.Active() || View().port.Active() || i.rxcif,
                          before, View().store, handled, kept, i)
    {
      var parsing := cmd.pkt.IsActive();
      var sending := cmd.sender.ser.IsActive(i.rxcif);
      var after := Config.Store(cmd.cfg.parms[..], cmd.cfg.eeprom[..]);
      t := TurnOf(now, parsing || sending, before, after, handled, kept, i);
    }

    /** The state machine's share of a turn. */
    method RunMachine(expired: bool, timer: Event, t: Turn)
      requires Valid() && app.tmr.now == t.now && Steady(app.View(), t)
      requires timer == if expired then Timeout else NoEvent
      modifies app`ps, app.tmr`list, app.tmr`chain, app.tmr.tmrlist, app.stateTmr, app.shunt
      ensures Valid() && View() == old(View()).(app := AfterTimers(old(app.View()), expired, app.stateTmr, t))
    {
      app.AfterTimer(expired, timer, t);
    }

    /** The end of a packet that was kept. */
    method EndPacket(kept: bool, handover: seq<Byte>)
      requires Valid() && cmd.sys.pc == if kept then Custody.InLoop else Custody.Top
      modifies cmd.pkt, cmd.pkt.rxbuf, cmd`sys
      ensures Valid()
      ensures View() == old(View()).(sys := if kept then FreedAfter(old(cmd.sys), handover) else old(cmd.sys))
    {
      if kept {
        cmd.Free(handover);
      }
    }

    /** State machine, then the end of the packet it was given. */
    method RunStates(expired: bool, timer: Event, t: Turn, kept: bool, handover: seq<Byte>)
      requires Valid() && app.tmr.now == t.now && Steady(app.View(), t)
      requires timer == if expired then Timeout else NoEvent
      requires cmd.sys.pc == if kept then Custody.InLoop else Custody.Top
      modifies cmd.pkt, cmd.pkt.rxbuf, cmd`sys
      modifies app`ps, app.tmr`list, app.tmr`chain, app.tmr.tmrlist, app.stateTmr, app.shunt
      ensures Valid()
      ensures View() == Finished(old(View()), expired, app.stateTmr, t, kept, handover)
    {
      RunMachine(expired, timer, t);
      EndPacket(kept, handover);
    }

    /** The turn from the state machine on; `before` is the configuration at the top of the loop. */
    method FinishTurn(now: nat, before: Config.Store, handled: Option<Message>, kept: bool, i: Input,
                      ghost t: Turn)
      requires Valid() && Readable(i) && now == app.tmr.now && (handled.Some? ==> handled.value.Fits())
      requires t == TurnOf(now, View().sys.rx.Active() || View().port.Active() || i.rxcif,
                           before, View().store, handled, kept, i)
      requires Steady(app.View(), t)
      requires cmd.sys.pc == if kept then Custody.InLoop else Custody.Top
      modifies cmd.pkt, cmd.pkt.rxbuf, cmd`sys
      modifies app`ps, app.tmr`list, app.tmr`chain, app.tmr.tmrlist, app.stateTmr, app.shunt
      ensures Valid() && View() == Finished(old(View()), false, app.stateTmr, t, kept, i.a.handover)
    {
      var turn := MakeTurn(now, before, handled, kept, i);
      RunStates(false, NoEvent, turn, kept, i.a.handover);
    }

    /** A turn in which no timer expired. */
    method CommandTurn(i: Input, now: nat, beyond: seq<Byte>) returns (reset: bool)
      requires Valid() && Ok(View()) && Fine(View(), i) && now == app.tmr.now && |beyond| == 256
      requires !TimerFires(View())
      modifies cmd, cmd.pkt, cmd.pkt.rxbuf, cmd.cfg.parms, cmd.cfg.eeprom
      modifies cmd.sender.txpkt, cmd.sender.ser, cmd.sender.ser.txbuf
      modifies app`ps, app.tmr`list, app.tmr`chain, app.tmr.tmrlist, app.stateTmr, app.shunt
      ensures Valid() && reset == ResultOf(old(View()), i).reset
      ensures !reset ==> View() == TurnStep(old(View()), app.stateTmr, i)
    {
      ghost var n := View();
      TurnStepInParts(n, app.stateTmr, i);
      TurnForIs(n, i);
      var before := Config.Store(cmd.cfg.parms[..], cmd.cfg.eeprom[..]);
      var handled, kept;
      handled, kept, reset := RunCommands(i, beyond);
      if !reset {
        FinishTurn(now, before, handled, kept, i, TurnFor(n, i));
      }
    }

    /** A turn whose timer event has been taken from the list; `n` is the node at the top of the loop. */
    method TimeoutTurn(ghost n: NodeState<L.Node>, timer: Event, i: Input, now: nat)
      requires Valid() && Ok(n) && Fine(n, i) && TimerFires(n) && now == n.now && timer == Timeout
      requires View() == n.(app := n.app.(list := T.Process(n.app.list, n.now).0))
      modifies cmd.pkt, cmd.pkt.rxbuf, cmd`sys
      modifies app`ps, app.tmr`list, app.tmr`chain, app.tmr.tmrlist, app.stateTmr, app.shunt
      ensures Valid() && View() == TurnStep(n, app.stateTmr, i)
    {
      TurnStepInParts(n, app.stateTmr, i);
      var before := Config.Store(cmd.cfg.parms[..], cmd.cfg.eeprom[..]);
      var t := MakeTurn(now, before, None, false, i);
      RunStates(true, timer, t, false, []);
    }

    /** Has the state timer expired? */
    method TakeTimer(ghost now: nat) returns (expired: bool, e: Event)
      requires Valid() && now == app.tmr.now
      modifies app.tmr`list, app.tmr`chain, app.tmr.tmrlist, app.stateTmr
      ensures Valid() && expired == TimerFires(old(View())) && e == if expired then Timeout else NoEvent
      ensures View() == old(View()).(app := old(app.View()).(list := T.Process(old(app.View()).list, now).0))
    {
      expired, e := app.TimerEvent(now);
    }

    /**
     One turn of the main loop. `now` is the true time, which the code knows only by its lowest 16 bits. `reset` says
     that the boot loader took over.
     */
    method MainTurn(i: Input, now: nat, beyond: seq<Byte>) returns (reset: bool)
      requires Valid() && Ok(View()) && Fine(View(), i) && now == app.tmr.now && |beyond| == 256
      modifies cmd, cmd.pkt, cmd.pkt.rxbuf, cmd.cfg.parms, cmd.cfg.eeprom
      modifies cmd.sender.txpkt, cmd.sender.ser, cmd.sender.ser.txbuf
      modifies app`ps, app.tmr`list, app.tmr`chain, app.tmr.tmrlist, app.stateTmr, app.shunt
      ensures Valid() && reset == ResultOf(old(View()), i).reset
      ensures !reset ==> View() == TurnStep(old(View()), app.stateTmr, i)
    {
      ghost var n := View();
      TurnStepInParts(n, app.stateTmr, i);
      var expired, e := TakeTimer(now);
      if expired {
        reset := false;
        TimeoutTurn(n, e, i, now);
      } else {
        assert View() == n;
        reset := CommandTurn(i, now, beyond);
      }
    }

    method WaitTicks(ticks: nat)
      requires Valid()
      modifies app.tmr`systick, app.tmr`now
      ensures Valid() && View() == old(View()).(now := old(View()).now + ticks)
    {
      ghost var n := View();
      for k := 0 to ticks
        invariant Valid() && View() == n.(now := n.now + k)
      {
        app.tmr.TickIsr();
      }
    }

    /** Ticks and transmit interrupts between two turns. */
    method Wait(i: Input)
      requires Valid()
      modifies app.tmr`systick, app.tmr`now, cmd.sender.ser
      ensures Valid() && View() == Between(old(View()), i)
    {
      WaitTicks(i.ticks);
      cmd.sender.ser.Interrupts(i.irqs);
    }

    /** From one top of the main loop to the next. */
    method Advance(i: Input, now: nat, beyond: seq<Byte>) returns (reset: bool)
      requires Valid() && Ok(View()) && Fine(Between(View(), i), i) && now == app.tmr.now + i.ticks && |beyond| == 256
      modifies Parts()
      ensures Valid() && reset == Reboots(old(View()), i)
      ensures !reset ==> View() == Step(old(View()), app.stateTmr, i)
    {
      Wait(i);
      reset := MainTurn(i, now, beyond);
    }

    /** Turn `k` of a run that leads to `last`. */
    method NextTurn(i: Input, now: nat, beyond: seq<Byte>,
                    ghost run: seq<Input>, ghost k: nat, ghost last: NodeState<L.Node>)
      requires Valid() && k < |run| && i == run[k] && OnTrack(View(), app.stateTmr, run, k, last)
      requires now == app.tmr.now + i.ticks && |beyond| == 256
      modifies Parts()
      ensures Valid() && OnTrack(View(), app.stateTmr, run, k + 1, last) && now == app.tmr.now
    {
      OnTrackNext(View(), app.stateTmr, run, k, last);
      var _ := Advance(i, now, beyond);
    }

    /** The loop itself, for as many turns as there are inputs: it runs through the states of `NodeRun`. */
    method RunLoop(run: seq<Input>, start: nat, beyond: seq<Byte>)
      requires Valid() && Ok(View()) && Goes(View(), app.stateTmr, run) && start == app.tmr.now && |beyond| == 256
      modifies Parts()
      ensures Valid() && View() == NodeRun(old(View()), app.stateTmr, run)
    {
      ghost var last := NodeRun(View(), app.stateTmr, run);
      TrackStarts(View(), app.stateTmr, run);
      var now := start;
      for k := 0 to |run|
        invariant Valid() && now == app.tmr.now
        invariant OnTrack(View(), app.stateTmr, run, k, last)
      {
        now := now + run[k].ticks;
        NextTurn(run[k], now, beyond, run, k, last);
      }
      TrackEnds(View(), app.stateTmr, run, last);
    }
  }
}
