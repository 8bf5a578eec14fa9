/** Runs of a whole node: what holds at every top of its main loop. */
module NodeRuns {
  import opened Bytes
  import opened Packet
  import opened Command
  import opened AppStates
  import opened NodeTurns
  import Config
  import CommandModule
  import Custody
  import Serial
  import ShuntTurns
  import P = PacketTimeout
  import S = Shunt
  import T = Timers

  // ---------------------------------------------------------------- runs

  lemma StepIsOk<K>(n: NodeState<K>, key: K, i: Input)
    requires Ok(n) && Fine(Between(n, i), i)
    ensures Ok(Step(n, key, i))
  {
    var m := Between(n, i);
    if !TimerFires(m) {
      CommandModule.CallEnds(m.sys, m.timeout, i.a, ResultOf(m, i).kept, Wrap16(m.now));
    }
  }

  /** A run in which every turn means something, and the boot loader is never entered. */
  predicate Goes<K(==)>(n: NodeState<K>, key: K, run: seq<Input>)
    requires Ok(n)
    decreases |run|
  {
    run == [] ||
    (Fine(Between(n, run[0]), run[0]) && !Reboots(n, run[0]) &&
     (StepIsOk(n, key, run[0]); Goes(Step(n, key, run[0]), key, run[1..])))
  }

  function NodeRun<K(==)>(n: NodeState<K>, key: K, run: seq<Input>): (n': NodeState<K>)
    requires Ok(n) && Goes(n, key, run)
    ensures Ok(n')
    decreases |run|
  {
    if run == [] then n else
      StepIsOk(n, key, run[0]);
      NodeRun(Step(n, key, run[0]), key, run[1..])
  }

  /** After `k` turns the node is in state `n`, and the rest of the run leads to `last`. */
  predicate OnTrack<K(==)>(n: NodeState<K>, key: K, run: seq<Input>, k: nat, last: NodeState<K>) {
    k <= |run| && Ok(n) && Goes(n, key, run[k..]) && NodeRun(n, key, run[k..]) == last
  }

  lemma OnTrackNext<K>(n: NodeState<K>, key: K, run: seq<Input>, k: nat, last: NodeState<K>)
    requires k < |run| && OnTrack(n, key, run, k, last)
    ensures Ok(n) && Fine(Between(n, run[k]), run[k]) && !Reboots(n, run[k])
    ensures OnTrack(Step(n, key, run[k]), key, run, k + 1, last)
  {
    assert run[k..][0] == run[k] && run[k..][1..] == run[k + 1..];
    StepIsOk(n, key, run[k]);
  }

  lemma TrackStarts<K>(n: NodeState<K>, key: K, run: seq<Input>)
    requires Ok(n) && Goes(n, key, run)
    ensures OnTrack(n, key, run, 0, NodeRun(n, key, run))
  {
    assert run[0..] == run;
  }

  lemma TrackEnds<K>(n: NodeState<K>, key: K, run: seq<Input>, last: NodeState<K>)
    requires OnTrack(n, key, run, |run|, last)
    ensures n == last
  {}

  /** A turn as events of the custody machine with a clock. */
  function TurnEvents<K>(n: NodeState<K>, i: Input): (es: seq<P.Event>)
    requires Ok(n) && Readable(i)
    ensures P.AllProper(es)
  {
    if TimerFires(n) then []
    else CommandModule.CallEvents(i.a, MessageOf(n, i).Some?, ResultOf(n, i).kept)
  }

  /** The machine and the node agree on buffer, packet timeout and time. */
  predicate Follows<K>(z: P.Timed, n: NodeState<K>) {
    P.Sound(z) && z.sys == n.sys && z.timeout == n.timeout && z.now == n.now
  }

  lemma TurnIsPlay<K>(n: NodeState<K>, key: K, i: Input, z: P.Timed)
    requires Ok(n) && Fine(n, i) && Follows(z, n)
    ensures Follows(P.Play(z, TurnEvents(n, i)), TurnStep(n, key, i))
  {
    if !TimerFires(n) {
      CommandsOf(n, i);
      CommandModule.CallIsPlay(z, i.a, MessageOf(n, i).Some?, ResultOf(n, i).kept);
    }
  }

  /** So a run of the node is a run of that machine, and what is proved about the packet timeout holds of nodes. */
  lemma StepIsPlay<K>(n: NodeState<K>, key: K, i: Input, z: P.Timed)
    requires Ok(n) && Fine(Between(n, i), i) && Follows(z, n)
    ensures P.AllProper(P.Ticks(i.ticks) + TurnEvents(Between(n, i), i))
    ensures Follows(P.Play(z, P.Ticks(i.ticks) + TurnEvents(Between(n, i), i)), Step(n, key, i))
  {
    P.PlayTicks(z, i.ticks);
    TurnIsPlay(Between(n, i), key, i, P.Play(z, P.Ticks(i.ticks)));
    P.PlayConcat(z, P.Ticks(i.ticks), TurnEvents(Between(n, i), i));
  }

  /** No turn of the run handles such a command for this node, whatever its address is at the time. */
  predicate NeverTold<K(==)>(n: NodeState<K>, key: K, run: seq<Input>, cmd: nat)
    requires Ok(n) && Goes(n, key, run)
    decreases |run|
  {
    run == [] ||
    (!Told(Between(n, run[0]), run[0], cmd) &&
     (StepIsOk(n, key, run[0]); NeverTold(Step(n, key, run[0]), key, run[1..], cmd)))
  }

  // ---------------------------------------------------------------- no division by zero

  /** A running regulator can divide whatever the settings become. */
  predicate Ranges(sh: S.Shunt) {
    sh.status != S.Off ==> sh.vrange != 0 && sh.trange != 0
  }

  lemma RunKeepsRanges(sh: S.Shunt, t: Turn)
    requires Ranges(sh) && t.c.Fit() && t.cellmv < 0x1_0000
    ensures Ranges(RunShunt(sh, t))
  {
    if sh.status != S.Off {
      assert S.Run(sh, t.c, t.now, t.cellmv, t.tempc).vrange == sh.vrange;
      assert S.Run(sh, t.c, t.now, t.cellmv, t.tempc).trange == sh.trange;
    }
  }

  lemma HandlerKeepsRanges<K>(a: App<K>, st: State, e: Event, key: K, t: Turn)
    requires Steady(a, t) && Ranges(a.sh) && (st == Shunting && e == Entry ==> S.Apart(t.c))
    ensures Ranges(Handler(a, st, e, key, t).0.sh)
  {
    if st == Shunting {
      RunKeepsRanges(a.sh, t);
    }
  }

  lemma KissmKeepsRanges<K>(a: App<K>, e: Event, key: K, t: Turn)
    requires Steady(a, t) && Ranges(a.sh) && e != Entry
    requires a.ps == Idle && e == Cmd(Command.SHUNTON) ==> S.Apart(t.c)
    ensures Ranges(Kissm(a, e, key, t).sh)
  {
    var (a1, ns) := Handler(a, a.ps, e, key, t);
    HandlerKeepsRanges(a, a.ps, e, key, t);
    if ns.Some? {
      HandlerKeepsRanges(a1, a1.ps, Exit, key, t);
      HandlerKeepsRanges(Handler(a1, a1.ps, Exit, key, t).0, ns.value, Entry, key, t);
    }
  }

  /** The turn starts the regulator, which caches ranges: the shunt state is entered, or a TESTMODE turns it on. */
  predicate Starts<K>(a: App<K>, t: Turn) {
    && T.Process(a.list, t.now).1 == None
    && ((a.ps == Idle && t.kept == Some(Command.SHUNTON)) || (t.test.Some? && t.test.value.TestShunt?))
  }

  lemma LoopKeepsRanges<K>(a: App<K>, key: K, t: Turn)
    requires Steady(a, t) && Ranges(a.sh) && (Starts(a, t) ==> S.Apart(t.c))
    ensures Ranges(Loop(a, key, t).sh)
  {
    var (list, fired) := T.Process(a.list, t.now);
    if fired.Some? {
      KissmKeepsRanges(a.(list := list), Timeout, key, t);
    } else {
      KissmKeepsRanges(a.(list := list, sh := Executed(a.sh, t)), EventOf(t), key, t);
    }
  }

  lemma RangesAreFine<K>(n: NodeState<K>, i: Input)
    requires Ok(n) && Readable(i) && Ranges(n.app.sh)
    ensures Fine(n, i)
  {}

  /** A run in which no session starts with equal limits; in between, the limits may become anything. */
  predicate StartsApart<K(==)>(n: NodeState<K>, key: K, run: seq<Input>)
    requires Ok(n) && Ranges(n.app.sh)
    decreases |run|
  {
    run == [] ||
    var m := Between(n, run[0]);
    (Readable(run[0]) && !Reboots(n, run[0]) &&
     (Starts(m.app, TurnFor(m, run[0])) ==> S.Apart(TurnFor(m, run[0]).c)) &&
     (RangesAreFine(m, run[0]);
      StepIsOk(n, key, run[0]);
      LoopKeepsRanges(m.app, key, TurnFor(m, run[0]));
      StartsApart(Step(n, key, run[0]), key, run[1..])))
  }

  /** Then no turn ever divides by zero, whatever SETPARM does during the sessions. */
  lemma {:induction false} StartsApartGoes<K>(n: NodeState<K>, key: K, run: seq<Input>)
    requires Ok(n) && Ranges(n.app.sh) && StartsApart(n, key, run)
    ensures Goes(n, key, run)
    decreases |run|
  {
    if run != [] {
      var m := Between(n, run[0]);
      RangesAreFine(m, run[0]);
      StepIsOk(n, key, run[0]);
      LoopKeepsRanges(m.app, key, TurnFor(m, run[0]));
      StartsApartGoes(Step(n, key, run[0]), key, run[1..]);
    }
  }

  // ---------------------------------------------------------------- safety

  /** The configuration is what a power cycle brings back, and the transmitter forgets nothing. */
  predicate Kept<K>(n: NodeState<K>) {
    Config.WriteThrough(n.store) && n.port.Ok()
  }

  lemma StepKeeps<K>(n: NodeState<K>, key: K, i: Input)
    requires Ok(n) && Fine(Between(n, i), i) && Kept(n)
    ensures Kept(Step(n, key, i))
  {
    Serial.ServeAllKeeps(n.port, i.irqs);
    var m := MessageOf(Between(n, i), i);
    if m.Some? {
      DispatchWritesThrough(n.store, m.value, i.r);
      var reply := Dispatch(n.store, m.value, i.r).1;
      if reply.Some? {
        ReplyFits(n.store, m.value, i.r);
        Serial.WriteTakesPrefix(Between(n, i).port, Frame(reply.value), i.sending);
      }
    }
  }

  lemma {:induction false} RunKeeps<K>(n: NodeState<K>, key: K, run: seq<Input>)
    requires Ok(n) && Goes(n, key, run) && Kept(n)
    ensures Kept(NodeRun(n, key, run))
    decreases |run|
  {
    if run != [] {
      StepIsOk(n, key, run[0]);
      StepKeeps(n, key, run[0]);
      RunKeeps(Step(n, key, run[0]), key, run[1..]);
    }
  }

  lemma {:induction false} UntestedRunIsCoupled<K>(n: NodeState<K>, key: K, run: seq<Input>)
    requires Ok(n) && Goes(n, key, run) && NeverTold(n, key, run, TESTMODE) && AppStates.Inv(n.app, key)
    ensures AppStates.Inv(NodeRun(n, key, run).app, key)
    decreases |run|
  {
    if run != [] {
      var m := Between(n, run[0]);
      OwnTestmodeOnly(m, run[0]);
      LoopKeepsInv(m.app, key, TurnFor(m, run[0]));
      StepIsOk(n, key, run[0]);
      UntestedRunIsCoupled(Step(n, key, run[0]), key, run[1..]);
    }
  }

  /** A node at the first top of its main loop, with whatever its EEPROM held. */
  function PoweredUp<K>(ee: Config.Block): (n: NodeState<K>)
    ensures Ok(n) && Kept(n)
  {
    NodeState(0, Custody.START, 0, Config.PowerOn(ee), Serial.Port([], [], false, false, true, true), Boot())
  }

  /**
   Every run of a whole node from power-up, with interrupts and bytes anywhere: at each top of the main loop the
   buffer has one owner and every packet handed out has been released once; a power cycle would change no parameter;
   nothing accepted for sending is forgotten; and unless a TESTMODE was for it, state and regulator are coupled, the
   PWM is off outside the shunt state, and no timed state is without its timer.
   */
  lemma NodeIsSafe<K>(ee: Config.Block, key: K, run: seq<Input>)
    requires Goes(PoweredUp(ee), key, run)
    ensures var n := NodeRun(PoweredUp(ee), key, run);
            && Custody.OneOwner(n.sys) && n.sys.pc == Custody.Top && |n.sys.delivered| == n.sys.released
            && Config.Parms(Config.PowerOn(n.store.ee).ram) == Config.Parms(n.store.ram)
            && n.port.Ok()
            && (NeverTold(PoweredUp(ee), key, run, TESTMODE) ==> Coupled(n.app) && TimerRuns(n.app))
  {
    var n := PoweredUp<K>(ee);
    RunKeeps(n, key, run);
    if NeverTold(n, key, run, TESTMODE) {
      UntestedRunIsCoupled(n, key, run);
    }
  }

  // ---------------------------------------------------------------- a node nobody commands

  /** A node whose regulator does not run, and whose state machine is in order. */
  predicate Unlit<K(==)>(n: NodeState<K>, key: K) {
    Ok(n) && AppStates.Inv(n.app, key) && n.app.ps != Shunting
  }

  /** The turn is no SHUNTON, TESTMODE or DFU for this node. */
  predicate Unbidden<K>(n: NodeState<K>, i: Input)
    requires Ok(n)
  {
    !Told(n, i, SHUNTON) && !Told(n, i, TESTMODE) && !Told(n, i, DFU)
  }

  lemma UnbiddenStaysUnlit<K>(n: NodeState<K>, key: K, i: Input)
    requires Unlit(n, key) && Readable(i) && Unbidden(Between(n, i), i)
    ensures Fine(Between(n, i), i) && !Reboots(n, i) && Unlit(Step(n, key, i), key)
  {
    var m := Between(n, i);
    OwnTestmodeOnly(m, i);
    LoopKeepsInv(m.app, key, TurnFor(m, i));
    ShuntNeedsAcknowledgedCommand(m, key, i);
    StepIsOk(n, key, i);
  }

  /** No turn of the run handles one of these for this node, whatever its address is at the time. */
  predicate Uncommanded<K(==)>(n: NodeState<K>, key: K, run: seq<Input>)
    requires Unlit(n, key)
    decreases |run|
  {
    run == [] ||
    (Readable(run[0]) && Unbidden(Between(n, run[0]), run[0]) &&
     (UnbiddenStaysUnlit(n, key, run[0]); Uncommanded(Step(n, key, run[0]), key, run[1..])))
  }

  /**
   However long a node runs, whatever else is said on the bus and however its own address and limits change: unless a
   SHUNTON or TESTMODE carries the address the node has at that moment, its PWM is never on. Nothing is assumed of
   the limits: a regulator that never starts never divides.
   */
  lemma {:induction false} UncommandedNodeStaysOff<K>(n: NodeState<K>, key: K, run: seq<Input>)
    requires Unlit(n, key) && Uncommanded(n, key, run)
    ensures Goes(n, key, run)
    ensures var a := NodeRun(n, key, run).app;
            a.ps != Shunting && a.sh.pwm == 0 && a.sh.status == S.Off && TimerRuns(a)
    decreases |run|
  {
    if run != [] {
      UnbiddenStaysUnlit(n, key, run[0]);
      UncommandedNodeStaysOff(Step(n, key, run[0]), key, run[1..]);
    }
  }

  // ---------------------------------------------------------------- the application inside the node

  /** The turns as the state machine sees them. */
  function TurnsOf<K(==)>(n: NodeState<K>, key: K, run: seq<Input>): (ts: seq<Turn>)
    requires Ok(n) && Goes(n, key, run)
    ensures |ts| == |run|
    decreases |run|
  {
    if run == [] then [] else
      StepIsOk(n, key, run[0]);
      [TurnFor(Between(n, run[0]), run[0])] + TurnsOf(Step(n, key, run[0]), key, run[1..])
  }

  /** A run of the node is a run of its application, so what is proved about applications holds of nodes. */
  lemma {:induction false} NodeRunIsTurns<K>(n: NodeState<K>, key: K, run: seq<Input>)
    requires Ok(n) && Goes(n, key, run) && NeverTold(n, key, run, TESTMODE)
    ensures var ts := TurnsOf(n, key, run);
            && Allowed(n.app, key, ts) && NodeRun(n, key, run).app == Turns(n.app, key, ts)
            && NodeRun(n, key, run).now == LastTime(n.now, ts)
    decreases |run|
  {
    if run != [] {
      var m := Between(n, run[0]);
      OwnTestmodeOnly(m, run[0]);
      TurnIsSteady(m, run[0]);
      StepIsOk(n, key, run[0]);
      NodeRunIsTurns(Step(n, key, run[0]), key, run[1..]);
      assert TurnsOf(n, key, run)[1..] == TurnsOf(Step(n, key, run[0]), key, run[1..]);
    }
  }

  lemma {:induction false} TurnsArePaced<K>(n: NodeState<K>, key: K, run: seq<Input>, d: nat)
    requires Ok(n) && Goes(n, key, run) && forall i :: i in run ==> i.ticks <= d
    ensures Paced(n.now, d, TurnsOf(n, key, run))
    decreases |run|
  {
    if run != [] {
      assert run[0] in run;
      StepIsOk(n, key, run[0]);
      TurnsArePaced(Step(n, key, run[0]), key, run[1..], d);
      assert TurnsOf(n, key, run)[1..] == TurnsOf(Step(n, key, run[0]), key, run[1..]);
    }
  }

  /** In every run of a node whose turns are at most 32768 ms apart, the state timer's deadline stays in the window. */
  lemma NodeTimerStaysAhead<K>(n: NodeState<K>, key: K, run: seq<Input>)
    requires Ok(n) && Goes(n, key, run) && NeverTold(n, key, run, TESTMODE)
    requires AppStates.Inv(n.app, key) && TimerAhead(n.app, n.now) && forall i :: i in run ==> i.ticks <= 0x8000
    ensures TimerAhead(NodeRun(n, key, run).app, NodeRun(n, key, run).now)
  {
    NodeRunIsTurns(n, key, run);
    TurnsArePaced(n, key, run, 0x8000);
    TurnsKeepTimerAhead(n.app, key, n.now, TurnsOf(n, key, run));
  }

  /** A node never stays in powerup or dfu past the deadline and one loop period. */
  lemma NodeLeavesTimedState<K>(n: NodeState<K>, key: K, run: seq<Input>, d: nat)
    requires Ok(n) && Goes(n, key, run) && NeverTold(n, key, run, TESTMODE)
    requires AppStates.Inv(n.app, key) && TimerAhead(n.app, n.now)
    requires n.app.ps == Powerup || n.app.ps == Dfu
    requires d <= 0x8000 && forall i :: i in run ==> i.ticks <= d
    ensures Allowed(n.app, key, TurnsOf(n, key, run))
    ensures match Leaves(n.app, key, TurnsOf(n, key, run))
            case None => NodeRun(n, key, run).now < n.app.list[0].due
            case Some((when, a')) => n.app.list[0].due <= when < n.app.list[0].due + d && a'.ps == Idle
  {
    NodeRunIsTurns(n, key, run);
    TurnsArePaced(n, key, run, d);
    TimedStateIsLeft(n.app, key, n.now, d, TurnsOf(n, key, run));
  }

  /**
   Idle safety of a whole node: with a regulating turn at least every `d <= 100` ms, it stays in the shunt state less
   than 30000 + 100 + d ms after the last STATUS command, or after its entry, whatever else it is told and set to.
   */
  lemma UnaskedNodeStopsShunting<K>(n: NodeState<K>, key: K, first: Input, run: seq<Input>, d: nat)
    requires Ok(n) && Fine(Between(n, first), first) && Ok(Step(n, key, first)) && d <= 100
    requires n.app.ps != Shunting && Step(n, key, first).app.ps == Shunting
    requires Goes(Step(n, key, first), key, run) && NeverTold(Step(n, key, first), key, run, TESTMODE)
    ensures var n1 := Step(n, key, first);
            var ts := TurnsOf(n1, key, run);
            && Allowed(n1.app, key, ts)
            && (ShuntTurns.Stays(n1.app, key, ts) && ShuntTurns.Regular(n1.now, n1.now, d, n1.app, key, ts) ==>
                  NodeRun(n1, key, run).now <
                  ShuntTurns.LastAsked(n1.now, n1.app, key, ts) + 30000 + 100 + d)
  {
    var m, n1 := Between(n, first), Step(n, key, first);
    NodeRunIsTurns(n1, key, run);
    TurnIsSteady(m, first);
    var ts := TurnsOf(n1, key, run);
    if ShuntTurns.Stays(n1.app, key, ts) && ShuntTurns.Regular(n1.now, n1.now, d, n1.app, key, ts) {
      ShuntTurns.UnaskedShuntEnds(m.app, key, d, TurnFor(m, first), ts);
    }
  }
}
