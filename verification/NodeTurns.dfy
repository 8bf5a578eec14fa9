/** The command processor and the application together: what a message does to the state machine and the regulator. */
module NodeTurns {
  import opened Bytes
  import opened Packet
  import opened Command
  import opened AppStates
  import Config
  import CommandModule
  import Custody
  import Serial
  import Link
  import S = Shunt
  import T = Timers

  // ---------------------------------------------------------------- settings

  /** A little-endian `uint16_t`. */
  function Unsigned16(low: Byte, high: Byte): (n: nat)
    ensures n < 0x1_0000
  {
    FromByte(low) + 256 * FromByte(high)
  }

  /** An `int8_t`. */
  function Signed8(b: Byte): (n: int)
    ensures -128 <= n < 128
  {
    if FromByte(b) < 128 then FromByte(b) else FromByte(b) - 256
  }

  /** The regulator's settings, as they lie in the configuration block. */
  function SettingsOf(b: Config.Block): (c: S.Settings)
    ensures c.Fit()
  {
    S.Settings(Unsigned16(b[17], b[18]), Unsigned16(b[15], b[16]), Signed8(b[22]), Signed8(b[21]))
  }

  /** The defaults are settings under which all the regulator's laws hold. */
  lemma DefaultsAreSane(b: Config.Block)
    requires Config.Parms(b) == Config.Defaults()
    ensures SettingsOf(b) == S.Settings(4000, 4100, 40, 50) && SettingsOf(b).Sane()
  {
    DefaultByteAt(b, 15, 4100 % 256);
    DefaultByteAt(b, 16, 4100 / 256);
    DefaultByteAt(b, 17, 4000 % 256);
    DefaultByteAt(b, 18, 4000 / 256);
    DefaultByteAt(b, 21, 50);
    DefaultByteAt(b, 22, 40);
  }

  lemma DefaultByteAt(b: Config.Block, k: nat, n: nat)
    requires Config.Parms(b) == Config.Defaults() && Config.PARMS <= k < Config.CRC_AT
    requires Config.DefaultByte(k - Config.PARMS) == n
    ensures FromByte(b[k]) == n
  {
    assert b[k] == Config.Parms(b)[k - Config.PARMS];
  }

  // ---------------------------------------------------------------- from messages to turns

  const KEY1: Byte := ToByte(0xCA)
  const KEY2: Byte := ToByte(0xFE)

  /** What a TESTMODE command makes of the regulator; without the key, nothing. */
  function TestOf(m: Message): Option<TestEffect>
    requires m.Fits()
  {
    var func := FromByte(m.payload[0]);
    if func == 0 then Some(TestOff)
    else if m.payload[1] != KEY1 || m.payload[2] != KEY2 then None
    else if func == 3 then Some(TestShunt(if m.len == 5 then FromByte(m.payload[3]) else 0))
    else if func <= 4 then Some(TestOther)
    else Some(TestOff)
  }

  /** What a turn of the main loop meets. */
  datatype Input = Input(
    ticks: nat,                     // since the last turn
    irqs: seq<Serial.Irq>,          // transmit interrupts since the last turn
    a: CommandModule.Arrivals,      // received bytes
    sending: Serial.Schedule,       // transmit interrupts while a reply is copied
    r: Readings, cellmv: nat, tempc: int,
    rxcif: bool,                    // a byte is waiting in the receiver
    testEnds: bool)                 // the test mode module reports off

  predicate Readable(i: Input) {
    i.r.Fits() && i.cellmv < 0x1_0000
  }

  /** The turn as the state machine sees it; `before` and `after` are the configuration around a handled message. */
  function TurnOf(now: nat, active: bool, before: Config.Store, after: Config.Store,
                  handled: Option<Message>, kept: bool, i: Input): Turn
    requires handled.Some? ==> handled.value.Fits()
  {
    Turn(now, active, SettingsOf(after.ram), i.cellmv, i.tempc,
         handled.Some? && IsMine(before, handled.value, STATUS),
         if handled.Some? && IsMine(before, handled.value, TESTMODE) then TestOf(handled.value) else None,
         if handled.Some? && kept then Some(FromByte(handled.value.cmd)) else None,
         i.testEnds)
  }

  // ---------------------------------------------------------------- a whole node, turn by turn

  /** Clock, packet buffer, packet timeout, configuration, transmitter, and the application with its regulator. */
  datatype NodeState<K> = NodeState(
    now: nat, sys: Custody.Sys, timeout: nat, store: Config.Store, port: Serial.Port, app: App<K>)

  /** Nobody holds a packet. */
  predicate Ok<K>(n: NodeState<K>) {
    Custody.Inv(n.sys) && n.sys.pc == Custody.Top
  }

  /** Ticks and transmit interrupts between two turns. */
  function Between<K>(n: NodeState<K>, i: Input): NodeState<K> {
    n.(now := n.now + i.ticks, port := Serial.ServeAll(n.port, i.irqs))
  }

  predicate TimerFires<K>(n: NodeState<K>) {
    T.Process(n.app.list, n.now).1.Some?
  }

  /** The message handled in this turn: none if a timer fires. */
  function MessageOf<K>(n: NodeState<K>, i: Input): (m: Option<Message>)
    requires Ok(n)
    ensures m.Some? ==> m.value.Fits()
  {
    if TimerFires(n) then None else CommandModule.TakenUp(n.sys, i.a)
  }

  /** What handling it leaves behind. */
  function ResultOf<K>(n: NodeState<K>, i: Input): CommandModule.Result
    requires Ok(n) && Readable(i)
  {
    var m := MessageOf(n, i);
    if m.None? then CommandModule.Result(n.store, n.port, None, false, false)
    else CommandModule.Handle(n.store, n.port, m.value, i.r, i.sending)
  }

  /** The turn means something: its readings are in range and do not make a running regulator divide by zero. */
  predicate Fine<K>(n: NodeState<K>, i: Input)
    requires Ok(n)
  {
    Readable(i) && (n.app.sh.status != S.Off ==>
                      !S.DividesByZero(n.app.sh, SettingsOf(ResultOf(n, i).store.ram), i.cellmv, i.tempc))
  }

  /** Buffer and packet timeout when the state machine runs. */
  function CalledOf<K>(n: NodeState<K>, i: Input): (c: (Custody.Sys, nat))
    requires Ok(n) && Readable(i)
    ensures Custody.Inv(c.0)
  {
    if TimerFires(n) then (n.sys, n.timeout)
    else CommandModule.CallAt(n.sys, n.timeout, i.a, MessageOf(n, i).Some?, ResultOf(n, i).kept, Wrap16(n.now))
  }

  function TurnFor<K>(n: NodeState<K>, i: Input): Turn
    requires Ok(n) && Readable(i)
  {
    var res := ResultOf(n, i);
    TurnOf(n.now, CalledOf(n, i).0.rx.Active() || res.port.Active() || i.rxcif,
           n.store, res.store, MessageOf(n, i), res.kept, i)
  }

  /** One turn of the main loop, unless the boot loader takes over in it. */
  function TurnStep<K(==)>(n: NodeState<K>, key: K, i: Input): NodeState<K>
    requires Ok(n) && Fine(n, i)
  {
    var res, called := ResultOf(n, i), CalledOf(n, i);
    NodeState(n.now,
              if res.kept then CommandModule.FreedAfter(called.0, i.a.handover) else called.0, called.1,
              res.store, res.port, Loop(n.app, key, TurnFor(n, i)))
  }

  /** The node when the state machine runs. */
  function Called<K>(n: NodeState<K>, i: Input): NodeState<K>
    requires Ok(n) && Readable(i)
  {
    var res, called := ResultOf(n, i), CalledOf(n, i);
    NodeState(n.now, called.0, called.1, res.store, res.port, n.app)
  }

  lemma CommandsOf<K>(n: NodeState<K>, i: Input)
    requires Ok(n) && Readable(i) && !TimerFires(n)
    ensures var m, res := MessageOf(n, i), ResultOf(n, i);
            var called := CommandModule.CallAt(n.sys, n.timeout, i.a, m.Some?, res.kept, Wrap16(n.now));
            && m == CommandModule.TakenUp(n.sys, i.a)
            && res == (if m.None? then CommandModule.Result(n.store, n.port, None, false, false)
                       else CommandModule.Handle(n.store, n.port, m.value, i.r, i.sending))
            && Called(n, i) == NodeState(n.now, called.0, called.1, res.store, res.port, n.app)
  {}

  /** The rest of the turn: the state machine, and the end of a kept packet. */
  function Finished<K(==)>(c: NodeState<K>, expired: bool, key: K, t: Turn,
                           kept: bool, handover: seq<Byte>): NodeState<K>
    requires Custody.Inv(c.sys) && Steady(c.app, t)
  {
    c.(sys := if kept then CommandModule.FreedAfter(c.sys, handover) else c.sys,
       app := AfterTimers(c.app, expired, key, t))
  }

  lemma TurnIsSteady<K>(n: NodeState<K>, i: Input)
    requires Ok(n) && Fine(n, i)
    ensures Steady(n.app, TurnFor(n, i)) && TurnFor(n, i).now == n.now
  {}

  lemma TurnForIs<K>(n: NodeState<K>, i: Input)
    requires Ok(n) && Readable(i)
    ensures var c := Called(n, i);
            TurnFor(n, i) == TurnOf(n.now, c.sys.rx.Active() || c.port.Active() || i.rxcif,
                                    n.store, c.store, MessageOf(n, i), ResultOf(n, i).kept, i)
  {}

  lemma QuietTimersStay<K>(n: NodeState<K>)
    requires !TimerFires(n)
    ensures n.app.(list := T.Process(n.app.list, n.now).0) == n.app
  {}

  lemma TurnStepInParts<K>(n: NodeState<K>, key: K, i: Input)
    requires Ok(n) && Fine(n, i)
    ensures var c, t := Called(n, i), TurnFor(n, i);
            var c' := c.(app := c.app.(list := T.Process(n.app.list, n.now).0));
            && Steady(c'.app, t) && t.now == n.now
            && TurnStep(n, key, i) == Finished(c', TimerFires(n), key, t, ResultOf(n, i).kept, i.a.handover)
            && (!TimerFires(n) ==> c' == c)
  {
    TurnIsSteady(n, i);
    if !TimerFires(n) {
      QuietTimersStay(n);
    }
  }

  /** From one top of the main loop to the next. */
  function Step<K(==)>(n: NodeState<K>, key: K, i: Input): NodeState<K>
    requires Ok(n) && Fine(Between(n, i), i)
  {
    TurnStep(Between(n, i), key, i)
  }

  predicate Reboots<K>(n: NodeState<K>, i: Input)
    requires Ok(n) && Readable(i)
  {
    ResultOf(Between(n, i), i).reset
  }

  // ---------------------------------------------------------------- what a message can do

  /** A SHUNTON reaches the main loop exactly if it carries the node's assigned address and is acknowledged in full. */
  lemma KeptIff(s: Config.Store, port: Serial.Port, m: Message, r: Readings, irqs: Serial.Schedule)
    requires m.Fits() && r.Fits()
    ensures var kept := CommandModule.Handle(s, port, m, r, irqs).kept;
            && (kept && FromByte(m.cmd) == SHUNTON <==> IsMine(s, m, SHUNTON) && Link.Send(port, Ack(m), irqs).1)
            && (kept && FromByte(m.cmd) == TESTMODE ==> IsMine(s, m, TESTMODE))
  {
    TransmitsIff(s, m, r);
  }

  /** The message of this turn is a command of that code for this node. */
  predicate Told<K>(n: NodeState<K>, i: Input, cmd: nat)
    requires Ok(n)
  {
    var m := MessageOf(n, i);
    m.Some? && IsMine(n.store, m.value, cmd)
  }

  /**
   From any other state, a turn brings the node into the shunt state if and only if it was idle, no timer fired, and
   the message is a SHUNTON with its own, assigned address whose whole acknowledgement went into the ring.
   */
  lemma ShuntNeedsAcknowledgedCommand<K>(n: NodeState<K>, key: K, i: Input)
    requires Ok(n) && Fine(n, i) && n.app.ps != Shunting
    ensures TurnStep(n, key, i).app.ps == Shunting <==>
            n.app.ps == Idle && Told(n, i, SHUNTON) && Link.Send(n.port, Ack(MessageOf(n, i).value), i.sending).1
  {
    ShuntStateEntered(n.app, key, TurnFor(n, i));
    var m := MessageOf(n, i);
    if m.Some? {
      KeptIff(n.store, n.port, m.value, i.r, i.sending);
    }
  }

  /** Only a TESTMODE command of the node's own takes a turn out of the reach of the coupling theorem. */
  lemma OwnTestmodeOnly<K>(n: NodeState<K>, i: Input)
    requires Ok(n) && Readable(i) && !Told(n, i, TESTMODE)
    ensures TestFree(TurnFor(n, i))
  {
    var m := MessageOf(n, i);
    if m.Some? {
      KeptIff(n.store, n.port, m.value, i.r, i.sending);
    }
  }

  /** Other nodes' traffic is ignored: but for ADDR and DFU, it leaves no trace in configuration or transmitter. */
  lemma OthersTrafficIsIgnored(s: Config.Store, port: Serial.Port, m: Message, r: Readings, irqs: Serial.Schedule)
    requires m.Fits() && r.Fits()
    requires FromByte(m.cmd) != ADDR && FromByte(m.cmd) != DFU && m.addr != NodeId(s)
    ensures CommandModule.Handle(s, port, m, r, irqs) == CommandModule.Result(s, port, None, false, false)
    ensures forall now: nat, active: bool, i: Input ::
              TurnOf(now, active, s, s, Some(m), false, i) == TurnOf(now, active, s, s, None, false, i)
  {
    TransmitsIff(s, m, r);
    SilentUnchanged(s, m, r);
  }
}
