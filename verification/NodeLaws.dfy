/** What a whole node does with what it is told: from the bytes on the bus to the regulator, and back. */
module NodeLaws {
  import opened Bytes
  import opened Packet
  import opened Command
  import opened AppStates
  import opened NodeTurns
  import opened NodeRuns
  import opened AppLaws
  import CommandLaws
  import CommandModule
  import Config
  import Custody
  import Link
  import Receiver
  import Serial
  import ShuntTurns
  import S = Shunt
  import SR = ShuntRuns

  // ---------------------------------------------------------------- what the state machine is told

  /** Of a handled message the state machine is told what it asks for, and its code if the packet was kept. */
  lemma TurnOfTells(now: nat, active: bool, before: Config.Store, after: Config.Store, m: Message, kept: bool, i: Input)
    requires m.Fits()
    ensures var t := TurnOf(now, active, before, after, Some(m), kept, i);
            && (t.query <==> IsMine(before, m, STATUS))
            && (t.test.Some? ==> IsMine(before, m, TESTMODE))
            && t.kept == if kept then Some(FromByte(m.cmd)) else None
  {}

  /** The turn in terms of the message and what handling it left behind. */
  lemma TurnTells<K>(n: NodeState<K>, i: Input)
    requires Ok(n) && Readable(i)
    ensures var t := TurnFor(n, i);
            && (t.query <==> Told(n, i, STATUS))
            && t.test == (if Told(n, i, TESTMODE) then TestOf(MessageOf(n, i).value) else None)
            && t.c == SettingsOf(ResultOf(n, i).store.ram) && t.now == n.now
  {
    TurnForIs(n, i);
    var m := MessageOf(n, i);
    if m.Some? {
      TurnOfTells(n.now, TurnFor(n, i).active, n.store, ResultOf(n, i).store, m.value, ResultOf(n, i).kept, i);
    }
  }

  /** The idle timeout is pushed back to 30 s from now exactly by the node's own STATUS commands. */
  lemma StatusIsNoticed<K>(n: NodeState<K>, i: Input)
    requires Ok(n) && Readable(i) && TurnFor(n, i).test == None
    ensures Executed(n.app.sh, TurnFor(n, i)) ==
            if Told(n, i, STATUS) then n.app.sh.(shuntTimeout := Wrap16(n.now + 30000)) else n.app.sh
  {
    TurnTells(n, i);
    QueryPushesBack(n.app.sh, TurnFor(n, i));
  }

  lemma QueryPushesBack(sh: S.Shunt, t: Turn)
    requires t.test == None
    ensures Executed(sh, t) == if t.query then sh.(shuntTimeout := Wrap16(t.now + 30000)) else sh
  {}

  /** A TESTMODE needs the key, except to turn everything off; it is for the shunt exactly with function 3. */
  lemma TestmodeNeedsKey(m: Message)
    requires m.Fits()
    ensures var func, key := FromByte(m.payload[0]), m.payload[1..3] == [ToByte(0xCA), ToByte(0xFE)];
            && (TestOf(m) == None <==> func != 0 && !key)
            && (TestOf(m) == Some(TestOff) <==> func == 0 || (key && func > 4))
            && (TestOf(m).Some? && TestOf(m).value.TestShunt? <==> func == 3 && key)
            && (func == 3 && key ==> TestOf(m).value.pwm == if m.len == 5 then FromByte(m.payload[3]) else 0)
  {
    assert m.payload[1..3] == [m.payload[1], m.payload[2]];
  }

  /** The regulator's settings are parameters 8, 9, 11 and 12, low byte first, temperatures signed. */
  lemma SettingsAreParameters(b: Config.Block)
    ensures var c := SettingsOf(b);
            && c.shuntmax == FromByte(Config.Slot(b, 8)[0]) + 256 * FromByte(Config.Slot(b, 8)[1])
            && c.shuntmin == FromByte(Config.Slot(b, 9)[0]) + 256 * FromByte(Config.Slot(b, 9)[1])
            && (c.temphi - FromByte(Config.Slot(b, 11)[0])) % 256 == 0 && -128 <= c.temphi < 128
            && (c.templo - FromByte(Config.Slot(b, 12)[0])) % 256 == 0 && -128 <= c.templo < 128
  {}

  /** A voltage limit read from its parameter. */
  function Limit(b: Config.Block, id: nat): nat {
    if id == 8 then SettingsOf(b).shuntmax else SettingsOf(b).shuntmin
  }

  lemma LimitFromSlot(b: Config.Block, id: nat, v: seq<Byte>)
    requires (id == 8 || id == 9) && |v| == 2 && Config.Slot(b, id) == v
    ensures Limit(b, id) == FromByte(v[0]) + 256 * FromByte(v[1])
  {
    SettingsAreParameters(b);
  }

  lemma SetparmSetsLimit(s: Config.Store, m: Message, r: Readings)
    requires m.Fits() && IsMine(s, m, SETPARM) && m.len == 3
    requires FromByte(m.payload[0]) == 8 || FromByte(m.payload[0]) == 9
    ensures Limit(Dispatch(s, m, r).0.ram, FromByte(m.payload[0])) ==
            FromByte(m.payload[1]) + 256 * FromByte(m.payload[2])
  {
    CommandLaws.SetparmStores(s, m, r);
    LimitFromSlot(Dispatch(s, m, r).0.ram, FromByte(m.payload[0]), m.payload[1..3]);
  }

  /** A SETPARM of a voltage limit takes effect in the regulator in the very turn that handles it. */
  lemma SetparmReachesRegulator<K>(n: NodeState<K>, i: Input)
    requires Ok(n) && Readable(i) && Told(n, i, SETPARM)
    requires var m := MessageOf(n, i).value; (FromByte(m.payload[0]) == 8 || FromByte(m.payload[0]) == 9) && m.len == 3
    ensures var m, c := MessageOf(n, i).value, TurnFor(n, i).c;
            (if FromByte(m.payload[0]) == 8 then c.shuntmax else c.shuntmin) ==
            FromByte(m.payload[1]) + 256 * FromByte(m.payload[2])
  {
    TurnTells(n, i);
    ResultStore(n, i);
    SetparmSetsLimit(n.store, MessageOf(n, i).value, i.r);
  }

  lemma ResultStore<K>(n: NodeState<K>, i: Input)
    requires Ok(n) && Readable(i) && MessageOf(n, i).Some?
    ensures ResultOf(n, i).store == Dispatch(n.store, MessageOf(n, i).value, i.r).0
  {}

  // ---------------------------------------------------------------- commands to the whole node

  /** A SHUNTOFF for a shunting node, acknowledged in full, stops it in that turn. */
  lemma ShuntoffStopsNode<K>(n: NodeState<K>, key: K, i: Input)
    requires Ok(n) && Fine(n, i) && AppStates.Inv(n.app, key) && n.app.ps == Shunting
    requires n.port.Ok() && Told(n, i, SHUNTOFF) && Link.Send(n.port, Ack(MessageOf(n, i).value), i.sending).1
    ensures var a := TurnStep(n, key, i).app; a.ps == Idle && a.sh.pwm == 0 && a.sh.status == S.Off
  {
    var m := MessageOf(n, i).value;
    CommandLaws.ReplyContents(n.store, m, i.r);
    CommandLaws.HandledExactly(n.store, n.port, m, i.r, i.sending);
    TurnIsSteady(n, i);
    ShuntoffTurn(n.app, key, TurnFor(n, i));
  }

  /** A node asked for its status in time, and never told SHUNTOFF, goes on shunting. */
  lemma AskedNodeKeepsShunting<K>(n: NodeState<K>, key: K, run: seq<Input>, s: SR.Session, d: nat)
    requires Ok(n) && Goes(n, key, run) && NeverTold(n, key, run, TESTMODE)
    requires ShuntTurns.Matches(s, n.app, d) && s.now == n.now
    ensures var ts := TurnsOf(n, key, run);
            && Allowed(n.app, key, ts)
            && ((ShuntTurns.Regular(n.now, s.lastLoop, d, n.app, key, ts) &&
                 ShuntTurns.AskedFor(s.lastQuery, n.app, key, ts)) ==>
                  NodeRun(n, key, run).app.ps == Shunting)
  {
    NodeRunIsTurns(n, key, run);
    var ts := TurnsOf(n, key, run);
    if ShuntTurns.Regular(n.now, s.lastLoop, d, n.app, key, ts) && ShuntTurns.AskedFor(s.lastQuery, n.app, key, ts) {
      ShuntTurns.AskedShuntStays(s, n.app, key, d, ts);
      var _ := ShuntTurns.FollowSession(s, n.app, key, d, ts);
    }
  }

  lemma BusyIsActive<K>(n: NodeState<K>, i: Input)
    requires Ok(n) && Readable(i)
    requires CalledOf(n, i).0.rx.Busy() || CalledOf(n, i).0.rx.ready || ResultOf(n, i).port.queue != []
    ensures TurnFor(n, i).active
  {
    TurnForIs(n, i);
  }

  lemma StepApp<K>(n: NodeState<K>, key: K, i: Input)
    requires Ok(n) && Fine(n, i)
    ensures Steady(n.app, TurnFor(n, i)) && TurnStep(n, key, i).app == Loop(n.app, key, TurnFor(n, i))
  {
    TurnIsSteady(n, i);
  }

  lemma ActiveTurn<K>(n: NodeState<K>, key: K, t: Turn)
    requires AppStates.Inv(n.app, key) && n.app.ps == Idle && !TimerFires(n)
    requires Steady(n.app, t) && t.active && t.now == n.now
    ensures Loop(n.app, key, t).ps == Idle ==> TimerAt(Loop(n.app, key, t), key, n.now + 1000)
  {
    IdleTurn(n.app, key, t);
  }

  /** An idle node in the middle of a packet, or with bytes still to send, stays awake for another second. */
  lemma BusyNodeStaysAwake<K>(n: NodeState<K>, key: K, i: Input)
    requires Ok(n) && Fine(n, i) && AppStates.Inv(n.app, key) && n.app.ps == Idle && !TimerFires(n)
    requires CalledOf(n, i).0.rx.Busy() || CalledOf(n, i).0.rx.ready || ResultOf(n, i).port.queue != []
    ensures var a := TurnStep(n, key, i).app; a.ps == Idle ==> TimerAt(a, key, n.now + 1000)
  {
    StepApp(n, key, i);
    BusyIsActive(n, i);
    TurnIsSteady(n, i);
    ActiveTurn(n, key, TurnFor(n, i));
  }

  // ---------------------------------------------------------------- request and reply

  /** A frame that arrives at a node at rest is the message of that turn. */
  lemma FrameIsTaken<K>(n: NodeState<K>, i: Input, p: Packet)
    requires Ok(n) && !TimerFires(n) && n.sys.rx.state == Receiver.Search && !n.sys.rx.inuse
    requires p.Fits() && i.a.before == Frame(p)
    ensures var m := MessageOf(n, i);
            && m.Some? && m.value.flags == p.flags && m.value.addr == p.addr && m.value.cmd == p.cmd
            && m.value.len == |p.payload| && m.value.payload[..|p.payload|] == p.payload
  {
    Custody.RunBytes(n.sys, i.a.before);
    Custody.FrameArrives(n.sys.rx, p);
    CommandModule.MessageIsPacket(Receiver.Steps(n.sys.rx, Frame(p)));
  }

  /** The reply that this turn's message calls for. */
  function ReplyTo<K>(n: NodeState<K>, i: Input): Option<Packet>
    requires Ok(n)
  {
    var m := MessageOf(n, i);
    if m.None? then None else Dispatch(n.store, m.value, i.r).1
  }

  /** With at most nine bytes queued, the reply goes out whole, as one frame behind everything queued before. */
  lemma MessageIsAnswered<K>(n: NodeState<K>, i: Input)
    requires Ok(n) && Readable(i) && n.port.Ok() && |n.port.queue| <= 9
    ensures ResultOf(n, i).port.Ok()
    ensures match ReplyTo(n, i)
            case None => ResultOf(n, i).port == n.port
            case Some(q) =>
              q.Fits() && ResultOf(n, i).kept && Serial.Taken(ResultOf(n, i).port) == Serial.Taken(n.port) + Frame(q)
  {
    var m := MessageOf(n, i);
    if m.Some? {
      CommandLaws.HandledExactly(n.store, n.port, m.value, i.r, i.sending);
      var reply := ReplyTo(n, i);
      if reply.Some? {
        Link.RoomForAnyPacket(n.port, reply.value, i.sending);
        Link.SendTakesFrame(n.port, reply.value, i.sending);
      }
    }
  }

  /** What is queued at one turn is on the wire at the next, given enough data-register interrupts in between. */
  lemma QueueReachesWire<K>(n: NodeState<K>, i: Input)
    requires n.port.Ok() && Serial.Dres(i.irqs) >= |n.port.queue|
    ensures Between(n, i).port.wire == Serial.Taken(n.port)
  {
    Serial.EverythingIsSent(n.port, i.irqs);
  }

  lemma FrameAlone(q: Packet)
    requires q.Fits()
    ensures Scan([] + Frame(q)) == [q]
  {
    ScanFrame(q, []);
    assert Frame(q) + [] == Frame(q) && [] + Frame(q) == Frame(q);
  }

  /**
   Request and reply: a node at rest that has sent nothing yet is sent a packet. It handles that packet, and by the
   next turn whoever listens on its wire finds exactly the reply that the command calls for, or nothing.
   */
  lemma RequestAndReply<K>(n: NodeState<K>, key: K, i: Input, next: Input, p: Packet)
    requires Ok(n) && Fine(n, i) && !TimerFires(n) && n.sys.rx.state == Receiver.Search && !n.sys.rx.inuse
    requires p.Fits() && i.a.before == Frame(p)
    requires n.port.Ok() && n.port.queue == [] && n.port.wire == []
    requires Serial.Dres(next.irqs) >= |ResultOf(n, i).port.queue|
    ensures var m := MessageOf(n, i);
            m.Some? && m.value.addr == p.addr && m.value.cmd == p.cmd && m.value.payload[..m.value.len] == p.payload
    ensures Scan(Between(TurnStep(n, key, i), next).port.wire) ==
            match ReplyTo(n, i) case None => [] case Some(q) => [q]
  {
    FrameIsTaken(n, i, p);
    MessageIsAnswered(n, i);
    StepPort(n, key, i);
    QueueReachesWire(TurnStep(n, key, i), next);
    var reply := ReplyTo(n, i);
    if reply.Some? {
      FrameAlone(reply.value);
    }
  }

  lemma StepPort<K>(n: NodeState<K>, key: K, i: Input)
    requires Ok(n) && Fine(n, i)
    ensures TurnStep(n, key, i).port == ResultOf(n, i).port
  {}
}
