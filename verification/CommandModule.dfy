/** The command processor itself (src/cmd.c), with the receive interrupt falling between its atomic accesses. */
module CommandModule {
  import opened Bytes
  import opened Packet
  import opened Command
  import opened Receiver
  import opened Custody
  import Config
  import ConfigModule
  import Link
  import Serial
  import opened PacketTimeout
  import T = Timers

  /** The message in the receive buffer. */
  function MessageIn(buf: seq<Byte>): (m: Message)
    requires |buf| == BUF_LEN
  {
    Message(buf[0], buf[1], buf[2], FromByte(buf[3]), buf[HEADER_LEN..])
  }

  /** The message is the packet in the buffer over the payload bytes that were there already. */
  lemma MessageIsPacket(r: Rx)
    requires |r.buf| == BUF_LEN && FromByte(r.buf[3]) <= PAYLOAD_LEN
    ensures MessageIn(r.buf) == Command.Received(InBuffer(r), r.buf[HEADER_LEN..])
  {
    var n := FromByte(r.buf[3]);
    var p := InBuffer(r);
    assert p.payload == r.buf[HEADER_LEN..][..n];
    assert r.buf[HEADER_LEN..] == p.payload + r.buf[HEADER_LEN..][n..];
  }

  /** What a poll picks up is the next delivered packet, over stale bytes. */
  lemma TakenUpIsDelivered(s: Sys, a: Arrivals)
    requires Inv(s) && s.pc == Top
    ensures var s' := Run(s, RxBytes(a.before) + [Poll]);
            match TakenUp(s, a)
            case None => s'.delivered == s.delivered
            case Some(m) =>
              && |s'.delivered| == |s.delivered| + 1 && s'.delivered[..|s.delivered|] == s.delivered
              && s'.delivered[|s.delivered|].Fits()
              && m == Command.Received(s'.delivered[|s.delivered|], s'.rx.buf[HEADER_LEN..])
  {
    RunBytes(s, a.before);
    RunThen(s, RxBytes(a.before), Poll);
    var s1 := Run(s, RxBytes(a.before));
    ActKeepsInv(s1, Poll);
    if s1.rx.ready {
      MessageIsPacket(s1.rx);
    }
  }

  /**
   Bytes that arrive before the poll, while a packet is being handled, before the timeout is looked at, and while the
   main loop holds the packet.
   */
  datatype Arrivals = Arrivals(before: seq<Byte>, during: seq<Byte>, after: seq<Byte>, handover: seq<Byte>)

  /** The acts up to the point where the packet, if there was one, is kept or dropped. */
  function FirstActs(a: Arrivals, polled: bool, kept: bool): seq<Act> {
    RxBytes(a.before) + [Poll] + (if polled then RxBytes(a.during) + [if kept then Keep else Drop] else [])
  }

  /** One call of `cmd_process` when the clock shows `tick`: what becomes of the buffer, and of `pkt_timeout`. */
  function CallAt(s: Sys, timeout: nat, a: Arrivals, polled: bool, kept: bool, tick: nat): (r: (Sys, nat))
    requires Inv(s)
    ensures Inv(r.0)
  {
    var s1 := Run(s, FirstActs(a, polled, kept));
    if kept then (s1, timeout)
    else
      var s2 := Run(s1, RxBytes(a.after));
      ActKeepsInv(s2, Watch(T.Expired16(tick, timeout)));
      LookAt(s2, timeout, tick)
  }

  /** The main loop holds a kept packet while more bytes arrive, and frees it. */
  function FreedAfter(s: Sys, handover: seq<Byte>): (s': Sys)
    requires Inv(s)
    ensures Inv(s')
  {
    var s1 := Run(s, RxBytes(handover));
    ActKeepsInv(s1, Release);
    Apply(s1, Release)
  }

  /** All of it is a run of the custody machine, so everything proved about its interleavings applies. */
  lemma CallIsRun(s: Sys, timeout: nat, a: Arrivals, polled: bool, kept: bool, tick: nat)
    requires Inv(s)
    ensures var first := FirstActs(a, polled, kept);
            var acts := if kept then first + (RxBytes(a.handover) + [Release])
                        else first + (RxBytes(a.after) + [Watch(T.Expired16(tick, timeout))]);
            var s' := CallAt(s, timeout, a, polled, kept, tick).0;
            (if kept then FreedAfter(s', a.handover) else s') == Run(s, acts)
  {
    var first := FirstActs(a, polled, kept);
    var s1 := Run(s, first);
    if kept {
      RunConcat(s, first, RxBytes(a.handover) + [Release]);
      RunThen(s1, RxBytes(a.handover), Release);
    } else {
      RunConcat(s, first, RxBytes(a.after) + [Watch(T.Expired16(tick, timeout))]);
      RunThen(s1, RxBytes(a.after), Watch(T.Expired16(tick, timeout)));
    }
  }

  /** The message that the poll picks up, if one is ready by then. */
  function TakenUp(s: Sys, a: Arrivals): (m: Option<Message>)
    requires Inv(s)
    ensures m.Some? ==> m.value.Fits()
  {
    var rx := Run(s, RxBytes(a.before)).rx;
    if rx.ready then Some(MessageIn(rx.buf)) else None
  }

  /** What handling a message leaves behind. */
  datatype Result = Result(store: Config.Store, port: Serial.Port, reply: Option<Packet>, kept: bool, reset: bool)

  /**
   The command is dispatched and its reply sent. The packet is kept for the main loop exactly if the reply went out
   completely or the command is DFU; `reset` means the boot loader took over instead.
   */
  function Handle(s: Config.Store, port: Serial.Port, m: Message, r: Readings, irqs: Serial.Schedule): Result
    requires m.Fits() && r.Fits()
  {
    var (s', reply) := Dispatch(s, m, r);
    var dfu := FromByte(m.cmd) == DFU;
    if reply.None? then Result(s', port, None, dfu && !Mine(s, m), dfu && Mine(s, m))
    else
      ReplyFits(s, m, r);
      var (port', sent) := Link.Send(port, reply.value, irqs);
      Result(s', port', reply, sent, false)
  }

  // ---------------------------------------------------------------- one call, in the two machines

  lemma FirstActsEnd(s: Sys, a: Arrivals, kept: bool)
    requires Inv(s) && s.pc == Top
    ensures var polled := TakenUp(s, a).Some?;
            Run(s, FirstActs(a, polled, kept)).pc == if !polled then Waiting else if kept then InLoop else Waiting
  {
    var s1 := Run(s, RxBytes(a.before));
    RunBytes(s, a.before);
    RunThen(s, RxBytes(a.before), Poll);
    ActKeepsInv(s1, Poll);
    var s2 := Apply(s1, Poll);
    if s1.rx.ready {
      var act := if kept then Keep else Drop;
      RunBytes(s2, a.during);
      RunThen(s2, RxBytes(a.during), act);
      RunConcat(s, RxBytes(a.before) + [Poll], RxBytes(a.during) + [act]);
    } else {
      assert RxBytes(a.before) + [Poll] + [] == RxBytes(a.before) + [Poll];
    }
  }

  /** After a call the main loop holds the packet or is at its top; after freeing the packet it is at its top. */
  lemma CallEnds(s: Sys, timeout: nat, a: Arrivals, kept: bool, tick: nat)
    requires Inv(s) && s.pc == Top && (kept ==> TakenUp(s, a).Some?)
    ensures var s' := CallAt(s, timeout, a, TakenUp(s, a).Some?, kept, tick).0;
            if kept then s'.pc == InLoop && FreedAfter(s', a.handover).pc == Top else s'.pc == Top
  {
    FirstActsEnd(s, a, kept);
    RunBytes(Run(s, FirstActs(a, TakenUp(s, a).Some?, kept)), if kept then a.handover else a.after);
  }

  /** Acts other than watching, as events of the machine with a clock. */
  function Dos(acts: seq<Act>): (es: seq<Event>)
    requires forall a :: a in acts ==> !a.Watch?
    ensures AllProper(es)
  {
    if acts == [] then [] else [Do(acts[0])] + Dos(acts[1..])
  }

  lemma {:induction false} PlayActs(z: Timed, acts: seq<Act>)
    requires Sound(z) && forall a :: a in acts ==> !a.Watch?
    ensures var z' := Play(z, Dos(acts));
            z'.sys == Run(z.sys, acts) && z'.timeout == z.timeout && z'.now == z.now
    decreases |acts|
  {
    if acts != [] {
      var e := Do(acts[0]);
      NextIsSound(z, e);
      assert Dos(acts)[0] == e && Dos(acts)[1..] == Dos(acts[1..]);
      ActKeepsInv(z.sys, acts[0]);
      PlayActs(Next(z, e), acts[1..]);
    }
  }

  /** One call, and the freeing of a kept packet, as events of the machine with a clock. */
  function CallEvents(a: Arrivals, polled: bool, kept: bool): (es: seq<Event>)
    ensures AllProper(es)
  {
    var first := Dos(FirstActs(a, polled, kept));
    if kept then first + Dos(RxBytes(a.handover) + [Release])
    else first + (Dos(RxBytes(a.after)) + [Look])
  }

  lemma {:induction false} BytesOfConcat(a: seq<Event>, b: seq<Event>)
    ensures BytesOf(a + b) == BytesOf(a) + BytesOf(b)
  {
    if a == [] {
      assert a + b == b;
    } else {
      assert (a + b)[1..] == a[1..] + b;
      BytesOfConcat(a[1..], b);
    }
  }

  lemma BytesOfDosCons(a: Act, rest: seq<Act>)
    requires !a.Watch? && forall x :: x in rest ==> !x.Watch?
    ensures BytesOf(Dos([a] + rest)) == (if a.RxByte? then [a.b] else []) + BytesOf(Dos(rest))
  {
    assert ([a] + rest)[1..] == rest;
    assert ([Do(a)] + Dos(rest))[1..] == Dos(rest);
  }

  lemma {:induction false} BytesOfDos(a: seq<Act>, b: seq<Act>)
    requires forall x :: x in a ==> !x.Watch?
    requires forall x :: x in b ==> !x.Watch?
    ensures forall x :: x in a + b ==> !x.Watch?
    ensures BytesOf(Dos(a + b)) == BytesOf(Dos(a)) + BytesOf(Dos(b))
    decreases |a|
  {
    if a == [] {
      assert a + b == b;
    } else {
      assert a == [a[0]] + a[1..] && a + b == [a[0]] + (a[1..] + b);
      BytesOfDos(a[1..], b);
      BytesOfDosCons(a[0], a[1..]);
      BytesOfDosCons(a[0], a[1..] + b);
    }
  }

  lemma {:induction false} BytesOfReceived(bytes: seq<Byte>)
    ensures BytesOf(Dos(RxBytes(bytes))) == bytes
  {
    if bytes != [] {
      assert RxBytes(bytes)[1..] == RxBytes(bytes[1..]);
      assert Dos(RxBytes(bytes))[1..] == Dos(RxBytes(bytes[1..]));
      BytesOfReceived(bytes[1..]);
    }
  }

  lemma BytesOfOne(act: Act)
    requires !act.Watch?
    ensures BytesOf(Dos([act])) == if act.RxByte? then [act.b] else []
  {
    assert Dos([act]) == [Do(act)] + Dos([]) && [Do(act)][1..] == [];
    assert Dos([act])[1..] == [];
  }

  lemma BytesThenAct(bytes: seq<Byte>, act: Act)
    requires !act.Watch? && !act.RxByte?
    ensures BytesOf(Dos(RxBytes(bytes) + [act])) == bytes
  {
    BytesOfDos(RxBytes(bytes), [act]);
    BytesOfReceived(bytes);
    BytesOfOne(act);
  }

  lemma FirstActsReceive(a: Arrivals, polled: bool, kept: bool)
    ensures BytesOf(Dos(FirstActs(a, polled, kept))) == a.before + if polled then a.during else []
  {
    var first := RxBytes(a.before) + [Poll];
    BytesThenAct(a.before, Poll);
    if polled {
      var act := if kept then Keep else Drop;
      BytesThenAct(a.during, act);
      BytesOfDos(first, RxBytes(a.during) + [act]);
    } else {
      assert first + [] == first;
    }
  }

  /** No byte that arrives during a call, or while the main loop holds a packet, is lost or received twice. */
  lemma CallReceivesAll(a: Arrivals, polled: bool, kept: bool)
    ensures BytesOf(CallEvents(a, polled, kept)) ==
            (a.before + if polled then a.during else []) + if kept then a.handover else a.after
  {
    var first := Dos(FirstActs(a, polled, kept));
    FirstActsReceive(a, polled, kept);
    if kept {
      BytesThenAct(a.handover, Release);
      BytesOfConcat(first, Dos(RxBytes(a.handover) + [Release]));
    } else {
      BytesOfReceived(a.after);
      assert [Look][1..] == [];
      BytesOfConcat(Dos(RxBytes(a.after)), [Look]);
      BytesOfConcat(first, Dos(RxBytes(a.after)) + [Look]);
    }
  }

  /** So the calls of a node are a run of that machine, and all its theorems about the packet timeout apply. */
  lemma CallIsPlay(z: Timed, a: Arrivals, polled: bool, kept: bool)
    requires Sound(z)
    ensures var z' := Play(z, CallEvents(a, polled, kept));
            var s' := CallAt(z.sys, z.timeout, a, polled, kept, Wrap16(z.now));
            && z'.sys == (if kept then FreedAfter(s'.0, a.handover) else s'.0)
            && z'.timeout == s'.1 && z'.now == z.now
  {
    var first := FirstActs(a, polled, kept);
    PlayActs(z, first);
    var z1 := Play(z, Dos(first));
    if kept {
      PlayActs(z1, RxBytes(a.handover) + [Release]);
      RunThen(z1.sys, RxBytes(a.handover), Release);
      PlayConcat(z, Dos(first), Dos(RxBytes(a.handover) + [Release]));
    } else {
      PlayActs(z1, RxBytes(a.after));
      var z2 := Play(z1, Dos(RxBytes(a.after)));
      NextIsSound(z2, Look);
      assert [Look][1..] == [];
      PlayConcat(z1, Dos(RxBytes(a.after)), [Look]);
      PlayConcat(z, Dos(first), Dos(RxBytes(a.after)) + [Look]);
    }
  }

  class CmdModule {
    const pkt: PktModule
    const cfg: ConfigModule.CfgModule
    const sender: Link.Sender
    var pktTimeout: nat
    var pktWaiting: bool
    ghost var sys: Sys    // the same facts as one state of the custody machine

    ghost predicate Valid()
      reads this, pkt, pkt.rxbuf, sender, sender.txpkt, sender.ser
    {
      && pkt.Valid() && cfg.Valid() && sender.Valid()
      && pkt.rxbuf != cfg.parms && pkt.rxbuf != cfg.eeprom && pkt.rxbuf != sender.txpkt && pkt.rxbuf != sender.ser.txbuf
      && cfg.parms != sender.txpkt && cfg.parms != sender.ser.txbuf
      && cfg.eeprom != sender.txpkt && cfg.eeprom != sender.ser.txbuf
      && sys.rx == pkt.View() && sys.waiting == pktWaiting
      && Inv(sys)
    }

    constructor (stored: Config.Block)
      ensures Valid() && sys == START && pktTimeout == 0 && cfg.eeprom[..] == stored
      ensures sender.ser.View() == Serial.Port([], [], false, false, true, true)
    {
      pkt := new PktModule();
      cfg := new ConfigModule.CfgModule(stored);
      sender := new Link.Sender();
      pktTimeout, pktWaiting := 0, false;
      sys := START;
    }

    method Interrupt(bytes: seq<Byte>)
      requires Valid()
      modifies pkt, pkt.rxbuf, this`sys
      ensures Valid() && sys == Run(old(sys), RxBytes(bytes)) == old(sys).(rx := sys.rx)
      ensures old(sys).rx.ready || old(sys).Held() ==> sys.rx.buf == old(sys).rx.buf
    {
      RunBytes(sys, bytes);
      pkt.Receive(bytes);
      sys := Run(sys, RxBytes(bytes));
    }

    /** `pkt_ready`; a packet clears the waiting flag. */
    method PollPacket() returns (got: bool)
      requires Valid() && sys.pc == Top
      modifies pkt, this`sys, this`pktWaiting
      ensures Valid() && sys == Apply(old(sys), Poll) && got == (sys.pc == InCmd)
    {
      ActKeepsInv(sys, Poll);
      var p := pkt.Ready();
      got := p != null;
      if got {
        pktWaiting := false;
      }
      sys := Apply(sys, Poll);
    }

    /** A timeout runs: act on it if it has expired. */
    method CheckTimeout(systick: nat)
      requires Valid() && sys.pc == Waiting && systick < 0x1_0000 && pktWaiting
      modifies pkt, this`sys, this`pktWaiting
      ensures Valid() && (sys, pktTimeout) == LookAt(old(sys), old(pktTimeout), systick) && sys.pc == Top
    {
      ghost var act := Watch(T.Expired16(systick, pktTimeout));
      ActKeepsInv(sys, act);
      ghost var s' := Apply(sys, act);
      if T.Expired16(systick, pktTimeout) {
        pkt.Reset();
        pktWaiting := false;
        assert pkt.View() == s'.rx;
      }
      sys := s';
    }

    /** No timeout runs: start one if the packet module is busy. */
    method StartTimeout(systick: nat)
      requires Valid() && sys.pc == Waiting && systick < 0x1_0000 && !pktWaiting
      modifies this`sys, this`pktWaiting, this`pktTimeout
      ensures Valid() && (sys, pktTimeout) == LookAt(old(sys), old(pktTimeout), systick) && sys.pc == Top
    {
      ghost var act := Watch(T.Expired16(systick, pktTimeout));
      ActKeepsInv(sys, act);
      var active := pkt.IsActive();
      if active {
        pktTimeout := Wrap16(systick + 5000);
        pktWaiting := true;
      }
      sys := Apply(sys, act);
    }

    /** No packet: look at the timeout for one to complete. */
    method WatchTimeout(systick: nat)
      requires Valid() && sys.pc == Waiting && systick < 0x1_0000
      modifies pkt, this`sys, this`pktWaiting, this`pktTimeout
      ensures Valid() && (sys, pktTimeout) == LookAt(old(sys), old(pktTimeout), systick) && sys.pc == Top
    {
      if pktWaiting {
        CheckTimeout(systick);
      } else {
        StartTimeout(systick);
      }
    }

    method FreeNow()
      requires Valid() && sys.pc == InLoop
      modifies pkt`rxbufInUse, this`sys
      ensures Valid() && sys == Apply(old(sys), Release)
    {
      ActKeepsInv(sys, Release);
      pkt.RxFree(pkt.rxbuf);
      sys := Apply(sys, Release);
    }

    /** The main loop frees the packet it was given, after some more bytes. */
    method Free(handover: seq<Byte>)
      requires Valid() && sys.pc == InLoop
      modifies pkt, pkt.rxbuf, this`sys
      ensures Valid() && sys == FreedAfter(old(sys), handover)
    {
      Interrupt(handover);
      FreeNow();
    }

    // -------------------------------------------------------------- commands

    method CmdAddr(m: Message, r: Readings, beyond: seq<Byte>) returns (reply: Option<Packet>)
      requires cfg.Valid() && m.Fits() && |beyond| == 256
      modifies cfg.parms, cfg.eeprom
      ensures (cfg.View(), reply) == Address(old(cfg.View()), m, r)
    {
      if r.uid == m.payload[..4] {
        var setparm := [ADDR_PARM, m.addr];
        var _ := cfg.CfgSet(2, setparm, beyond);
        cfg.CfgStore(beyond);
        return Some(Packet(REPLY, cfg.parms[Config.PARMS], m.cmd, m.payload[..4]));
      }
      return None;
    }

    method CmdSetparm(m: Message, beyond: seq<Byte>) returns (reply: Packet)
      requires cfg.Valid() && m.Fits() && |beyond| == 256
      modifies cfg.parms, cfg.eeprom
      ensures cfg.View() == Config.Set(old(cfg.View()), m.len, m.payload).0
      ensures reply == Packet(REPLY, NodeId(cfg.View()), m.cmd, [m.payload[0]])
    {
      var _ := cfg.CfgSet(m.len, m.payload, beyond);
      return Packet(REPLY, cfg.parms[Config.PARMS], m.cmd, [m.payload[0]]);
    }

    method CmdGetparm(m: Message) returns (reply: Packet)
      requires cfg.Valid() && m.Fits()
      ensures reply == Packet(REPLY, NodeId(cfg.View()), m.cmd, [m.payload[0]] + Asked(cfg.View(), m))
    {
      var pld := new Byte[12](_ => ZERO);
      pld[0] := m.payload[0];
      var len := cfg.CfgGet(12, pld);
      len := if len == 0 then 1 else len;
      assert pld[..len] == [pld[0]] + pld[1..len];
      return Packet(REPLY, cfg.parms[Config.PARMS], m.cmd, pld[..len]);
    }

    /** A command addressed to this node; `reset` means the boot loader was started and nothing follows. */
    method RunAddressed(m: Message, r: Readings, beyond: seq<Byte>) returns (reply: Option<Packet>, reset: bool)
      requires cfg.Valid() && m.Fits() && |beyond| == 256
      modifies cfg.parms, cfg.eeprom
      ensures (cfg.View(), reply) == Addressed(old(cfg.View()), m, r)
      ensures reset == (FromByte(m.cmd) == DFU)
    {
      var cmd := FromByte(m.cmd);
      reply, reset := None, false;
      if cmd == PING || cmd == SHUNTON || cmd == SHUNTOFF || cmd == TESTMODE {
        reply := Some(Ack(m));
      } else if cmd == DFU {
        reset := true;
      } else if cmd == UID {
        reply := Some(Packet(REPLY, cfg.parms[Config.PARMS], m.cmd, r.uid + r.version));
      } else if cmd == ADCRAW {
        reply := Some(Packet(REPLY, cfg.parms[Config.PARMS], m.cmd, r.raw));
      } else if cmd == STATUS {
        reply := Some(Packet(REPLY, cfg.parms[Config.PARMS], m.cmd, r.status));
      } else if cmd == GETPARM {
        var p := CmdGetparm(m);
        reply := Some(p);
      } else if cmd == SETPARM {
        var p := CmdSetparm(m, beyond);
        reply := Some(p);
      } else if cmd == FACTORY {
        cfg.CfgReset(beyond);
        reply := Some(Ack(m));
      }
    }

    /** The dispatch part of `cmd_process`. */
    method Execute(m: Message, r: Readings, beyond: seq<Byte>) returns (reply: Option<Packet>, reset: bool)
      requires cfg.Valid() && m.Fits() && |beyond| == 256
      modifies cfg.parms, cfg.eeprom
      ensures (cfg.View(), reply) == Dispatch(old(cfg.View()), m, r)
      ensures reset == IsMine(old(cfg.View()), m, DFU) && (reset ==> reply.None?)
    {
      reply, reset := None, false;
      if FromByte(m.cmd) == ADDR {
        reply := CmdAddr(m, r, beyond);
      } else if cfg.parms[Config.PARMS] == UNASSIGNED {
        if m.addr == UNASSIGNED && FromByte(m.cmd) == UID {
          reply := Some(Packet(REPLY, cfg.parms[Config.PARMS], m.cmd, r.uid + r.version));
        }
      } else if m.addr == cfg.parms[Config.PARMS] {
        reply, reset := RunAddressed(m, r, beyond);
      }
    }

    method SendReply(q: Packet, irqs: Serial.Schedule) returns (sent: bool)
      requires Valid() && q.Fits()
      modifies sender.txpkt, sender.ser, sender.ser.txbuf
      ensures Valid() && (sender.ser.View(), sent) == Link.Send(old(sender.ser.View()), q, irqs)
    {
      assert q == Packet(q.flags, q.addr, q.cmd, q.payload[..|q.payload|]);
      sent := sender.PktSend(q.flags, q.addr, q.cmd, q.payload, |q.payload|, irqs);
    }

    /** Run the command in `m` and send its reply, if it has one. */
    method RunCommand(m: Message, r: Readings, beyond: seq<Byte>, irqs: Serial.Schedule)
      returns (kept: bool, reply: Option<Packet>, reset: bool)
      requires Valid() && m.Fits() && |beyond| == 256 && r.Fits()
      modifies cfg.parms, cfg.eeprom, sender.txpkt, sender.ser, sender.ser.txbuf
      ensures Valid()
      ensures Result(cfg.View(), sender.ser.View(), reply, kept, reset) ==
              Handle(old(cfg.View()), old(sender.ser.View()), m, r, irqs)
    {
      kept := FromByte(m.cmd) == DFU;
      reply, reset := Execute(m, r, beyond);
      if reply.Some? {
        ReplyFits(old(cfg.View()), m, r);
        kept := SendReply(reply.value, irqs);
      } else if reset {
        kept := false;
      }
    }

    /** The command processor holds a packet and works on it while `during` arrives; the packet stays as it is. */
    method HandlePacket(r: Readings, beyond: seq<Byte>, during: seq<Byte>, irqs: Serial.Schedule)
      returns (kept: bool, m: Message, reply: Option<Packet>, reset: bool)
      requires Valid() && sys.pc == InCmd && |beyond| == 256 && r.Fits()
      modifies pkt, pkt.rxbuf, this`sys, cfg.parms, cfg.eeprom, sender.txpkt, sender.ser, sender.ser.txbuf
      ensures Valid() && sys == Run(old(sys), RxBytes(during)) && sys.pc == InCmd
      ensures m == MessageIn(old(pkt.rxbuf[..])) == MessageIn(pkt.rxbuf[..]) && m.Fits()
      ensures Result(cfg.View(), sender.ser.View(), reply, kept, reset) ==
              Handle(old(cfg.View()), old(sender.ser.View()), m, r, irqs)
    {
      m := MessageIn(pkt.rxbuf[..]);
      kept, reply, reset := RunCommand(m, r, beyond, irqs);
      Interrupt(during);
    }

    /** Interrupts, then the poll. */
    method PollAfter(before: seq<Byte>) returns (got: bool)
      requires Valid() && sys.pc == Top
      modifies pkt, pkt.rxbuf, this`sys, this`pktWaiting
      ensures Valid() && sys == Run(old(sys), RxBytes(before) + [Poll])
      ensures got == Run(old(sys), RxBytes(before)).rx.ready && sys.pc == if got then InCmd else Waiting
      ensures sys.rx.buf == Run(old(sys), RxBytes(before)).rx.buf
    {
      RunThen(sys, RxBytes(before), Poll);
      Interrupt(before);
      got := PollPacket();
    }

    /** Interrupts, then the timeout. */
    method WatchAfter(after: seq<Byte>, systick: nat)
      requires Valid() && sys.pc == Waiting && systick < 0x1_0000
      modifies pkt, pkt.rxbuf, this`sys, this`pktWaiting, this`pktTimeout
      ensures Valid() && sys.pc == Top
      ensures (sys, pktTimeout) == LookAt(Run(old(sys), RxBytes(after)), old(pktTimeout), systick)
    {
      Interrupt(after);
      WatchTimeout(systick);
    }

    /** The command processor passes the packet on to the main loop. */
    method KeepPacket()
      requires Valid() && sys.pc == InCmd
      modifies this`sys
      ensures Valid() && sys == Apply(old(sys), Keep) && sys.pc == InLoop
    {
      ActKeepsInv(sys, Keep);
      sys := Apply(sys, Keep);
    }

    /** The command processor is done with the packet. */
    method DropPacket()
      requires Valid() && sys.pc == InCmd
      modifies pkt`rxbufInUse, this`sys
      ensures Valid() && sys == Apply(old(sys), Drop) && sys.pc == Waiting
    {
      ActKeepsInv(sys, Drop);
      pkt.RxFree(pkt.rxbuf);
      sys := Apply(sys, Drop);
    }

    /** Pass the packet on to the main loop, or be done with it. */
    method KeepOrDrop(kept: bool)
      requires Valid() && sys.pc == InCmd
      modifies pkt`rxbufInUse, this`sys
      ensures Valid() && sys == Apply(old(sys), if kept then Keep else Drop)
      ensures sys.pc == if kept then InLoop else Waiting
    {
      if kept {
        KeepPacket();
      } else {
        DropPacket();
      }
    }

    /** Handle the packet, then keep or drop it, unless the boot loader took over. */
    method ServePacket(r: Readings, beyond: seq<Byte>, during: seq<Byte>, irqs: Serial.Schedule)
      returns (kept: bool, m: Message, reply: Option<Packet>, reset: bool)
      requires Valid() && sys.pc == InCmd && |beyond| == 256 && r.Fits()
      modifies pkt, pkt.rxbuf, this`sys, cfg.parms, cfg.eeprom, sender.txpkt, sender.ser, sender.ser.txbuf
      ensures Valid()
      ensures m == MessageIn(old(pkt.rxbuf[..])) && m.Fits()
      ensures Result(cfg.View(), sender.ser.View(), reply, kept, reset) ==
              Handle(old(cfg.View()), old(sender.ser.View()), m, r, irqs)
      ensures !reset ==> sys == Run(old(sys), RxBytes(during) + [if kept then Keep else Drop])
      ensures !reset ==> sys.pc == if kept then InLoop else Waiting
    {
      ghost var s := sys;
      kept, m, reply, reset := HandlePacket(r, beyond, during, irqs);
      if !reset {
        RunThen(s, RxBytes(during), if kept then Keep else Drop);
        KeepOrDrop(kept);
      }
    }

    /** Poll; if there is a packet, handle it. */
    method PollAndServe(r: Readings, beyond: seq<Byte>, a: Arrivals, irqs: Serial.Schedule)
      returns (kept: bool, handled: Option<Message>, reply: Option<Packet>, reset: bool)
      requires Valid() && sys.pc == Top && |beyond| == 256 && r.Fits()
      modifies pkt, pkt.rxbuf, this`sys, this`pktWaiting
      modifies cfg.parms, cfg.eeprom, sender.txpkt, sender.ser, sender.ser.txbuf
      ensures Valid()
      ensures handled == TakenUp(old(sys), a)
      ensures Result(cfg.View(), sender.ser.View(), reply, kept, reset) ==
              if handled.None? then Result(old(cfg.View()), old(sender.ser.View()), None, false, false)
              else Handle(old(cfg.View()), old(sender.ser.View()), handled.value, r, irqs)
      ensures !reset ==> sys == Run(old(sys), FirstActs(a, handled.Some?, kept))
      ensures !reset ==> sys.pc == if kept then InLoop else Waiting
    {
      ghost var s := sys;
      var got := PollAfter(a.before);
      kept, handled, reply, reset := false, None, None, false;
      if got {
        var m;
        kept, m, reply, reset := ServePacket(r, beyond, a.during, irqs);
        handled := Some(m);
      }
      RunConcat(s, RxBytes(a.before) + [Poll],
                if got then RxBytes(a.during) + [if kept then Keep else Drop] else []);
    }

    /**
     One call of `cmd_process`. A packet that was ready is handled and then kept or dropped; without one, or after
     dropping it, the timeout is looked at.
     */
    method CmdProcess(r: Readings, beyond: seq<Byte>, a: Arrivals, irqs: Serial.Schedule, systick: nat)
      returns (kept: bool, handled: Option<Message>, reply: Option<Packet>, reset: bool)
      requires Valid() && sys.pc == Top && |beyond| == 256 && r.Fits() && systick < 0x1_0000
      modifies this, pkt, pkt.rxbuf, cfg.parms, cfg.eeprom, sender.txpkt, sender.ser, sender.ser.txbuf
      ensures Valid()
      ensures handled == TakenUp(old(sys), a)
      ensures Result(cfg.View(), sender.ser.View(), reply, kept, reset) ==
              if handled.None? then Result(old(cfg.View()), old(sender.ser.View()), None, false, false)
              else Handle(old(cfg.View()), old(sender.ser.View()), handled.value, r, irqs)
      ensures !reset ==> (sys, pktTimeout) == CallAt(old(sys), old(pktTimeout), a, handled.Some?, kept, systick)
      ensures !reset ==> sys.pc == if kept then InLoop else Top
    {
      kept, handled, reply, reset := PollAndServe(r, beyond, a, irqs);
      if !reset && !kept {
        WatchAfter(a.after, systick);
      }
    }
  }

  lemma RunThen(s: Sys, a: seq<Act>, act: Act)
    requires Inv(s)
    ensures Run(s, a + [act]) == Apply(Run(s, a), act)
  {
    RunConcat(s, a, [act]);
    RunOne(Run(s, a), act);
  }
}
