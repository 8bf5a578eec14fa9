/** What the commands are for (doc/command.md): laws across commands, and what reaches the main loop. */
module CommandLaws {
  import opened Bytes
  import opened Packet
  import opened Command
  import CommandModule
  import Config
  import Link
  import Serial

  // ---------------------------------------------------------------- configuration

  /** The value that command `m` gives to parameter `id`, if it gives it one. */
  function Given(s: Config.Store, m: Message, r: Readings, id: nat): Option<seq<Byte>>
    requires m.Fits()
  {
    if FromByte(m.cmd) == ADDR && m.payload[..4] == r.uid && id == 1 then Some([m.addr])
    else if IsMine(s, m, SETPARM) && id == FromByte(m.payload[0]) && m.len == Config.ParmCount(id) + 1
    then Some(m.payload[1..m.len])
    else None
  }

  /**
   For all messages and parameters: a SETPARM or FACTORY for this node and an ADDR with its UID change the parameters
   they are meant to, and nothing else changes any.
   */
  lemma CommandsSetParameters(s: Config.Store, m: Message, r: Readings, id: nat)
    requires m.Fits() && Config.LegitId(id) && !IsMine(s, m, FACTORY)
    ensures Config.Get(Dispatch(s, m, r).0.ram, 12, id) ==
            if Given(s, m, r, id).Some? then Given(s, m, r, id) else Config.Get(s.ram, 12, id)
  {
    DispatchCases(s, m, r);
    if FromByte(m.cmd) == ADDR {
      AddrSets(s, m, r, id);
    } else if Mine(s, m) {
      OwnCommandSets(s, m, id);
    }
  }

  lemma OwnCommandSets(s: Config.Store, m: Message, id: nat)
    requires m.Fits() && Config.LegitId(id) && FromByte(m.cmd) != FACTORY
    ensures Config.Get(AddressedStore(s, m).ram, 12, id) ==
            if FromByte(m.cmd) == SETPARM && id == FromByte(m.payload[0]) && m.len == Config.ParmCount(id) + 1
            then Some(m.payload[1..m.len]) else Config.Get(s.ram, 12, id)
  {
    Config.SetThenGet(s, m.len, m.payload, id);
  }

  lemma AddrSets(s: Config.Store, m: Message, r: Readings, id: nat)
    requires m.Fits() && Config.LegitId(id) && FromByte(m.cmd) == ADDR
    ensures Config.Get(Address(s, m, r).0.ram, 12, id) ==
            if m.payload[..4] == r.uid && id == 1 then Some([m.addr]) else Config.Get(s.ram, 12, id)
  {
    if r.uid == m.payload[..4] {
      var value := [ADDR_PARM, m.addr];
      var s1 := Config.Set(s, 2, value).0;
      assert FromByte(value[0]) == 1 && value[1..2] == [m.addr];
      Config.SetThenGet(s, 2, value, id);
      Config.StoreKeepsParameters(s1);
      Config.SlotOfParms(Config.Commit(s1).ram, s1.ram, id);
    }
  }

  lemma ResetIsDefaults(s: Config.Store)
    ensures Config.Parms(Config.Reset(s).ram) == Config.Defaults()
    ensures Config.Parms(Config.PowerOn(Config.Reset(s).ee).ram) == Config.Defaults()
  {}

  lemma DefaultsAreUnassigned(s: Config.Store)
    requires Config.Parms(s.ram) == Config.Defaults()
    ensures NodeId(s) == UNASSIGNED
  {
    Config.DefaultValues(s.ram);
    assert NodeId(s) == Config.Slot(s.ram, 1)[0];
  }

  lemma FactoryIsReset(s: Config.Store, m: Message, r: Readings)
    requires m.Fits() && IsMine(s, m, FACTORY)
    ensures Dispatch(s, m, r).0 == Config.Reset(s)
  {
    DispatchCases(s, m, r);
  }

  /** A FACTORY for this node restores the defaults, now and after a power cycle, and leaves it unassigned. */
  lemma FactoryResets(s: Config.Store, m: Message, r: Readings)
    requires m.Fits() && IsMine(s, m, FACTORY)
    ensures var s' := Dispatch(s, m, r).0;
            && Config.Parms(s'.ram) == Config.Defaults() == Config.Parms(Config.PowerOn(s'.ee).ram)
            && NodeId(s') == UNASSIGNED
  {
    FactoryIsReset(s, m, r);
    ResetIsDefaults(s);
    DefaultsAreUnassigned(Config.Reset(s));
  }

  // ---------------------------------------------------------------- replies

  /** What the reply to each command carries; every reply is marked as one and repeats the command. */
  lemma ReplyContents(s: Config.Store, m: Message, r: Readings)
    requires m.Fits() && r.Fits() && Dispatch(s, m, r).1.Some?
    ensures var (s', reply) := Dispatch(s, m, r);
            var q, cmd := reply.value, FromByte(m.cmd);
            && q.flags == REPLY && q.cmd == m.cmd
            && (cmd == ADDR ==> q.addr == m.addr && q.payload == r.uid)
            && (cmd == UID ==> |q.payload| == 8 && q.payload[..4] == r.uid && q.payload[4..] == r.version)
            && (cmd == ADCRAW ==> q.payload == r.raw)
            && (cmd == STATUS ==> q.payload == r.status)
            && (cmd == SETPARM ==> q.payload == [m.payload[0]])
            && (cmd == GETPARM ==> |q.payload| >= 1 && q.payload[0] == m.payload[0])
            && (cmd == PING || cmd == SHUNTON || cmd == SHUNTOFF || cmd == TESTMODE || cmd == FACTORY ==>
                  q.addr == m.addr && q.payload == [])
            && (cmd != ADDR && cmd != FACTORY && cmd != SETPARM ==> q.addr == NodeId(s))
            && (cmd == SETPARM ==> q.addr == NodeId(s'))
  {
    TransmitsIff(s, m, r);
    DispatchCases(s, m, r);
    if FromByte(m.cmd) == ADDR {
      AddressCommand(s, m, r);
    }
  }

  lemma SetparmStores(s: Config.Store, m: Message, r: Readings)
    requires m.Fits() && IsMine(s, m, SETPARM)
    requires var id := FromByte(m.payload[0]); Config.LegitId(id) && m.len == Config.ParmCount(id) + 1
    ensures Config.Slot(Dispatch(s, m, r).0.ram, FromByte(m.payload[0])) == m.payload[1..m.len]
  {
    var id := FromByte(m.payload[0]);
    CommandsSetParameters(s, m, r, id);
    Config.GetIff(Dispatch(s, m, r).0.ram, 12, id);
  }

  /** SETPARM then GETPARM: the reply carries the parameter's ID and exactly the value that was set. */
  lemma SetparmThenGetparm(s: Config.Store, put: Message, ask: Message, r: Readings)
    requires put.Fits() && ask.Fits() && IsMine(s, put, SETPARM)
    requires var id := FromByte(put.payload[0]); Config.LegitId(id) && put.len == Config.ParmCount(id) + 1
    requires ask.payload[0] == put.payload[0] && IsMine(Dispatch(s, put, r).0, ask, GETPARM)
    ensures var reply := Dispatch(Dispatch(s, put, r).0, ask, r).1;
            reply.Some? && reply.value.payload == put.payload[..put.len]
  {
    SetparmStores(s, put, r);
    GetparmAnswers(Dispatch(s, put, r).0, ask, r);
    assert [put.payload[0]] + put.payload[1..put.len] == put.payload[..put.len];
  }

  /** GETPARM answers with the ID and the value, or the ID alone exactly if there is no such parameter. */
  lemma GetparmAnswers(s: Config.Store, m: Message, r: Readings)
    requires m.Fits() && IsMine(s, m, GETPARM)
    ensures var id := FromByte(m.payload[0]);
            var value := if Config.LegitId(id) then Config.Slot(s.ram, id) else [];
            Dispatch(s, m, r).1 == Some(Packet(REPLY, NodeId(s), m.cmd, [m.payload[0]] + value))
  {
    DispatchCases(s, m, r);
    Config.GetIff(s.ram, PAYLOAD_LEN, FromByte(m.payload[0]));
  }

  /** UID then ADDR: a node addressed by the first four bytes of its own UID reply takes the address and says so. */
  lemma UidThenAddr(s: Config.Store, ask: Message, assign: Message, r: Readings)
    requires ask.Fits() && assign.Fits() && r.Fits()
    requires FromByte(ask.cmd) == UID && Dispatch(s, ask, r).1.Some?
    requires FromByte(assign.cmd) == ADDR && assign.payload[..4] == Dispatch(s, ask, r).1.value.payload[..4]
    ensures var (s', reply) := Dispatch(s, assign, r);
            NodeId(s') == assign.addr && reply == Some(Packet(REPLY, assign.addr, assign.cmd, r.uid))
  {
    ReplyContents(s, ask, r);
    AddressCommand(s, assign, r);
    TransmitsIff(s, assign, r);
    ReplyContents(s, assign, r);
  }

  /** A reset node is unassigned and tells its UID to whoever asks address 0. */
  lemma ResetNodeAnswersUid(s: Config.Store, reset: Message, ask: Message, r: Readings)
    requires reset.Fits() && ask.Fits() && r.Fits() && IsMine(s, reset, FACTORY)
    requires FromByte(ask.cmd) == UID && FromByte(ask.addr) == 0
    ensures Dispatch(Dispatch(s, reset, r).0, ask, r).1 == Some(Packet(REPLY, UNASSIGNED, ask.cmd, r.uid + r.version))
  {
    FactoryResets(s, reset, r);
    FromByteInjective(ask.addr, UNASSIGNED);
    UnassignedAnswersUid(Dispatch(s, reset, r).0, ask, r);
  }

  lemma UnassignedAnswersUid(s: Config.Store, ask: Message, r: Readings)
    requires ask.Fits() && r.Fits() && NodeId(s) == UNASSIGNED && ask.addr == UNASSIGNED && FromByte(ask.cmd) == UID
    ensures Dispatch(s, ask, r).1 == Some(Packet(REPLY, UNASSIGNED, ask.cmd, r.uid + r.version))
  {
    TransmitsIff(s, ask, r);
    ReplyContents(s, ask, r);
    var q := Dispatch(s, ask, r).1.value;
    assert q.payload == q.payload[..4] + q.payload[4..];
  }

  // ---------------------------------------------------------------- what handling a message comes to

  lemma KeptWithReply(s: Config.Store, port: Serial.Port, m: Message, r: Readings, irqs: Serial.Schedule)
    requires m.Fits() && r.Fits() && Dispatch(s, m, r).1.Some?
    ensures var q, res := Dispatch(s, m, r).1.value, CommandModule.Handle(s, port, m, r, irqs);
            && q.Fits() && res.store == Dispatch(s, m, r).0 && res.reply == Some(q) && !res.reset
            && (res.port, res.kept) == Link.Send(port, q, irqs)
  {
    ReplyFits(s, m, r);
  }

  lemma KeptWithoutReply(s: Config.Store, port: Serial.Port, m: Message, r: Readings, irqs: Serial.Schedule)
    requires m.Fits() && r.Fits() && Dispatch(s, m, r).1.None?
    ensures var res := CommandModule.Handle(s, port, m, r, irqs);
            && res.store == Dispatch(s, m, r).0 && res.reply == None && res.port == port
            && (res.kept <==> FromByte(m.cmd) == DFU && !Mine(s, m))
            && (res.reset <==> IsMine(s, m, DFU))
  {}

  /**
   For all messages: the main loop is given exactly the packets whose reply went out whole and the other nodes' DFUs;
   the boot loader is entered exactly on an own DFU; and the transmitter takes the reply's frame and nothing else.
   */
  lemma HandledExactly(s: Config.Store, port: Serial.Port, m: Message, r: Readings, irqs: Serial.Schedule)
    requires m.Fits() && r.Fits() && port.Ok()
    ensures var res, (s', reply) := CommandModule.Handle(s, port, m, r, irqs), Dispatch(s, m, r);
            && res.store == s' && res.reply == reply && (reply.Some? ==> reply.value.Fits())
            && (reply.Some? ==> (res.kept <==> Link.Send(port, reply.value, irqs).1))
            && (reply.None? ==> (res.kept <==> FromByte(m.cmd) == DFU && !Mine(s, m)))
            && (res.reset <==> IsMine(s, m, DFU))
            && (reply.None? ==> res.port == port)
            && (reply.Some? && res.kept ==> Serial.Taken(res.port) == Serial.Taken(port) + Frame(reply.value))
  {
    TransmitsIff(s, m, r);
    if Dispatch(s, m, r).1.Some? {
      KeptWithReply(s, port, m, r, irqs);
      var q := Dispatch(s, m, r).1.value;
      if Link.Send(port, q, irqs).1 {
        Link.SendTakesFrame(port, q, irqs);
      }
    } else {
      KeptWithoutReply(s, port, m, r, irqs);
    }
  }
}
