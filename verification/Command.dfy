/** What one node does with one packet (src/cmd.c), on values. */
module Command {
  import opened Bytes
  import opened Packet
  import Config

  const PING: nat := 1
  const DFU: nat := 2
  const UID: nat := 3
  const ADDR: nat := 4
  const ADCRAW: nat := 5
  const STATUS: nat := 6
  const SHUNTON: nat := 7
  const SHUNTOFF: nat := 8
  const SETPARM: nat := 9
  const GETPARM: nat := 10
  const TESTMODE: nat := 11
  const FACTORY: nat := 12

  const REPLY: Byte := ToByte(0x80)
  const UNASSIGNED: Byte := ToByte(0)
  const ADDR_PARM: Byte := ToByte(1)

  /** A packet as it lies in the receive buffer: bytes behind the payload are left over from earlier packets. */
  datatype Message = Message(flags: Byte, addr: Byte, cmd: Byte, len: nat, payload: seq<Byte>) {
    predicate Fits() {
      len <= PAYLOAD_LEN && |payload| == PAYLOAD_LEN
    }
  }

  /** The packet `p` received over a buffer whose payload bytes were `stale`. */
  function Received(p: Packet, stale: seq<Byte>): (m: Message)
    requires p.Fits() && |stale| == PAYLOAD_LEN
    ensures m.Fits()
  {
    Message(p.flags, p.addr, p.cmd, |p.payload|, p.payload + stale[|p.payload|..])
  }

  /** Measurements and constants that only go into reply payloads. */
  datatype Readings = Readings(uid: seq<Byte>, version: seq<Byte>, raw: seq<Byte>, status: seq<Byte>) {
    predicate Fits() {
      |uid| == 4 && |version| == 4 && |raw| == 8 && |status| == 10
    }
  }

  /** The node's address. */
  function NodeId(s: Config.Store): Byte {
    s.ram[Config.PARMS]
  }

  function Ack(m: Message): Packet {
    Packet(REPLY, m.addr, m.cmd, [])
  }

  /** The address command: the node whose UID it carries takes the packet's address, for good, and echoes the UID. */
  function Address(s: Config.Store, m: Message, r: Readings): (Config.Store, Option<Packet>)
    requires m.Fits()
  {
    if r.uid != m.payload[..4] then (s, None)
    else
      var s' := Config.Commit(Config.Set(s, 2, [ADDR_PARM, m.addr]).0);
      (s', Some(Packet(REPLY, NodeId(s'), m.cmd, m.payload[..4])))
  }

  /** What a command addressed to this node makes of the configuration. */
  function AddressedStore(s: Config.Store, m: Message): Config.Store
    requires m.Fits()
  {
    if FromByte(m.cmd) == SETPARM then Config.Set(s, m.len, m.payload).0
    else if FromByte(m.cmd) == FACTORY then Config.Reset(s)
    else s
  }

  /** The value of the parameter asked for, if there is one. */
  function Asked(s: Config.Store, m: Message): (v: seq<Byte>)
    requires m.Fits()
    ensures |v| <= 2
  {
    var v := Config.Get(s.ram, PAYLOAD_LEN, FromByte(m.payload[0]));
    if v.Some? then v.value else []
  }

  /** The reply to a command addressed to this node; `s` is the configuration after it. */
  function AddressedReply(s: Config.Store, m: Message, r: Readings): Option<Packet>
    requires m.Fits()
  {
    var cmd := FromByte(m.cmd);
    if cmd == PING || cmd == SHUNTON || cmd == SHUNTOFF || cmd == TESTMODE || cmd == FACTORY then Some(Ack(m))
    else if cmd == UID then Some(Packet(REPLY, NodeId(s), m.cmd, r.uid + r.version))
    else if cmd == ADCRAW then Some(Packet(REPLY, NodeId(s), m.cmd, r.raw))
    else if cmd == STATUS then Some(Packet(REPLY, NodeId(s), m.cmd, r.status))
    else if cmd == GETPARM then Some(Packet(REPLY, NodeId(s), m.cmd, [m.payload[0]] + Asked(s, m)))
    else if cmd == SETPARM then Some(Packet(REPLY, NodeId(s), m.cmd, [m.payload[0]]))
    else None
  }

  /** A command addressed to this node. */
  function Addressed(s: Config.Store, m: Message, r: Readings): (Config.Store, Option<Packet>)
    requires m.Fits()
  {
    (AddressedStore(s, m), AddressedReply(AddressedStore(s, m), m, r))
  }

  /** The new configuration, and the packet the node tries to send, if any. */
  function Dispatch(s: Config.Store, m: Message, r: Readings): (Config.Store, Option<Packet>)
    requires m.Fits()
  {
    if FromByte(m.cmd) == ADDR then Address(s, m, r)
    else if NodeId(s) == UNASSIGNED then
      if m.addr == UNASSIGNED && FromByte(m.cmd) == UID
      then (s, Some(Packet(REPLY, NodeId(s), m.cmd, r.uid + r.version)))
      else (s, None)
    else if m.addr == NodeId(s) then Addressed(s, m, r)
    else (s, None)
  }

  /** The message is a command for this node. */
  predicate Mine(s: Config.Store, m: Message) {
    m.addr == NodeId(s) && NodeId(s) != UNASSIGNED
  }

  predicate IsMine(s: Config.Store, m: Message, cmd: nat) {
    FromByte(m.cmd) == cmd && Mine(s, m)
  }

  /** The commands a node answers when they carry its address. */
  predicate Answered(cmd: nat) {
    cmd == PING || (UID <= cmd <= FACTORY && cmd != ADDR)
  }

  lemma AddressedAnswers(s: Config.Store, m: Message, r: Readings)
    requires m.Fits()
    ensures Addressed(s, m, r).1.Some? <==> Answered(FromByte(m.cmd))
  {}

  /** Exactly when a node transmits, without reference to what it does otherwise. */
  lemma TransmitsIff(s: Config.Store, m: Message, r: Readings)
    requires m.Fits()
    ensures Dispatch(s, m, r).1.Some? <==>
            if FromByte(m.cmd) == ADDR then r.uid == m.payload[..4]
            else if NodeId(s) == UNASSIGNED then m.addr == UNASSIGNED && FromByte(m.cmd) == UID
            else m.addr == NodeId(s) && Answered(FromByte(m.cmd))
  {
    if FromByte(m.cmd) != ADDR && Mine(s, m) {
      assert Dispatch(s, m, r) == Addressed(s, m, r);
      AddressedAnswers(s, m, r);
    }
  }

  /** The address byte of a block is the byte set by parameter 1. */
  lemma SetAddress(s: Config.Store, len: nat, value: seq<Byte>)
    requires |value| >= 1 && len <= |value|
    ensures NodeId(Config.Set(s, len, value).0) ==
            if FromByte(value[0]) == 1 && len == 2 then value[1] else NodeId(s)
  {
    if Config.SetAccepted(len, value) {
      var id := FromByte(value[0]);
      var b := Config.Put(s.ram, id, value[1..len]);
      assert Config.Parms(Config.Committed(b))[0] == Config.Parms(b)[0] == b[Config.PARMS];
    }
  }

  /** A committed block keeps the address. */
  lemma CommitKeepsAddress(s: Config.Store)
    ensures NodeId(Config.Commit(s)) == NodeId(s)
  {
    assert Config.Parms(Config.Committed(s.ram))[0] == Config.Parms(s.ram)[0];
  }

  /** The address command sets the address of the node it names, and of no other. */
  lemma AddressCommand(s: Config.Store, m: Message, r: Readings)
    requires m.Fits() && FromByte(m.cmd) == ADDR
    ensures NodeId(Dispatch(s, m, r).0) == if r.uid == m.payload[..4] then m.addr else NodeId(s)
    ensures r.uid != m.payload[..4] ==> Dispatch(s, m, r).0 == s
  {
    var s1 := Config.Set(s, 2, [ADDR_PARM, m.addr]).0;
    SetAddress(s, 2, [ADDR_PARM, m.addr]);
    CommitKeepsAddress(s1);
  }

  lemma AddressedSilent(s: Config.Store, m: Message, r: Readings)
    requires m.Fits() && Addressed(s, m, r).1.None?
    ensures Addressed(s, m, r).0 == s
  {
    AddressedAnswers(s, m, r);
  }

  /** A node that does not transmit keeps its configuration. */
  lemma SilentUnchanged(s: Config.Store, m: Message, r: Readings)
    requires m.Fits() && Dispatch(s, m, r).1.None?
    ensures Dispatch(s, m, r).0 == s
  {
    if FromByte(m.cmd) != ADDR && Mine(s, m) {
      assert Dispatch(s, m, r) == Addressed(s, m, r);
      AddressedSilent(s, m, r);
    }
  }

  /** Every reply fits a packet. */
  lemma ReplyFits(s: Config.Store, m: Message, r: Readings)
    requires m.Fits() && r.Fits() && Dispatch(s, m, r).1.Some?
    ensures Dispatch(s, m, r).1.value.Fits()
  {
    if FromByte(m.cmd) != ADDR && NodeId(s) != UNASSIGNED {
      AddressedFits(s, m, r);
    }
  }

  lemma AddressedFits(s: Config.Store, m: Message, r: Readings)
    requires m.Fits() && r.Fits() && Addressed(s, m, r).1.Some?
    ensures Addressed(s, m, r).1.value.Fits()
  {}

  lemma AddressWritesThrough(s: Config.Store, m: Message, r: Readings)
    requires m.Fits() && Config.WriteThrough(s)
    ensures Config.WriteThrough(Address(s, m, r).0)
  {
    var value := [ADDR_PARM, m.addr];
    Config.OpKeepsWriteThrough(s, Config.SetOp(2, value));
    Config.OpKeepsWriteThrough(Config.Set(s, 2, value).0, Config.StoreOp);
  }

  lemma AddressedWritesThrough(s: Config.Store, m: Message, r: Readings)
    requires m.Fits() && Config.WriteThrough(s)
    ensures Config.WriteThrough(Addressed(s, m, r).0)
  {
    Config.OpKeepsWriteThrough(s, Config.SetOp(m.len, m.payload));
    Config.OpKeepsWriteThrough(s, Config.ResetOp);
  }

  /** No command leaves RAM and EEPROM apart. */
  lemma DispatchWritesThrough(s: Config.Store, m: Message, r: Readings)
    requires m.Fits() && Config.WriteThrough(s)
    ensures Config.WriteThrough(Dispatch(s, m, r).0)
  {
    DispatchCases(s, m, r);
    if FromByte(m.cmd) == ADDR {
      AddressWritesThrough(s, m, r);
    } else if Mine(s, m) {
      AddressedWritesThrough(s, m, r);
    }
  }

  lemma DispatchCases(s: Config.Store, m: Message, r: Readings)
    requires m.Fits()
    ensures FromByte(m.cmd) == ADDR ==> Dispatch(s, m, r) == Address(s, m, r)
    ensures FromByte(m.cmd) != ADDR && Mine(s, m) ==> Dispatch(s, m, r) == Addressed(s, m, r)
    ensures FromByte(m.cmd) != ADDR && !Mine(s, m) ==> Dispatch(s, m, r).0 == s
  {}
}
