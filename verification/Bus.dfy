/** Any number of nodes on one bus: who may transmit, and which addresses they end up with. */
module Bus {
  import opened Bytes
  import opened Packet
  import opened Command
  import Config

  datatype Node = Node(r: Readings, store: Config.Store, stale: seq<Byte>) {
    predicate Fits() {
      r.Fits() && |stale| == PAYLOAD_LEN
    }

    function Id(): Byte {
      NodeId(store)
    }
  }

  /** A node hears a packet: its new state, and what it tries to send. */
  function Hear(n: Node, p: Packet): (r: (Node, Option<Packet>))
    requires n.Fits() && p.Fits()
    ensures r.0.Fits() && r.0.r == n.r && (r.1.Some? ==> r.1.value.Fits())
  {
    var m := Command.Received(p, n.stale);
    var (store, reply) := Dispatch(n.store, m, n.r);
    assert reply.Some? ==> reply.value.Fits() by {
      if reply.Some? {
        ReplyFits(n.store, m, n.r);
      }
    }
    (n.(store := store, stale := m.payload), reply)
  }

  predicate AllFitNodes(bus: seq<Node>) {
    forall i :: 0 <= i < |bus| ==> bus[i].Fits()
  }

  predicate DistinctUids(bus: seq<Node>) {
    forall i, j :: 0 <= i < j < |bus| ==> bus[i].r.uid != bus[j].r.uid
  }

  /** Pairwise distinct addresses; in particular at most one node is unassigned. */
  predicate DistinctIds(bus: seq<Node>) {
    forall i, j :: 0 <= i < j < |bus| ==> bus[i].Id() != bus[j].Id()
  }

  /** The bus after every node heard the packet. */
  function HearAll(bus: seq<Node>, p: Packet): (bus': seq<Node>)
    requires AllFitNodes(bus) && p.Fits()
    ensures |bus'| == |bus|
    ensures forall i :: 0 <= i < |bus| ==> bus'[i] == Hear(bus[i], p).0
    ensures AllFitNodes(bus')
  {
    seq(|bus|, i requires 0 <= i < |bus| => Hear(bus[i], p).0)
  }

  /** The UID that an address command names to node `n`: what the packet leaves out is left over from earlier ones. */
  function Claimed(n: Node, p: Packet): (uid: seq<Byte>)
    requires n.Fits() && p.Fits()
    ensures |uid| == 4
    ensures |p.payload| >= 4 ==> uid == p.payload[..4]
  {
    var m := Command.Received(p, n.stale);
    assert |p.payload| >= 4 ==> m.payload[..4] == p.payload[..4];
    m.payload[..4]
  }

  /** Exactly when a node answers. */
  lemma HearsWhenever(n: Node, p: Packet)
    requires n.Fits() && p.Fits()
    ensures Hear(n, p).1.Some? <==>
            if FromByte(p.cmd) == ADDR then n.r.uid == Claimed(n, p)
            else if n.Id() == UNASSIGNED then p.addr == UNASSIGNED && FromByte(p.cmd) == UID
            else p.addr == n.Id() && Answered(FromByte(p.cmd))
  {
    TransmitsIff(n.store, Command.Received(p, n.stale), n.r);
  }

  /** For all packets: two nodes both answer if and only if it is an address command naming to each its own UID. */
  lemma BothTransmitIff(bus: seq<Node>, p: Packet, i: nat, j: nat)
    requires AllFitNodes(bus) && DistinctIds(bus) && p.Fits()
    requires i < |bus| && j < |bus| && i != j
    ensures Hear(bus[i], p).1.Some? && Hear(bus[j], p).1.Some? <==>
            FromByte(p.cmd) == ADDR && Claimed(bus[i], p) == bus[i].r.uid && Claimed(bus[j], p) == bus[j].r.uid
  {
    HearsWhenever(bus[i], p);
    HearsWhenever(bus[j], p);
    assert bus[i].Id() != bus[j].Id();
  }

  /** All nodes are named the same UID. */
  predicate OneClaim(bus: seq<Node>, p: Packet)
    requires AllFitNodes(bus) && p.Fits()
  {
    FromByte(p.cmd) == ADDR ==> forall i, j :: 0 <= i < j < |bus| ==> Claimed(bus[i], p) == Claimed(bus[j], p)
  }

  /** That is so with a full UID in the packet, and for nodes that heard the same packets before. */
  lemma FullUidIsOneClaim(bus: seq<Node>, p: Packet)
    requires AllFitNodes(bus) && p.Fits()
    requires |p.payload| >= 4 || forall i, j :: 0 <= i < j < |bus| ==> bus[i].stale == bus[j].stale
    ensures OneClaim(bus, p)
  {}

  /** No two nodes answer a packet that names one UID. */
  lemma AtMostOneTransmits(bus: seq<Node>, p: Packet, i: nat, j: nat)
    requires AllFitNodes(bus) && DistinctUids(bus) && DistinctIds(bus) && p.Fits() && OneClaim(bus, p)
    requires i < |bus| && j < |bus| && i != j
    ensures !(Hear(bus[i], p).1.Some? && Hear(bus[j], p).1.Some?)
  {
    BothTransmitIff(bus, p, i, j);
    assert bus[i].r.uid != bus[j].r.uid;
  }

  /** A node whose UID is the packet's, completed by `last` where the packet ends short and the buffer holds `last`. */
  function Completed(n: Node, p: Packet, last: Byte): (n': Node)
    requires n.Fits() && |p.payload| < 4
    ensures n'.Fits() && n'.store == n.store
  {
    n.(stale := EndingIn(last), r := n.r.(uid := (p.payload + EndingIn(last)[|p.payload|..])[..4]))
  }

  /** Payload bytes left over from earlier packets: the fourth one is `last`. */
  function EndingIn(last: Byte): (stale: seq<Byte>)
    ensures |stale| == PAYLOAD_LEN && stale[3] == last
  {
    seq(PAYLOAD_LEN, k requires 0 <= k => if k == 3 then last else ZERO)
  }

  lemma CompletedAnswers(n: Node, p: Packet, last: Byte)
    requires n.Fits() && p.Fits() && FromByte(p.cmd) == ADDR && |p.payload| < 4
    ensures Hear(Completed(n, p, last), p).1.Some? && Completed(n, p, last).r.uid[3] == last
  {
    HearsWhenever(Completed(n, p, last), p);
  }

  lemma TwoNodes(a: Node, b: Node)
    requires a.r.uid != b.r.uid && a.Id() != b.Id()
    ensures DistinctUids([a, b]) && DistinctIds([a, b])
  {}

  /** The limit: an address command shorter than a UID is answered by both of two nodes that complete it differently. */
  lemma ShortAddressAnsweredTwice(n: Node, m: Node, p: Packet)
    requires n.Fits() && m.Fits() && n.Id() != m.Id()
    requires p.Fits() && FromByte(p.cmd) == ADDR && |p.payload| < 4
    ensures var bus := [Completed(n, p, ToByte(0)), Completed(m, p, ToByte(1))];
            && DistinctUids(bus) && DistinctIds(bus)
            && Hear(bus[0], p).1.Some? && Hear(bus[1], p).1.Some?
  {
    CompletedAnswers(n, p, ToByte(0));
    CompletedAnswers(m, p, ToByte(1));
    var a, b := Completed(n, p, ToByte(0)), Completed(m, p, ToByte(1));
    assert FromByte(a.r.uid[3]) != FromByte(b.r.uid[3]);
    TwoNodes(a, b);
  }

  // ---------------------------------------------------------------- replies

  /** A reply that carries the node's UID, or one that does not name any. */
  predicate NamesOnly(q: Packet, uid: seq<Byte>) {
    q.Fits() && (FromByte(q.cmd) == ADDR ==> q.payload == uid && |uid| == 4)
  }

  lemma AddressedFields(s: Config.Store, m: Message, r: Readings)
    requires m.Fits() && r.Fits() && Addressed(s, m, r).1.Some? && m.addr == NodeId(s)
    ensures var (s', q) := Addressed(s, m, r);
            q.value.cmd == m.cmd && q.value.addr == if FromByte(m.cmd) == SETPARM then NodeId(s') else NodeId(s)
  {}

  lemma ReplyFields(s: Config.Store, m: Message, r: Readings)
    requires m.Fits() && r.Fits() && Dispatch(s, m, r).1.Some?
    ensures var (s', q) := Dispatch(s, m, r);
            && q.value.cmd == m.cmd
            && (FromByte(m.cmd) == ADDR ==> q.value.payload == r.uid)
            && (FromByte(m.cmd) == SETPARM ==> q.value.addr == NodeId(s'))
            && (FromByte(m.cmd) != ADDR && FromByte(m.cmd) != SETPARM ==> q.value.addr == NodeId(s))
  {
    if FromByte(m.cmd) == ADDR {
      assert Dispatch(s, m, r) == Address(s, m, r);
    } else if NodeId(s) != UNASSIGNED {
      assert Dispatch(s, m, r) == Addressed(s, m, r);
      AddressedFields(s, m, r);
    }
  }

  /** A reply carries the address the node has afterwards, except acknowledgements, which echo the packet's. */
  lemma ReplyHeader(n: Node, p: Packet)
    requires n.Fits() && p.Fits() && Hear(n, p).1.Some?
    ensures var (n', q) := Hear(n, p);
            && q.value.cmd == p.cmd && NamesOnly(q.value, n.r.uid)
            && (FromByte(p.cmd) == SETPARM ==> q.value.addr == n'.Id())
            && (FromByte(p.cmd) != ADDR && FromByte(p.cmd) != SETPARM ==> q.value.addr == n.Id())
  {
    ReplyFields(n.store, Command.Received(p, n.stale), n.r);
  }

  /**
   For all packets: the reply of one node makes another answer exactly when a set-parameter command has just given
   the replier that other node's address.
   */
  lemma ReplyHeardInSilence(bus: seq<Node>, p: Packet, i: nat, j: nat)
    requires AllFitNodes(bus) && DistinctUids(bus) && DistinctIds(bus) && p.Fits()
    requires i < |bus| && j < |bus| && i != j && Hear(bus[i], p).1.Some?
    ensures var q := Hear(bus[i], p).1.value;
            Hear(Hear(bus[j], p).0, q).1.Some? <==>
            FromByte(p.cmd) == SETPARM && Hear(bus[i], p).0.Id() == bus[j].Id() != UNASSIGNED
    ensures Hear(bus[j], p).1.None? ==> bus[j].Id() == Hear(bus[j], p).0.Id()
  {
    assert bus[i].r.uid != bus[j].r.uid && bus[i].Id() != bus[j].Id();
    var q, n := Hear(bus[i], p).1.value, Hear(bus[j], p).0;
    ReplyHeader(bus[i], p);
    HearsWhenever(bus[i], p);
    HearsWhenever(n, q);
    if Hear(bus[j], p).1.None? {
      SilentUnchanged(bus[j].store, Command.Received(p, bus[j].stale), bus[j].r);
    } else {
      BothTransmitIff(bus, p, i, j);
    }
  }

  /** With distinct addresses before and after, a reply is the only one, and nobody answers it. */
  lemma OneReplyThenSilence(bus: seq<Node>, p: Packet, i: nat, j: nat)
    requires AllFitNodes(bus) && DistinctUids(bus) && DistinctIds(bus) && p.Fits() && OneClaim(bus, p)
    requires DistinctIds(HearAll(bus, p))
    requires i < |bus| && j < |bus| && i != j && Hear(bus[i], p).1.Some?
    ensures Hear(bus[j], p).1.None?
    ensures Hear(HearAll(bus, p)[j], Hear(bus[i], p).1.value).1.None?
  {
    AtMostOneTransmits(bus, p, i, j);
    ReplyHeardInSilence(bus, p, i, j);
    var after := HearAll(bus, p);
    assert after[i].Id() != after[j].Id();
  }

  /**
   The case the previous lemma excludes: two nodes with the same address answer each other's
   set-parameter replies with the same packet for ever.
   */
  lemma DuplicateAddressEchoes(n: Node, q: Packet)
    requires n.Fits() && q.Fits()
    requires q.flags == REPLY && FromByte(q.cmd) == SETPARM && |q.payload| == 1
    requires q.addr == n.Id() != UNASSIGNED
    ensures Hear(n, q).1 == Some(q) && Hear(n, q).0.store == n.store
  {
    var m := Command.Received(q, n.stale);
    assert [m.payload[0]] == q.payload;
  }

  // ---------------------------------------------------------------- address assignment

  datatype Event = Assign(p: Packet) | PowerCycle(nodes: set<nat>)

  predicate IsAssignment(e: Event) {
    e.Assign? ==> e.p.Fits() && FromByte(e.p.cmd) == ADDR
  }

  /** Address packets carry a full UID. */
  predicate NamesUid(e: Event) {
    IsAssignment(e) && (e.Assign? ==> |e.p.payload| >= 4)
  }

  predicate AllAssign(es: seq<Event>) {
    forall e :: e in es ==> IsAssignment(e)
  }

  predicate AllName(es: seq<Event>): (b: bool)
    ensures b ==> AllAssign(es)
  {
    forall e :: e in es ==> NamesUid(e) && IsAssignment(e)
  }

  function Cleared(): (stale: seq<Byte>)
    ensures |stale| == PAYLOAD_LEN
  {
    seq(PAYLOAD_LEN, _ => ZERO)
  }

  function Restart(n: Node): (n': Node)
    requires n.Fits()
    ensures n'.Fits()
  {
    n.(store := Config.PowerOn(n.store.ee), stale := Cleared())
  }

  function React(n: Node, i: nat, e: Event): (n': Node)
    requires n.Fits() && IsAssignment(e)
    ensures n'.Fits() && n'.r == n.r
  {
    match e
    case Assign(p) => Hear(n, p).0
    case PowerCycle(nodes) => if i in nodes then Restart(n) else n
  }

  function ReactAll(bus: seq<Node>, es: seq<Event>): (bus': seq<Node>)
    requires AllFitNodes(bus) && AllAssign(es)
    ensures |bus'| == |bus|
    decreases |es|
  {
    if es == [] then bus
    else ReactAll(seq(|bus|, i requires 0 <= i < |bus| => React(bus[i], i, es[0])), es[1..])
  }

  /** The payload area of node `i` after an event. */
  function StaleAfter(stale: seq<Byte>, i: nat, e: Event): (stale': seq<Byte>)
    requires IsAssignment(e) && |stale| == PAYLOAD_LEN
    ensures |stale'| == PAYLOAD_LEN
  {
    match e
    case Assign(p) => Command.Received(p, stale).payload
    case PowerCycle(nodes) => if i in nodes then Cleared() else stale
  }

  /** The address in the last assignment that names `uid` to node `i`, or `before` if none does. */
  function LastClaimed(uid: seq<Byte>, stale: seq<Byte>, i: nat, es: seq<Event>, before: Byte): Byte
    requires |stale| == PAYLOAD_LEN && AllAssign(es)
    decreases |es|
  {
    if es == [] then before else
      assert IsAssignment(es[0]);
      var stale' := StaleAfter(stale, i, es[0]);
      LastClaimed(uid, stale', i, es[1..], if es[0].Assign? && stale'[..4] == uid then es[0].p.addr else before)
  }

  /** The address in the last assignment that carries the UID, or `before` if none does. */
  function LastAssigned(uid: seq<Byte>, es: seq<Event>, before: Byte): Byte
    requires AllName(es)
    decreases |es|
  {
    if es == [] then before else
      assert NamesUid(es[0]);
      LastAssigned(uid, es[1..],
                   if es[0].Assign? && es[0].p.payload[..4] == uid then es[0].p.addr else before)
  }

  lemma ReactAddress(n: Node, i: nat, e: Event)
    requires n.Fits() && IsAssignment(e) && Config.WriteThrough(n.store)
    ensures Config.WriteThrough(React(n, i, e).store) && React(n, i, e).stale == StaleAfter(n.stale, i, e)
    ensures React(n, i, e).Id() == if e.Assign? && Claimed(n, e.p) == n.r.uid then e.p.addr else n.Id()
  {
    match e
    case Assign(p) => AssignAddress(n, p);
    case PowerCycle(_) => PowerOnKeepsAddress(n.store);
  }

  lemma AssignAddress(n: Node, p: Packet)
    requires n.Fits() && p.Fits() && FromByte(p.cmd) == ADDR && Config.WriteThrough(n.store)
    ensures Config.WriteThrough(Hear(n, p).0.store)
    ensures Hear(n, p).0.Id() == if Claimed(n, p) == n.r.uid then p.addr else n.Id()
  {
    var m := Command.Received(p, n.stale);
    AddressCommand(n.store, m, n.r);
    Config.OpKeepsWriteThrough(n.store, Config.SetOp(2, [ADDR_PARM, m.addr]));
    Config.OpKeepsWriteThrough(Config.Set(n.store, 2, [ADDR_PARM, m.addr]).0, Config.StoreOp);
  }

  lemma PowerOnKeepsAddress(s: Config.Store)
    requires Config.WriteThrough(s)
    ensures NodeId(Config.PowerOn(s.ee)) == NodeId(s) && Config.WriteThrough(Config.PowerOn(s.ee))
  {
    Config.OpKeepsWriteThrough(s, Config.PowerCycle);
    assert NodeId(s) == Config.Parms(s.ram)[0];
    assert NodeId(Config.PowerOn(s.ee)) == Config.Parms(Config.Load(s.ee))[0];
  }

  /**
   After any sequence of address commands of any length, with any nodes power-cycled at any time, every node has the
   address of the last command that named its UID to it, or the address it started with.
   */
  lemma {:induction false} AddressesAreLastClaimed(bus: seq<Node>, es: seq<Event>, i: nat)
    requires AllFitNodes(bus) && i < |bus|
    requires forall k :: 0 <= k < |bus| ==> Config.WriteThrough(bus[k].store)
    requires AllAssign(es)
    ensures ReactAll(bus, es)[i].Id() == LastClaimed(bus[i].r.uid, bus[i].stale, i, es, bus[i].Id())
    decreases |es|
  {
    if es != [] {
      var bus' := seq(|bus|, k requires 0 <= k < |bus| => React(bus[k], k, es[0]));
      forall k | 0 <= k < |bus| ensures Config.WriteThrough(bus'[k].store) {
        ReactAddress(bus[k], k, es[0]);
      }
      ReactAddress(bus[i], i, es[0]);
      AddressesAreLastClaimed(bus', es[1..], i);
    }
  }

  lemma {:induction false} ClaimedIsAssigned(uid: seq<Byte>, stale: seq<Byte>, i: nat, es: seq<Event>, before: Byte)
    requires |stale| == PAYLOAD_LEN && AllName(es)
    ensures LastClaimed(uid, stale, i, es, before) == LastAssigned(uid, es, before)
    decreases |es|
  {
    if es != [] {
      var stale' := StaleAfter(stale, i, es[0]);
      if es[0].Assign? {
        assert stale'[..4] == es[0].p.payload[..4];
      }
      ClaimedIsAssigned(uid, stale', i, es[1..],
                        if es[0].Assign? && stale'[..4] == uid then es[0].p.addr else before);
    }
  }

  /** When the commands carry full UIDs, that is the last command with the node's UID. */
  lemma AddressesAreLastAssigned(bus: seq<Node>, es: seq<Event>, i: nat)
    requires AllFitNodes(bus) && i < |bus|
    requires forall k :: 0 <= k < |bus| ==> Config.WriteThrough(bus[k].store)
    requires AllName(es)
    ensures ReactAll(bus, es)[i].Id() == LastAssigned(bus[i].r.uid, es, bus[i].Id())
  {
    AddressesAreLastClaimed(bus, es, i);
    ClaimedIsAssigned(bus[i].r.uid, bus[i].stale, i, es, bus[i].Id());
  }
}
