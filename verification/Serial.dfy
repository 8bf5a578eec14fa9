/** The serial transmitter (src/ser.c): a 32-slot ring drained by interrupts, and the duplex switch. */
module Serial {
  import opened Bytes

  const RING: nat := 32
  const CAPACITY: nat := 31

  /** What the transmitter looks like from outside: bytes queued, bytes on the wire, and the control bits. */
  datatype Port = Port(
    queue: seq<Byte>, wire: seq<Byte>,
    dreie: bool,   // data-register-empty interrupt enabled
    txcie: bool,   // transmit-complete interrupt enabled
    txen: bool,    // transmitter on
    rxen: bool)    // receiver on
  {
    /** Outside `ser_write`: nothing queued is forgotten, and the receiver is only off while a transmission runs. */
    predicate Ok() {
      && |queue| <= CAPACITY
      && (queue != [] ==> dreie && txcie && txen)
      && (!rxen ==> txcie)
    }

    predicate Active() {
      queue != [] || dreie || txcie
    }
  }

  datatype Irq = Dre | Txc

  /** An interrupt is served only while it is enabled. */
  function Serve(p: Port, irq: Irq): Port {
    match irq
    case Dre =>
      if !p.dreie then p
      else if p.queue != [] then p.(queue := p.queue[1..], wire := p.wire + [p.queue[0]])
      else p.(dreie := false)
    case Txc =>
      if !p.txcie then p
      else if p.queue != [] then p.(dreie := true, txcie := true)
      else p.(txcie := false, txen := false, rxen := true)
  }

  function ServeAll(p: Port, irqs: seq<Irq>): Port
    decreases |irqs|
  {
    if irqs == [] then p else ServeAll(Serve(p, irqs[0]), irqs[1..])
  }

  /** The interrupts that arrive before each turn of the copying loop, and before the duplex switch. */
  type Schedule = nat -> seq<Irq>

  predicate Full(p: Port) {
    |p.queue| >= CAPACITY
  }

  function Push(p: Port, b: Byte): Port {
    p.(queue := p.queue + [b])
  }

  /** The copying loop from byte `k` on; it stops at the first turn that finds the ring full. */
  function Copy(p: Port, bytes: seq<Byte>, irqs: Schedule, k: nat): (r: (Port, nat))
    requires k <= |bytes|
    ensures k <= r.1 <= |bytes|
    decreases |bytes| - k
  {
    if Full(p) || k == |bytes| then (p, k)
    else Copy(ServeAll(Push(p, bytes[k]), irqs(k + 1)), bytes, irqs, k + 1)
  }

  function SwitchToTransmit(p: Port): Port {
    p.(rxen := false, txen := true, dreie := true, txcie := true)
  }

  /** `ser_write`: the new state and the number of bytes taken. */
  function Write(p: Port, bytes: seq<Byte>, irqs: Schedule): (Port, nat) {
    var r := Copy(ServeAll(p, irqs(0)), bytes, irqs, 0);
    (SwitchToTransmit(ServeAll(r.0, irqs(|bytes| + 1))), r.1)
  }

  // ---------------------------------------------------------------- the ring

  /** The bytes between tail and head, in order. */
  function Queued(ring: seq<Byte>, tail: nat, n: nat): (q: seq<Byte>)
    requires |ring| == RING
    ensures |q| == n
    ensures forall i :: 0 <= i < n ==> q[i] == ring[(tail + i) % RING]
  {
    seq(n, i requires 0 <= i => ring[(tail + i) % RING])
  }

  lemma HeadAdvances(head: nat, tail: nat)
    requires head < RING && tail < RING && (head - tail) % RING < CAPACITY
    ensures head == (tail + (head - tail) % RING) % RING
    ensures ((head + 1) % RING - tail) % RING == (head - tail) % RING + 1
  {}

  lemma QueuedPush(ring: seq<Byte>, tail: nat, n: nat, b: Byte)
    requires |ring| == RING && tail < RING && n < CAPACITY
    ensures Queued(ring[(tail + n) % RING := b], tail, n + 1) == Queued(ring, tail, n) + [b]
  {
    var ring' := ring[(tail + n) % RING := b];
    forall i | 0 <= i < n ensures Queued(ring', tail, n + 1)[i] == Queued(ring, tail, n)[i] {
      assert (tail + i) % RING != (tail + n) % RING;
    }
  }

  lemma QueuedDrop(ring: seq<Byte>, tail: nat, n: nat)
    requires |ring| == RING && tail < RING && 0 < n <= CAPACITY
    ensures Queued(ring, (tail + 1) % RING, n - 1) == Queued(ring, tail, n)[1..]
    ensures Queued(ring, tail, n)[0] == ring[tail]
  {
    var t := (tail + 1) % RING;
    var q, rest := Queued(ring, tail, n), Queued(ring, t, n - 1);
    forall i | 0 <= i < n - 1 ensures rest[i] == q[i + 1] {
      assert (t + i) % RING == (tail + (i + 1)) % RING;
    }
  }

  class Ser {
    var headp: nat
    var tailp: nat
    const txbuf: array<Byte>
    var dreie: bool
    var txcie: bool
    var txen: bool
    var rxen: bool
    ghost var wire: seq<Byte>

    ghost predicate Valid()
      reads this
    {
      txbuf.Length == RING && headp < RING && tailp < RING
    }

    /** How far the head is ahead of the tail. */
    function BufCnt(): (n: nat)
      reads this
      ensures n < RING
      ensures headp < RING ==> headp == (tailp + n) % RING
    {
      (headp - tailp) % RING
    }

    ghost function View(): Port
      requires Valid()
      reads this, txbuf
    {
      Port(Queued(txbuf[..], tailp, BufCnt()), wire, dreie, txcie, txen, rxen)
    }

    /** State after reset: transmitter and receiver both on, no interrupts, empty ring. */
    constructor ()
      ensures Valid() && fresh(txbuf)
      ensures View() == Port([], [], false, false, true, true)
    {
      headp, tailp := 0, 0;
      txbuf := new Byte[RING](_ => ZERO);
      dreie, txcie, txen, rxen := false, false, true, true;
      wire := [];
    }

    method IsActive(rxcif: bool) returns (active: bool)
      requires Valid()
      ensures active == (View().Active() || rxcif)
    {
      active := false;
      if headp != tailp || dreie || txcie || rxcif {
        active := true;
      }
    }

    /** One turn of the copying loop: store, advance, wrap. */
    method Enqueue(b: Byte)
      requires Valid() && BufCnt() < CAPACITY
      modifies this`headp, txbuf
      ensures Valid() && View() == old(View().(queue := View().queue + [b]))
    {
      HeadAdvances(headp, tailp);
      QueuedPush(txbuf[..], tailp, BufCnt(), b);
      txbuf[headp] := b;
      assert txbuf[..] == old(txbuf[..])[headp := b];
      headp := headp + 1;
      headp := headp % RING;
    }

    method DreIsr()
      requires Valid()
      modifies this`tailp, this`dreie, this`wire
      ensures Valid() && View() == Serve(old(View()), Dre)
    {
      if dreie {
        if headp != tailp {
          QueuedDrop(txbuf[..], tailp, BufCnt());
          var data := txbuf[tailp];
          wire := wire + [data];
          tailp := tailp + 1;
          tailp := tailp % RING;
          assert BufCnt() == old(BufCnt()) - 1;
        } else {
          dreie := false;
        }
      }
    }

    method TxcIsr()
      requires Valid()
      modifies this`dreie, this`txcie, this`txen, this`rxen
      ensures Valid() && View() == Serve(old(View()), Txc)
    {
      if txcie {
        if headp != tailp {
          dreie, txcie := true, true;
        } else {
          txcie := false;
          txen := false;
          rxen := true;
        }
      }
    }

    method Interrupts(irqs: seq<Irq>)
      requires Valid()
      modifies this
      ensures Valid() && View() == ServeAll(old(View()), irqs)
    {
      for i := 0 to |irqs|
        invariant Valid()
        invariant ServeAll(View(), irqs[i..]) == ServeAll(old(View()), irqs)
      {
        match irqs[i] {
          case Dre => DreIsr();
          case Txc => TxcIsr();
        }
      }
    }

    /** Switch over from receiving to transmitting. */
    method SwitchOver()
      requires Valid()
      modifies this`rxen, this`txen, this`dreie, this`txcie
      ensures Valid() && View() == SwitchToTransmit(old(View()))
    {
      rxen := false;
      txen := true;
      dreie, txcie := true, true;
    }

    method SerWrite(buf: seq<Byte>, irqs: Schedule) returns (cnt: nat)
      requires Valid()
      modifies this, txbuf
      ensures Valid()
      ensures (View(), cnt) == Write(old(View()), buf, irqs)
    {
      cnt := 0;
      Interrupts(irqs(0));
      while BufCnt() < CAPACITY && cnt < |buf|
        invariant cnt <= |buf| && Valid()
        invariant Copy(View(), buf, irqs, cnt) == Copy(ServeAll(old(View()), irqs(0)), buf, irqs, 0)
        decreases |buf| - cnt
      {
        Enqueue(buf[cnt]);
        cnt := cnt + 1;
        Interrupts(irqs(cnt));
      }
      Interrupts(irqs(|buf| + 1));
      SwitchOver();
    }
  }

  // ---------------------------------------------------------------- no byte is lost, none is left unsent

  /** Everything accepted so far, in order: what is on the wire and what is still queued. */
  function Taken(p: Port): seq<Byte> {
    p.wire + p.queue
  }

  lemma {:induction false} ServeAllKeeps(p: Port, irqs: seq<Irq>)
    ensures Taken(ServeAll(p, irqs)) == Taken(p)
    ensures |ServeAll(p, irqs).queue| <= |p.queue|
    ensures p.Ok() ==> ServeAll(p, irqs).Ok()
    decreases |irqs|
  {
    if irqs != [] {
      assert Taken(Serve(p, irqs[0])) == Taken(p);
      ServeAllKeeps(Serve(p, irqs[0]), irqs[1..]);
    }
  }

  lemma {:induction false} CopyTakes(p: Port, bytes: seq<Byte>, irqs: Schedule, k: nat)
    requires k <= |bytes| && |p.queue| <= CAPACITY
    ensures var (p', cnt) := Copy(p, bytes, irqs, k);
            && Taken(p') == Taken(p) + bytes[k..cnt]
            && |p'.queue| <= CAPACITY
            && (cnt < |bytes| ==> Full(p'))
    decreases |bytes| - k
  {
    if !(Full(p) || k == |bytes|) {
      var pushed := Push(p, bytes[k]);
      var p1 := ServeAll(pushed, irqs(k + 1));
      ServeAllKeeps(pushed, irqs(k + 1));
      CopyTakes(p1, bytes, irqs, k + 1);
      var cnt := Copy(p1, bytes, irqs, k + 1).1;
      assert [bytes[k]] + bytes[k + 1..cnt] == bytes[k..cnt];
      assert Taken(pushed) == Taken(p) + [bytes[k]];
    }
  }

  /**
   Whatever interrupts come in between, a write takes a prefix of its bytes, behind everything taken
   before; it takes them all unless it met a full ring; and it leaves a transmission under way.
   */
  lemma WriteTakesPrefix(p: Port, bytes: seq<Byte>, irqs: Schedule)
    requires p.Ok()
    ensures var (p', cnt) := Write(p, bytes, irqs);
            && cnt <= |bytes|
            && Taken(p') == Taken(p) + bytes[..cnt]
            && p'.Ok() && p'.Active() && p'.dreie && p'.txcie && p'.txen && !p'.rxen
            && (cnt < |bytes| ==> Full(Copy(ServeAll(p, irqs(0)), bytes, irqs, 0).0))
  {
    ServeAllKeeps(p, irqs(0));
    CopyTakes(ServeAll(p, irqs(0)), bytes, irqs, 0);
    var (p1, cnt) := Copy(ServeAll(p, irqs(0)), bytes, irqs, 0);
    ServeAllKeeps(p1, irqs(|bytes| + 1));
    assert bytes[0..cnt] == bytes[..cnt];
  }

  /** With no interrupt in between, the count is what fits. */
  lemma {:induction false} QuietCopyCount(p: Port, bytes: seq<Byte>, irqs: Schedule, k: nat)
    requires k <= |bytes| && |p.queue| <= CAPACITY
    requires forall i :: irqs(i) == []
    ensures var room := CAPACITY - |p.queue|;
            Copy(p, bytes, irqs, k).1 == if |bytes| - k <= room then |bytes| else k + room
    decreases |bytes| - k
  {
    if !(Full(p) || k == |bytes|) {
      QuietCopyCount(Push(p, bytes[k]), bytes, irqs, k + 1);
    }
  }

  /** Where there is room for all bytes at the start, all are taken, whatever interrupts come in. */
  lemma {:induction false} RoomSuffices(p: Port, bytes: seq<Byte>, irqs: Schedule, k: nat)
    requires k <= |bytes| && |p.queue| + (|bytes| - k) <= CAPACITY
    ensures Copy(p, bytes, irqs, k).1 == |bytes|
    decreases |bytes| - k
  {
    if k < |bytes| {
      ServeAllKeeps(Push(p, bytes[k]), irqs(k + 1));
      RoomSuffices(ServeAll(Push(p, bytes[k]), irqs(k + 1)), bytes, irqs, k + 1);
    }
  }

  datatype Op = WriteOp(bytes: seq<Byte>, irqs: Schedule) | IrqOp(irq: Irq)

  /** A run of writes and interrupts: the final state, and all bytes that the writes accepted. */
  function RunOps(p: Port, ops: seq<Op>): (Port, seq<Byte>)
    decreases |ops|
  {
    if ops == [] then (p, []) else
      match ops[0]
      case WriteOp(bytes, irqs) =>
        var (p', cnt) := Write(p, bytes, irqs);
        var r := RunOps(p', ops[1..]);
        (r.0, (if cnt <= |bytes| then bytes[..cnt] else bytes) + r.1)
      case IrqOp(irq) => RunOps(Serve(p, irq), ops[1..])
  }

  /** In every run: bytes on the wire plus bytes queued are exactly the bytes accepted, and nothing is forgotten. */
  lemma {:induction false} BytesConserved(p: Port, ops: seq<Op>)
    requires p.Ok()
    ensures var (p', accepted) := RunOps(p, ops); Taken(p') == Taken(p) + accepted && p'.Ok()
    decreases |ops|
  {
    if ops != [] {
      match ops[0]
      case WriteOp(bytes, irqs) =>
        WriteTakesPrefix(p, bytes, irqs);
        BytesConserved(Write(p, bytes, irqs).0, ops[1..]);
      case IrqOp(irq) =>
        ServeAllKeeps(p, [irq]);
        assert [irq][1..] == [];
        BytesConserved(Serve(p, irq), ops[1..]);
    }
  }

  function Dres(irqs: seq<Irq>): nat {
    if irqs == [] then 0 else (if irqs[0] == Dre then 1 else 0) + Dres(irqs[1..])
  }

  /**
   Nothing is left unsent: enough data-register interrupts, mixed with any transmit-complete interrupts,
   empty the ring; the next transmit-complete interrupt turns the bus around.
   */
  lemma {:induction false} EverythingIsSent(p: Port, irqs: seq<Irq>)
    requires p.Ok() && Dres(irqs) >= |p.queue|
    ensures var p' := ServeAll(p, irqs);
            && p'.queue == [] && p'.wire == Taken(p)
            && Serve(p', Txc).rxen && !Serve(p', Txc).txcie
    decreases |irqs|
  {
    ServeAllKeeps(p, irqs);
    if irqs != [] {
      ServeAllKeeps(p, [irqs[0]]);
      assert [irqs[0]][1..] == [];
      EverythingIsSent(Serve(p, irqs[0]), irqs[1..]);
    }
  }

  /** The transmitter is on for a transmission only: once transmit-complete is off, so is it. */
  predicate Settled(p: Port) {
    !p.txcie ==> !p.txen
  }

  /**
   And the transmitter goes quiet: one data-register interrupt more than there are bytes, mixed with any
   transmit-complete interrupts, turns that interrupt off; the next transmit-complete leaves the port idle, receiving.
   */
  lemma {:induction false} TransmitterGoesQuiet(p: Port, irqs: seq<Irq>)
    requires p.Ok() && Dres(irqs) > |p.queue|
    ensures var p' := ServeAll(p, irqs);
            && !p'.dreie && !Serve(p', Txc).Active()
            && (Settled(p) ==> Serve(p', Txc) == Port([], Taken(p), false, false, false, true))
    decreases |irqs|
  {
    var p1 := Serve(p, irqs[0]);
    ServeAllKeeps(p, [irqs[0]]);
    assert [irqs[0]][1..] == [];
    if !p.dreie {
      NothingLeftToServe(p, irqs);
    } else if p1.dreie || irqs[0] == Txc {
      TransmitterGoesQuiet(p1, irqs[1..]);
    } else {
      NothingLeftToServe(p1, irqs[1..]);
    }
  }

  /** With the data-register interrupt off nothing is queued, and only the bus can still turn around. */
  lemma {:induction false} NothingLeftToServe(p: Port, irqs: seq<Irq>)
    requires p.Ok() && !p.dreie
    ensures var p' := ServeAll(p, irqs);
            && !p'.dreie && !Serve(p', Txc).Active()
            && (Settled(p) ==> Serve(p', Txc) == Port([], Taken(p), false, false, false, true))
    decreases |irqs|
  {
    if irqs != [] {
      NothingLeftToServe(Serve(p, irqs[0]), irqs[1..]);
    }
  }

  /** The port counts as active exactly as long as an interrupt has something left to do. */
  lemma ActiveIff(p: Port)
    requires p.Ok()
    ensures p.Active() <==> Serve(p, Dre) != p || Serve(p, Txc) != p
  {
    if p.queue != [] {
      assert Serve(p, Dre).queue != p.queue;
    }
  }
}
