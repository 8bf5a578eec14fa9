/** Sending a packet (src/pkt.c), and the whole way from `pkt_send` on one node to the client of another. */
module Link {
  import opened Bytes
  import opened Crc
  import opened Packet
  import Serial
  import Custody

  /** The offset of the packet inside the transmit buffer: four preambles and the sync byte. */
  const OFFSET: nat := 5

  class Sender {
    const txpkt: array<Byte>
    const ser: Serial.Ser

    ghost predicate Valid()
      reads this, txpkt, ser
    {
      && txpkt.Length == OFFSET + HEADER_LEN + PAYLOAD_LEN + 1
      && txpkt[..OFFSET] == LEAD
      && txpkt != ser.txbuf
      && ser.Valid()
    }

    constructor ()
      ensures Valid() && fresh(txpkt) && fresh(ser) && fresh(ser.txbuf)
      ensures ser.View() == Serial.Port([], [], false, false, true, true)
    {
      txpkt := new Byte[OFFSET + HEADER_LEN + PAYLOAD_LEN + 1](
        i => if i < 4 then PREAMBLE else if i == 4 then SYNC else ZERO);
      ser := new Serial.Ser();
      new;
      assert txpkt[..OFFSET] == LEAD;
    }

    /** The four header bytes go behind the lead. */
    method FillHeader(flags: Byte, addr: Byte, cmd: Byte, len: nat)
      requires Valid() && len <= PAYLOAD_LEN
      modifies txpkt
      ensures Valid() && txpkt[..OFFSET + 4] == LEAD + [flags, addr, cmd, ToByte(len)]
    {
      txpkt[OFFSET] := flags;
      txpkt[OFFSET + 1] := addr;
      txpkt[OFFSET + 2] := cmd;
      txpkt[OFFSET + 3] := ToByte(len);
      assert txpkt[..OFFSET] == LEAD;
    }

    /** The checksum so far. */
    method HeaderCrc(ghost header: seq<Byte>) returns (crc: Byte)
      requires Valid() && |header| == 4 && txpkt[..OFFSET + 4] == LEAD + header
      ensures crc == Fold(ZERO, header)
    {
      crc := ZERO;
      for idx := 0 to 4
        invariant crc == Fold(ZERO, header[..idx])
      {
        FoldSnoc(ZERO, header[..idx], header[idx]);
        assert header[..idx + 1] == header[..idx] + [header[idx]];
        assert txpkt[..OFFSET + 4][OFFSET + idx] == header[idx];
        crc := Crc8CcittUpdate(crc, txpkt[OFFSET + idx]);
      }
      assert header[..4] == header;
    }

    /** One more byte behind `done`. */
    method StoreByte(ghost done: seq<Byte>, at: nat, b: Byte)
      requires Valid() && OFFSET <= at < txpkt.Length && txpkt[..at] == LEAD + done
      modifies txpkt
      ensures Valid() && txpkt[..at + 1] == LEAD + (done + [b])
    {
      txpkt[at] := b;
      ConcatAssociative(LEAD, done, [b]);
      assert txpkt[..OFFSET] == (LEAD + done)[..OFFSET];
    }

    /** The payload follows the header, byte by byte into the checksum as well. */
    method CopyPayload(ghost header: seq<Byte>, payload: seq<Byte>, len: nat, headerCrc: Byte) returns (crc: Byte)
      requires Valid() && len <= PAYLOAD_LEN && len <= |payload| && |header| == 4
      requires txpkt[..OFFSET + 4] == LEAD + header && headerCrc == Fold(ZERO, header)
      modifies txpkt
      ensures Valid()
      ensures txpkt[..OFFSET + 4 + len] == LEAD + (header + payload[..len])
      ensures crc == Fold(ZERO, header + payload[..len])
    {
      crc := headerCrc;
      ghost var done := header;
      for idx := 0 to len
        invariant Valid() && done == header + payload[..idx] && crc == Fold(ZERO, done)
        invariant txpkt[..OFFSET + 4 + idx] == LEAD + done
      {
        FoldSnoc(ZERO, done, payload[idx]);
        ConcatAssociative(header, payload[..idx], [payload[idx]]);
        assert payload[..idx + 1] == payload[..idx] + [payload[idx]];
        StoreByte(done, OFFSET + HEADER_LEN + idx, payload[idx]);
        crc := Crc8CcittUpdate(crc, payload[idx]);
        done := done + [payload[idx]];
      }
    }

    /** The transmit buffer holds the whole frame. */
    method FillFrame(flags: Byte, addr: Byte, cmd: Byte, payload: seq<Byte>, len: nat)
      requires Valid() && len <= PAYLOAD_LEN && len <= |payload|
      modifies txpkt
      ensures Valid() && txpkt[..len + 10] == Frame(Packet(flags, addr, cmd, payload[..len]))
    {
      ghost var body := Body(Packet(flags, addr, cmd, payload[..len]));
      ghost var header := [flags, addr, cmd, ToByte(len)];
      FillHeader(flags, addr, cmd, len);
      var crc := HeaderCrc(header);
      crc := CopyPayload(header, payload, len, crc);
      assert header + payload[..len] == body;
      StoreByte(body, OFFSET + HEADER_LEN + len, crc);
    }

    /** `irqs` are the transmit interrupts that come in while the frame is copied into the ring. */
    method PktSend(flags: Byte, addr: Byte, cmd: Byte, payload: seq<Byte>, len: nat, irqs: Serial.Schedule)
      returns (ok: bool)
      requires Valid()
      requires len <= PAYLOAD_LEN ==> len <= |payload|
      modifies txpkt, ser, ser.txbuf
      ensures Valid()
      ensures len > PAYLOAD_LEN ==> !ok && ser.View() == old(ser.View())
      ensures len <= PAYLOAD_LEN ==>
                (ser.View(), ok) == Send(old(ser.View()), Packet(flags, addr, cmd, payload[..len]), irqs)
    {
      if len > PAYLOAD_LEN {
        return false;
      }
      FillFrame(flags, addr, cmd, payload, len);
      var total := 4 + 1 + 4 + len + 1;
      var cnt := ser.SerWrite(txpkt[..total], irqs);
      if cnt != total {
        return false;
      }
      return true;
    }
  }

  /** A send copies one frame; it reports whether the whole frame went into the ring. */
  function Send(p: Serial.Port, pkt: Packet, irqs: Serial.Schedule): (Serial.Port, bool)
    requires pkt.Fits()
  {
    var (p', cnt) := Serial.Write(p, Frame(pkt), irqs);
    (p', cnt == |Frame(pkt)|)
  }

  datatype Op = SendOp(pkt: Packet, irqs: Serial.Schedule) | IrqOp(irq: Serial.Irq)

  /** A run of sends and interrupts: the transmitter, the packets sent, and whether every send succeeded. */
  function RunSends(p: Serial.Port, ops: seq<Op>): (Serial.Port, seq<Packet>, bool)
    requires forall op :: op in ops && op.SendOp? ==> op.pkt.Fits()
    decreases |ops|
  {
    if ops == [] then (p, [], true) else
      match ops[0]
      case SendOp(pkt, irqs) =>
        var (p', ok) := Send(p, pkt, irqs);
        var (q, ps, allOk) := RunSends(p', ops[1..]);
        (q, [pkt] + ps, ok && allOk)
      case IrqOp(irq) => RunSends(Serial.Serve(p, irq), ops[1..])
  }

  /** A successful send takes exactly its frame. */
  lemma SendTakesFrame(p: Serial.Port, pkt: Packet, irqs: Serial.Schedule)
    requires p.Ok() && pkt.Fits() && Send(p, pkt, irqs).1
    ensures var p' := Send(p, pkt, irqs).0; p'.Ok() && Serial.Taken(p') == Serial.Taken(p) + Frame(pkt)
  {
    Serial.WriteTakesPrefix(p, Frame(pkt), irqs);
    assert Frame(pkt)[..|Frame(pkt)|] == Frame(pkt);
  }

  /** Any packet can be sent, whatever interrupts come in, while at most nine bytes are queued. */
  lemma RoomForAnyPacket(p: Serial.Port, pkt: Packet, irqs: Serial.Schedule)
    requires pkt.Fits() && |p.queue| + 22 <= Serial.CAPACITY
    ensures Send(p, pkt, irqs).1
  {
    Serial.ServeAllKeeps(p, irqs(0));
    Serial.RoomSuffices(Serial.ServeAll(p, irqs(0)), Frame(pkt), irqs, 0);
  }

  /** A failed send has queued a truncated frame: a proper prefix, which a receiver will wait on in vain. */
  lemma FailedSendTruncates(p: Serial.Port, pkt: Packet, irqs: Serial.Schedule)
    requires p.Ok() && pkt.Fits() && !Send(p, pkt, irqs).1
    ensures var p' := Send(p, pkt, irqs).0;
            exists cnt :: 0 <= cnt < |Frame(pkt)| && Serial.Taken(p') == Serial.Taken(p) + Frame(pkt)[..cnt]
  {
    Serial.WriteTakesPrefix(p, Frame(pkt), irqs);
  }

  /** If every send succeeds, what was put on the wire or queued is exactly the frames, in order. */
  lemma {:induction false} SendsQueueFrames(p: Serial.Port, ops: seq<Op>)
    requires forall op :: op in ops && op.SendOp? ==> op.pkt.Fits()
    requires p.Ok() && RunSends(p, ops).2
    ensures var (p', ps, _) := RunSends(p, ops);
            AllFit(ps) && p'.Ok() && Serial.Taken(p') == Serial.Taken(p) + Frames(ps)
    decreases |ops|
  {
    if ops != [] {
      match ops[0]
      case SendOp(pkt, irqs) =>
        SendTakesFrame(p, pkt, irqs);
        SendsQueueFrames(Send(p, pkt, irqs).0, ops[1..]);
        ConcatAssociative(Serial.Taken(p), Frame(pkt), Frames(RunSends(p, ops).1[1..]));
      case IrqOp(irq) =>
        Serial.ServeAllKeeps(p, [irq]);
        assert [irq][1..] == [];
        SendsQueueFrames(Serial.Serve(p, irq), ops[1..]);
    }
  }

  /**
   End to end. Sends that all succeed, interleaved with any interrupts and followed by enough of them to
   drain the ring, put bytes on the wire from which any receiver whose client keeps up recovers exactly
   the packets that were sent.
   */
  lemma EndToEnd(p: Serial.Port, ops: seq<Op>, drain: seq<Serial.Irq>, s: Custody.Sys, acts: seq<Custody.Act>)
    requires forall op :: op in ops && op.SendOp? ==> op.pkt.Fits()
    requires p.Ok() && Serial.Taken(p) == [] && RunSends(p, ops).2
    requires Serial.Dres(drain) >= |RunSends(p, ops).0.queue|
    requires Custody.Inv(s) && Custody.AllInTime(s, acts) && !s.rx.Busy() && !s.rx.ready
    requires Custody.Received(acts) == Serial.ServeAll(RunSends(p, ops).0, drain).wire
    ensures var s' := Custody.Run(s, acts);
            s'.delivered + Custody.Pending(s'.rx) == s.delivered + RunSends(p, ops).1
  {
    var (p', ps, _) := RunSends(p, ops);
    SendsQueueFrames(p, ops);
    Serial.EverythingIsSent(p', drain);
    assert Custody.Received(acts) == Frames(ps);
    Custody.FramesAreRecovered(s, acts, ps);
  }
}
