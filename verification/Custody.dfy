/**
 The single receive buffer under every interleaving of the receive interrupt with the main
 loop: `cmd_process` (src/cmd.c) polls for a packet, drops it or passes it to the main loop
 (src/main.c), which frees it; with no packet it watches a timeout that may reset the parser.
 */
module Custody {
  import opened Bytes
  import opened Crc
  import opened Packet
  import opened Receiver

  /** Where the main loop stands between two of its atomic accesses to the packet module. */
  datatype Pc = Top | InCmd | InLoop | Waiting

  datatype Act =
    | RxByte(b: Byte)          // receive interrupt, at any time
    | Poll                     // pkt_ready
    | Keep                     // the command wants the packet returned to the main loop
    | Drop                     // the command is done with the packet: pkt_rx_free
    | Release                  // the main loop is done with the packet: pkt_rx_free
    | Watch(expired: bool)     // no packet: the timeout is checked, started, or resets the parser

  datatype Sys = Sys(rx: Rx, pc: Pc, waiting: bool, delivered: seq<Packet>, released: nat) {
    /** The client (command processor or main loop) holds a packet. */
    predicate Held() {
      pc == InCmd || pc == InLoop
    }
  }

  const START := Sys(INITIAL, Top, false, [], 0)

  /** The packet in the buffer. */
  function InBuffer(r: Rx): (p: Packet)
    requires |r.buf| == BUF_LEN && FromByte(r.buf[3]) <= PAYLOAD_LEN
  {
    Unpack(r.buf[..HEADER_LEN + FromByte(r.buf[3])])
  }

  predicate Enabled(s: Sys, a: Act) {
    match a
    case RxByte(_) => true
    case Poll => s.pc == Top
    case Keep => s.pc == InCmd
    case Drop => s.pc == InCmd
    case Release => s.pc == InLoop
    case Watch(_) => s.pc == Waiting
  }

  /** Exactly one of: the buffer is free, the parser fills it, it awaits pickup, the client holds it. */
  predicate OneOwner(s: Sys) {
    && (!s.rx.inuse <==> !s.rx.Busy() && !s.rx.ready && !s.Held())
    && !(s.rx.Busy() && s.rx.ready) && !(s.rx.Busy() && s.Held()) && !(s.rx.ready && s.Held())
  }

  /** The running CRC covers the bytes stored so far, and the counters agree with the length byte. */
  predicate Tracks(r: Rx) {
    && r.Bounded()
    && (r.Busy() ==> r.crc == Fold(ZERO, r.buf[..r.idx]))
    && (r.state.Data? || r.state.Check? ==> FromByte(r.buf[3]) <= PAYLOAD_LEN)
    && (r.state.Data? ==> r.idx + r.len == HEADER_LEN + FromByte(r.buf[3]))
    && (r.state.Check? ==> r.idx == HEADER_LEN + FromByte(r.buf[3]))
  }

  /** The packet module counts as active exactly as long as the buffer has an owner. */
  lemma ActiveIff(s: Sys)
    requires OneOwner(s)
    ensures s.rx.Active() <==> s.rx.Busy() || s.rx.ready || s.Held()
  {}

  predicate Inv(s: Sys) {
    && Tracks(s.rx)
    && OneOwner(s)
    && (s.rx.ready || s.Held() ==> FromByte(s.rx.buf[3]) <= PAYLOAD_LEN)
    && (s.Held() ==> s.delivered != [] && s.delivered[|s.delivered| - 1] == InBuffer(s.rx))
    && |s.delivered| == s.released + (if s.Held() then 1 else 0)
  }

  function Apply(s: Sys, a: Act): Sys
    requires Inv(s)
  {
    if !Enabled(s, a) then s else
      match a
      case RxByte(b) => s.(rx := Step(s.rx, b))
      case Poll =>
        if s.rx.ready then
          s.(rx := s.rx.(ready := false), pc := InCmd, waiting := false, delivered := s.delivered + [InBuffer(s.rx)])
        else s.(pc := Waiting)
      case Keep => s.(pc := InLoop)
      case Drop => s.(rx := s.rx.(inuse := false), pc := Waiting, released := s.released + 1)
      case Release => s.(rx := s.rx.(inuse := false), pc := Top, released := s.released + 1)
      case Watch(expired) =>
        if s.waiting then
          if expired then s.(rx := s.rx.Reset(), waiting := false, pc := Top) else s.(pc := Top)
        else s.(waiting := s.rx.Active(), pc := Top)
  }

  lemma FoldStored(r: Rx, b: Byte)
    requires r.idx < |r.buf| && r.crc == Fold(ZERO, r.buf[..r.idx])
    ensures Stored(r, b).crc == Fold(ZERO, Stored(r, b).buf[..r.idx + 1])
    ensures Stored(r, b).buf[..r.idx + 1] == r.buf[..r.idx] + [b]
  {
    var r' := Stored(r, b);
    assert r'.buf[..r.idx + 1] == r.buf[..r.idx] + [b];
    FoldSnoc(ZERO, r.buf[..r.idx], b);
  }

  lemma HeaderTracks(r: Rx, b: Byte)
    requires Tracks(r) && r.state.Header?
    ensures Tracks(Step(r, b))
  {
    FoldStored(r, b);
  }

  lemma DataTracks(r: Rx, b: Byte)
    requires Tracks(r) && r.state.Data?
    ensures Tracks(Step(r, b))
  {
    FoldStored(r, b);
    assert Stored(r, b).buf[3] == r.buf[3];
  }

  lemma StepTracks(r: Rx, b: Byte)
    requires Tracks(r)
    ensures Tracks(Step(r, b))
  {
    match r.state
    case Search =>
    case Sync =>
    case Header => HeaderTracks(r, b);
    case Data => DataTracks(r, b);
    case Check =>
  }

  lemma ByteKeepsInv(s: Sys, b: Byte)
    requires Inv(s)
    ensures Inv(Apply(s, RxByte(b)))
    ensures s.rx.ready || s.Held() ==> Apply(s, RxByte(b)).rx.buf == s.rx.buf
  {
    StepTracks(s.rx, b);
    ByteKeepsOwner(s, b);
  }

  /** Nobody loses or gains the buffer without the flags saying so, and a finished packet stays as it is. */
  lemma ByteKeepsOwner(s: Sys, b: Byte)
    requires s.rx.Bounded() && OneOwner(s)
    ensures OneOwner(s.(rx := Step(s.rx, b)))
    ensures s.rx.ready || s.Held() ==> Step(s.rx, b).buf == s.rx.buf
    ensures Step(s.rx, b).ready ==> s.rx.ready || (s.rx.state.Check? && Step(s.rx, b).buf == s.rx.buf)
  {
    StepOwner(s.rx, b);
  }

  /** How one byte moves the buffer between owners. */
  lemma StepOwner(r: Rx, b: Byte)
    requires r.Bounded()
    ensures !r.Busy() ==> HuntOwner(r, Step(r, b))
    ensures r.Busy() ==> PacketOwner(r, Step(r, b), b)
  {
    match r.state
    case Search =>
    case Sync =>
    case Header =>
    case Data =>
    case Check =>
  }

  predicate HuntOwner(r: Rx, r': Rx) {
    && r'.buf == r.buf && r'.ready == r.ready
    && r'.inuse == (r.inuse || r'.Busy())
    && (r'.Busy() ==> !r.inuse && !r'.state.Check?)
  }

  predicate PacketOwner(r: Rx, r': Rx, b: Byte) {
    var accepted := r.state.Check? && b == r.crc;
    && r'.ready == (r.ready || accepted)
    && r'.inuse == (r.inuse && (r'.Busy() || accepted))
    && (r.state.Check? ==> r'.buf == r.buf && !r'.Busy())
  }

  lemma ActKeepsInv(s: Sys, a: Act)
    requires Inv(s)
    ensures Inv(Apply(s, a))
  {
    match a
    case RxByte(b) => ByteKeepsInv(s, b);
    case Poll =>
    case Keep =>
    case Drop =>
    case Release =>
    case Watch(_) =>
  }

  function Run(s: Sys, acts: seq<Act>): (s': Sys)
    requires Inv(s)
    ensures Inv(s')
    decreases |acts|
  {
    if acts == [] then s else
      ActKeepsInv(s, acts[0]);
      Run(Apply(s, acts[0]), acts[1..])
  }

  lemma {:induction false} RunConcat(s: Sys, a: seq<Act>, b: seq<Act>)
    requires Inv(s)
    ensures Run(s, a + b) == Run(Run(s, a), b)
    decreases |a|
  {
    if a == [] {
      assert a + b == b;
    } else {
      ActKeepsInv(s, a[0]);
      assert (a + b)[1..] == a[1..] + b;
      RunConcat(Apply(s, a[0]), a[1..], b);
    }
  }

  lemma RunOne(s: Sys, a: Act)
    requires Inv(s)
    ensures Run(s, [a]) == Apply(s, a)
  {
    ActKeepsInv(s, a);
    assert [a][1..] == [];
  }

  /** Received bytes as acts. */
  function RxBytes(bytes: seq<Byte>): (acts: seq<Act>)
    ensures |acts| == |bytes|
  {
    seq(|bytes|, i requires 0 <= i < |bytes| => RxByte(bytes[i]))
  }

  lemma {:induction false} RunBytes(s: Sys, bytes: seq<Byte>)
    requires Inv(s)
    ensures Run(s, RxBytes(bytes)) == s.(rx := Steps(s.rx, bytes))
    ensures s.rx.ready || s.Held() ==> Steps(s.rx, bytes).buf == s.rx.buf
    decreases |bytes|
  {
    if bytes != [] {
      ByteKeepsInv(s, bytes[0]);
      assert RxBytes(bytes)[1..] == RxBytes(bytes[1..]);
      RunBytes(Apply(s, RxByte(bytes[0])), bytes[1..]);
    }
  }

  /**
   Over every interleaving from start-up: the buffer has exactly one owner, the parser's next write is
   inside the buffer, and every packet handed out was released exactly once, except the one still held,
   which is still the packet that was handed out.
   */
  lemma EveryInterleavingIsSafe(acts: seq<Act>)
    ensures var s := Run(START, acts);
            && OneOwner(s)
            && (s.rx.Busy() && !s.rx.state.Check? ==> s.rx.idx < BUF_LEN)
            && |s.delivered| == s.released + (if s.Held() then 1 else 0)
            && (s.Held() ==> FromByte(s.rx.buf[3]) <= PAYLOAD_LEN && s.delivered[|s.delivered| - 1] == InBuffer(s.rx))
  {
    assert Inv(START);
    assert Inv(Run(START, acts));
  }

  // ---------------------------------------------------------------- a whole frame

  lemma {:induction false} StepsData(r: Rx, bytes: seq<Byte>)
    requires Tracks(r) && r.state.Data? && r.len == |bytes|
    ensures var r' := Steps(r, bytes);
            && Tracks(r') && r'.state == Check && (r'.inuse, r'.ready) == (r.inuse, r.ready)
            && r'.idx == r.idx + |bytes| && r'.buf[..r'.idx] == r.buf[..r.idx] + bytes
    decreases |bytes|
  {
    var r1 := Step(r, bytes[0]);
    StepTracks(r, bytes[0]);
    FoldStored(r, bytes[0]);
    assert bytes == [bytes[0]] + bytes[1..];
    ConcatAssociative(r.buf[..r.idx], [bytes[0]], bytes[1..]);
    if |bytes| > 1 {
      StepsData(r1, bytes[1..]);
    }
  }

  lemma StepsHeader(r: Rx, a: Byte, b: Byte, c: Byte, d: Byte)
    requires Tracks(r) && r.state == Header && r.idx == 0 && FromByte(d) <= PAYLOAD_LEN
    ensures var r' := Steps(r, HeaderBytes(a, b, c, d));
            && Tracks(r') && (r'.inuse, r'.ready) == (r.inuse, r.ready)
            && r'.idx == 4 && r'.buf[..4] == [a, b, c, d]
            && (if FromByte(d) == 0 then r'.state == Check else r'.state == Data && r'.len == FromByte(d))
  {
    var r1 := Step(r, a);
    var r2 := Step(r1, b);
    var r3 := Step(r2, c);
    StepTracks(r, a);
    StepTracks(r1, b);
    StepTracks(r2, c);
    StepTracks(r3, d);
    StepsCons(r, a, [b] + ([c] + ([d] + [])));
    StepsCons(r1, b, [c] + ([d] + []));
    StepsCons(r2, c, [d] + []);
    StepsCons(r3, d, []);
  }

  lemma StepsPayload(r: Rx, bytes: seq<Byte>)
    requires Tracks(r) && r.idx == HEADER_LEN
    requires if bytes == [] then r.state == Check else r.state == Data && r.len == |bytes|
    ensures var r' := Steps(r, bytes);
            && Tracks(r') && r'.state == Check && (r'.inuse, r'.ready) == (r.inuse, r.ready)
            && r'.idx == HEADER_LEN + |bytes| && r'.buf[..r'.idx] == r.buf[..HEADER_LEN] + bytes
  {
    if bytes != [] {
      StepsData(r, bytes);
    } else {
      assert r.buf[..HEADER_LEN] + bytes == r.buf[..HEADER_LEN];
    }
  }

  /** Header and payload of a packet, as they come in. */
  lemma StepsBody(r: Rx, p: Packet)
    requires Tracks(r) && r.state == Header && r.idx == 0 && p.Fits()
    ensures var r' := Steps(r, Body(p));
            && Tracks(r') && r'.state == Check && (r'.inuse, r'.ready) == (r.inuse, r.ready)
            && r'.idx == |Body(p)| && r'.buf[..r'.idx] == Body(p)
  {
    var header := HeaderBytes(p.flags, p.addr, p.cmd, ToByte(|p.payload|));
    StepsHeader(r, p.flags, p.addr, p.cmd, ToByte(|p.payload|));
    assert header == [p.flags, p.addr, p.cmd, ToByte(|p.payload|)];
    StepsConcat(r, header, p.payload);
    StepsPayload(Steps(r, header), p.payload);
  }

  /** A frame that comes in while the buffer is free is a packet that awaits pickup. */
  lemma FrameArrives(r: Rx, p: Packet)
    requires Tracks(r) && r.state == Search && !r.inuse && p.Fits()
    ensures var r' := Steps(r, Frame(p));
            && Tracks(r') && r'.state == Search && r'.inuse && r'.ready
            && FromByte(r'.buf[3]) <= PAYLOAD_LEN && InBuffer(r') == p
  {
    StepsLead(r);
    StepsBody(Started(r), p);
    var r1 := Steps(Started(r), Body(p));
    StepsConcat(r, LEAD, Sealed(p));
    StepsConcat(Started(r), Body(p), [Fold(ZERO, Body(p))]);
    StepsCons(r1, Fold(ZERO, Body(p)), []);
    assert [Fold(ZERO, Body(p))] + [] == [Fold(ZERO, Body(p))];
    StepTracks(r1, Fold(ZERO, Body(p)));
    UnpackBody(p);
    assert r1.buf[3] == Body(p)[3];
  }

  // ---------------------------------------------------------------- streaming refines scanning

  /** What the scanner still finds in `rest`, given what the parser has already taken in. */
  function Expect(r: Rx, rest: seq<Byte>): seq<Packet>
    requires r.Bounded()
  {
    match r.state
    case Search => Scan(rest)
    case Sync => AfterPreamble(rest)
    case _ => AfterSync(r.buf[..r.idx] + rest)
  }

  /** A completed packet that nobody picked up yet. */
  function Pending(r: Rx): seq<Packet>
    requires r.Bounded()
  {
    if r.ready && FromByte(r.buf[3]) <= PAYLOAD_LEN then [InBuffer(r)] else []
  }

  /** The client is done with a packet before the next sync byte, and no timeout cuts a packet short. */
  predicate InTime(s: Sys, a: Act) {
    && (a == RxByte(SYNC) && s.rx.state == Sync ==> !s.rx.inuse)
    && (a == Watch(true) && Enabled(s, a) && s.waiting ==> !s.rx.Active() && s.rx.state == Search)
  }

  predicate AllInTime(s: Sys, acts: seq<Act>)
    requires Inv(s)
    decreases |acts|
  {
    acts == [] || (InTime(s, acts[0]) && (ActKeepsInv(s, acts[0]); AllInTime(Apply(s, acts[0]), acts[1..])))
  }

  function Received(acts: seq<Act>): seq<Byte> {
    if acts == [] then []
    else (match acts[0] case RxByte(b) => [b] case _ => []) + Received(acts[1..])
  }

  lemma HeaderByteExpected(s: Sys, b: Byte, rest: seq<Byte>)
    requires Inv(s) && s.rx.state.Header?
    ensures Expect(s.rx, [b] + rest) == Expect(Step(s.rx, b), rest)
  {
    var r := s.rx;
    var pre := r.buf[..r.idx];
    FoldStored(r, b);
    assert pre + ([b] + rest) == (pre + [b]) + rest;
    if r.idx == 3 {
      var t := (pre + [b]) + rest;
      assert t[3] == b == Stored(r, b).buf[3];
      assert t[HEADER_LEN..] == rest;
    }
  }

  lemma DataByteExpected(s: Sys, b: Byte, rest: seq<Byte>)
    requires Inv(s) && s.rx.state.Data?
    ensures Expect(s.rx, [b] + rest) == Expect(Step(s.rx, b), rest)
  {
    var r := s.rx;
    FoldStored(r, b);
    assert r.buf[..r.idx] + ([b] + rest) == (r.buf[..r.idx] + [b]) + rest;
  }

  /** The byte after the body decides whether the packet is ready. */
  lemma CheckByteDecides(s: Sys, b: Byte)
    requires Inv(s) && s.rx.state.Check?
    ensures var r', body := Step(s.rx, b), s.rx.buf[..s.rx.idx];
            && r'.state == Search && WellSized(body + [b])
            && Pending(r') == if Checked(body + [b]) then [Unpack(body)] else []
  {
    var body := s.rx.buf[..s.rx.idx];
    var t := body + [b];
    assert t[3] == s.rx.buf[3] && t[..|t| - 1] == body && t[|t| - 1] == b;
  }

  lemma CheckByteExpected(s: Sys, b: Byte, rest: seq<Byte>)
    requires Inv(s) && s.rx.state.Check?
    ensures Expect(s.rx, [b] + rest) == Pending(Step(s.rx, b)) + Expect(Step(s.rx, b), rest)
  {
    var body := s.rx.buf[..s.rx.idx];
    var t := body + [b];
    CheckByteDecides(s, b);
    ConcatAssociative(body, [b], rest);
    ScanBlock(t, rest);
    assert t[..|t| - 1] == body;
  }

  lemma HuntByteExpected(r: Rx, b: Byte, rest: seq<Byte>)
    requires r.Bounded() && !r.Busy()
    requires r.state == Sync && b == SYNC ==> !r.inuse
    ensures Expect(r, [b] + rest) == Expect(Step(r, b), rest)
  {
    assert ([b] + rest)[1..] == rest;
    var r' := Step(r, b);
    if r'.Busy() {
      assert r'.buf[..r'.idx] + rest == rest;
    }
  }

  /** Only the byte that completes a packet changes what awaits pickup. */
  lemma PendingKept(s: Sys, b: Byte)
    requires Inv(s)
    ensures s.rx.Busy() ==> Pending(s.rx) == []
    ensures !s.rx.state.Check? ==> Pending(Step(s.rx, b)) == Pending(s.rx)
  {
    ByteKeepsInv(s, b);
    StepOwner(s.rx, b);
  }

  /** One received byte moves the scanner's next packet into the ready slot, or leaves everything as it was. */
  lemma ByteExpected(s: Sys, b: Byte, rest: seq<Byte>)
    requires Inv(s) && InTime(s, RxByte(b))
    ensures Pending(s.rx) + Expect(s.rx, [b] + rest) == Pending(Step(s.rx, b)) + Expect(Step(s.rx, b), rest)
  {
    PendingKept(s, b);
    if s.rx.state.Header? {
      HeaderByteExpected(s, b, rest);
    } else if s.rx.state.Data? {
      DataByteExpected(s, b, rest);
    } else if s.rx.state.Check? {
      CheckByteExpected(s, b, rest);
    } else {
      HuntByteExpected(s.rx, b, rest);
    }
  }

  /**
   For every interleaving in which the client keeps up, the packets handed out, plus the one awaiting
   pickup, are the packets already there followed by exactly those a whole-stream scan finds.
   */
  lemma {:induction false} StreamingIsScanning(s: Sys, acts: seq<Act>)
    requires Inv(s) && AllInTime(s, acts)
    ensures var s' := Run(s, acts);
            s'.delivered + Pending(s'.rx) == s.delivered + (Pending(s.rx) + Expect(s.rx, Received(acts)))
    decreases |acts|
  {
    if acts == [] {
      NothingToExpect(s);
    } else {
      var a, rest := acts[0], acts[1..];
      ActKeepsInv(s, a);
      StreamingIsScanning(Apply(s, a), rest);
      ActExpected(s, a, Received(rest));
    }
  }

  lemma NothingToExpect(s: Sys)
    requires Inv(s)
    ensures Expect(s.rx, []) == []
  {
    var r := s.rx;
    if r.Busy() {
      var pre := r.buf[..r.idx] + [];
      assert AfterSync(pre) == [];
    }
  }

  lemma ActExpected(s: Sys, a: Act, rest: seq<Byte>)
    requires Inv(s) && InTime(s, a)
    ensures var s' := Apply(s, a);
            s.delivered + (Pending(s.rx) + Expect(s.rx, (if a.RxByte? then [a.b] else []) + rest))
            == s'.delivered + (Pending(s'.rx) + Expect(s'.rx, rest))
  {
    ActKeepsInv(s, a);
    if a.RxByte? {
      ByteExpected(s, a.b, rest);
    } else {
      assert [] + rest == rest;
      MainLoopExpected(s, a, rest);
      ConcatAssociative(s.delivered, Pending(s.rx), Expect(s.rx, rest));
      ConcatAssociative(Apply(s, a).delivered, Pending(Apply(s, a).rx), Expect(s.rx, rest));
    }
  }

  /** The main loop moves a packet from the ready slot to the client, and changes nothing the scanner sees. */
  lemma MainLoopExpected(s: Sys, a: Act, rest: seq<Byte>)
    requires Inv(s) && InTime(s, a) && !a.RxByte?
    ensures var s' := Apply(s, a);
            && Inv(s')
            && Expect(s'.rx, rest) == Expect(s.rx, rest)
            && s'.delivered + Pending(s'.rx) == s.delivered + Pending(s.rx)
  {
    ActKeepsInv(s, a);
    match a
    case Poll =>
    case Keep =>
    case Drop =>
    case Release =>
    case Watch(_) =>
  }

  /**
   From start-up, or any idle receiver: a client that keeps up recovers exactly the packets that were
   framed, however the bytes interleave with the main loop.
   */
  lemma FramesAreRecovered(s: Sys, acts: seq<Act>, ps: seq<Packet>)
    requires Inv(s) && AllInTime(s, acts)
    requires !s.rx.Busy() && !s.rx.ready
    requires AllFit(ps) && Received(acts) == Frames(ps)
    ensures var s' := Run(s, acts); s'.delivered + Pending(s'.rx) == s.delivered + ps
  {
    var bytes := Received(acts);
    StreamingIsScanning(s, acts);
    assert Expect(s.rx, bytes) == ps by { FramesExpected(s.rx, ps); }
    assert Pending(s.rx) + ps == ps;
  }

  lemma FramesExpected(r: Rx, ps: seq<Packet>)
    requires r.Bounded() && !r.Busy() && AllFit(ps)
    ensures Expect(r, Frames(ps)) == ps
  {
    assert Frames(ps) + [] == Frames(ps);
    assert ps + Scan([]) == ps;
    ScanFrames(ps, []);
    if ps != [] {
      AfterPreambleFrames(ps, []);
    }
  }

  /** A damaged frame among good ones: the good ones arrive, in order, and nothing else does. */
  lemma DamagedFrameIsLostAlone(
      s: Sys, acts: seq<Act>, before: seq<Packet>, p: Packet, t: seq<Byte>, after: seq<Packet>)
    requires Inv(s) && AllInTime(s, acts)
    requires !s.rx.Busy() && !s.rx.ready
    requires AllFit(before) && AllFit(after) && p.Fits()
    requires Damaged(Sealed(p), t) && t[3] == Body(p)[3]
    requires Received(acts) == Frames(before) + (LEAD + t + Frames(after))
    ensures var s' := Run(s, acts); s'.delivered + Pending(s'.rx) == s.delivered + (before + after)
  {
    StreamingIsScanning(s, acts);
    DamageExpected(s.rx, before, p, t, after);
    assert Pending(s.rx) + (before + after) == before + after;
  }

  lemma DamageExpected(r: Rx, before: seq<Packet>, p: Packet, t: seq<Byte>, after: seq<Packet>)
    requires r.Bounded() && !r.Busy()
    requires AllFit(before) && AllFit(after) && p.Fits()
    requires Damaged(Sealed(p), t) && t[3] == Body(p)[3]
    ensures Expect(r, Frames(before) + (LEAD + t + Frames(after))) == before + after
  {
    var rest := LEAD + t + Frames(after);
    DamagedFrameDropped(p, t, Frames(after));
    assert Frames(after) + [] == Frames(after) && after + Scan([]) == after;
    ScanFrames(after, []);
    ScanFrames(before, rest);
    if before == [] {
      assert Frames(before) + rest == rest && before + after == after;
    } else {
      AfterPreambleFrames(before, rest);
    }
  }

  // ---------------------------------------------------------------- a client that always keeps up

  /** After each byte the main loop runs once: it polls, and frees whatever it gets. */
  function Eager(bytes: seq<Byte>): seq<Act> {
    if bytes == [] then []
    else [RxByte(bytes[0])] + ([Poll] + ([Keep] + ([Release] + ([Watch(false)] + Eager(bytes[1..])))))
  }

  predicate Idle(s: Sys) {
    Inv(s) && s.pc == Top && !s.rx.ready
  }

  lemma InTimeCons(s: Sys, a: Act, rest: seq<Act>)
    requires Inv(s) && InTime(s, a) && Inv(Apply(s, a)) && AllInTime(Apply(s, a), rest)
    ensures AllInTime(s, [a] + rest)
  {
    assert ([a] + rest)[1..] == rest;
  }

  /** The main loop's share of one round. */
  function Serve(s: Sys): (s': Sys)
    requires Inv(s)
    ensures Inv(s')
  {
    ActKeepsInv(s, Poll);
    var s1 := Apply(s, Poll);
    ActKeepsInv(s1, Keep);
    var s2 := Apply(s1, Keep);
    ActKeepsInv(s2, Release);
    var s3 := Apply(s2, Release);
    ActKeepsInv(s3, Watch(false));
    Apply(s3, Watch(false))
  }

  lemma ServeInTime(s: Sys, rest: seq<Act>)
    requires Inv(s) && AllInTime(Serve(s), rest)
    ensures AllInTime(s, [Poll] + ([Keep] + ([Release] + ([Watch(false)] + rest))))
  {
    ActKeepsInv(s, Poll);
    var s1 := Apply(s, Poll);
    ActKeepsInv(s1, Keep);
    var s2 := Apply(s1, Keep);
    ActKeepsInv(s2, Release);
    var s3 := Apply(s2, Release);
    ActKeepsInv(s3, Watch(false));
    InTimeCons(s3, Watch(false), rest);
    InTimeCons(s2, Release, [Watch(false)] + rest);
    InTimeCons(s1, Keep, [Release] + ([Watch(false)] + rest));
    InTimeCons(s, Poll, [Keep] + ([Release] + ([Watch(false)] + rest)));
  }

  lemma ServeLeavesIdle(s: Sys)
    requires Inv(s) && s.pc == Top
    ensures Idle(Serve(s))
  {}

  lemma {:induction false} EagerKeepsUp(s: Sys, bytes: seq<Byte>)
    requires Idle(s)
    ensures AllInTime(s, Eager(bytes))
    decreases |bytes|
  {
    if bytes != [] {
      var b, more := bytes[0], Eager(bytes[1..]);
      ActKeepsInv(s, RxByte(b));
      var s1 := Apply(s, RxByte(b));
      ServeLeavesIdle(s1);
      EagerKeepsUp(Serve(s1), bytes[1..]);
      ServeInTime(s1, more);
      InTimeCons(s, RxByte(b), [Poll] + ([Keep] + ([Release] + ([Watch(false)] + more))));
    }
  }

  lemma {:induction false} EagerReceives(bytes: seq<Byte>)
    ensures Received(Eager(bytes)) == bytes
  {
    if bytes != [] {
      ReceivedRound(bytes[0], Eager(bytes[1..]));
      EagerReceives(bytes[1..]);
    }
  }

  lemma ReceivedCons(a: Act, rest: seq<Act>)
    ensures Received([a] + rest) == (if a.RxByte? then [a.b] else []) + Received(rest)
  {
    assert ([a] + rest)[1..] == rest;
  }

  lemma ReceivedRound(b: Byte, rest: seq<Act>)
    ensures Received([RxByte(b)] + ([Poll] + ([Keep] + ([Release] + ([Watch(false)] + rest))))) == [b] + Received(rest)
  {
    ReceivedCons(Watch(false), rest);
    ReceivedCons(Release, [Watch(false)] + rest);
    ReceivedCons(Keep, [Release] + ([Watch(false)] + rest));
    ReceivedCons(Poll, [Keep] + ([Release] + ([Watch(false)] + rest)));
    ReceivedCons(RxByte(b), [Poll] + ([Keep] + ([Release] + ([Watch(false)] + rest))));
  }
}
