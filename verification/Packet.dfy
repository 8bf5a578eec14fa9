/** The packet format, and what a whole byte stream means (doc/packet.md, src/pkt.h). */
module Packet {
  import opened Bytes
  import opened Crc
  import CrcDetection

  const PREAMBLE: Byte := ToByte(0x55)
  const SYNC: Byte := ToByte(0xF0)
  const HEADER_LEN: nat := 4
  const PAYLOAD_LEN: nat := 12

  datatype Packet = Packet(flags: Byte, addr: Byte, cmd: Byte, payload: seq<Byte>) {
    predicate Fits() {
      |payload| <= PAYLOAD_LEN
    }
  }

  /** Header and payload: the bytes the CRC covers. */
  function Body(p: Packet): seq<Byte>
    requires p.Fits()
  {
    [p.flags, p.addr, p.cmd, ToByte(|p.payload|)] + p.payload
  }

  /** The packet that a body stands for. */
  function Unpack(body: seq<Byte>): Packet
    requires |body| >= HEADER_LEN
  {
    Packet(body[0], body[1], body[2], body[HEADER_LEN..])
  }

  /** The body with its CRC. */
  function Sealed(p: Packet): (t: seq<Byte>)
    requires p.Fits()
  {
    Body(p) + [Fold(ZERO, Body(p))]
  }

  const LEAD := [PREAMBLE, PREAMBLE, PREAMBLE, PREAMBLE, SYNC]

  /** What goes on the wire for one packet. */
  function Frame(p: Packet): (f: seq<Byte>)
    requires p.Fits()
    ensures |f| == |p.payload| + 10
  {
    LEAD + Sealed(p)
  }

  /** The frame byte by byte: four preambles 0x55, sync 0xF0, flags, address, command, length, payload, CRC. */
  lemma FrameLayout(p: Packet)
    requires p.Fits()
    ensures var f, n := Frame(p), |p.payload|;
            && |f| == n + 10
            && (forall k :: 0 <= k < 4 ==> f[k] == ToByte(0x55)) && f[4] == ToByte(0xF0)
            && f[5] == p.flags && f[6] == p.addr && f[7] == p.cmd && f[8] == ToByte(n)
            && f[9..9 + n] == p.payload && f[9 + n] == Fold(ZERO, f[5..9 + n])
  {
    var n := |p.payload|;
    assert Frame(p)[5..] == Sealed(p);
    assert Frame(p)[5..9 + n] == Body(p);
  }

  predicate AllFit(ps: seq<Packet>) {
    forall p :: p in ps ==> p.Fits()
  }

  function Frames(ps: seq<Packet>): seq<Byte>
    requires AllFit(ps)
  {
    if ps == [] then [] else Frame(ps[0]) + Frames(ps[1..])
  }

  // ---------------------------------------------------------------- whole-stream scanner

  /** The packets in a stream: skip to a preamble, skip preambles to a sync byte, then take a frame whole. */
  function Scan(s: seq<Byte>): seq<Packet>
    decreases |s|, 0
  {
    if s == [] then []
    else if s[0] == PREAMBLE then AfterPreamble(s[1..])
    else Scan(s[1..])
  }

  function AfterPreamble(s: seq<Byte>): seq<Packet>
    decreases |s|, 0
  {
    if s == [] then []
    else if s[0] == SYNC then AfterSync(s[1..])
    else if s[0] == PREAMBLE then AfterPreamble(s[1..])
    else Scan(s[1..])
  }

  function AfterSync(s: seq<Byte>): seq<Packet>
    decreases |s|, 0
  {
    if |s| < HEADER_LEN then [] else
      var n := FromByte(s[3]);
      if n > PAYLOAD_LEN then Scan(s[HEADER_LEN..])
      else if |s| < n + 5 then []
      else (if Checked(s[..n + 5]) then [Unpack(s[..n + 4])] else []) + Scan(s[n + 5..])
  }

  // ---------------------------------------------------------------- printing and scanning are inverse

  lemma UnpackBody(p: Packet)
    requires p.Fits()
    ensures Unpack(Body(p)) == p
    ensures FromByte(Body(p)[3]) == |p.payload|
  {
    assert Body(p)[HEADER_LEN..] == p.payload;
  }

  /** A block of bytes that starts with a header announcing its own length. */
  predicate WellSized(t: seq<Byte>) {
    |t| >= 5 && FromByte(t[3]) <= PAYLOAD_LEN && |t| == FromByte(t[3]) + 5
  }

  lemma ScanLead(t: seq<Byte>)
    ensures Scan(LEAD + t) == AfterSync(t) == AfterPreamble(LEAD + t)
  {
    var s := LEAD + t;
    assert s[1..][1..][1..][1..][1..] == t;
    assert s[0] == s[1..][0] == s[1..][1..][0] == s[1..][1..][1..][0] == PREAMBLE;
    assert s[1..][1..][1..][1..][0] == SYNC != PREAMBLE;
    assert AfterPreamble(s[1..][1..][1..][1..]) == AfterSync(t);
    assert AfterPreamble(s[1..][1..][1..]) == AfterSync(t);
    assert AfterPreamble(s[1..][1..]) == AfterSync(t);
  }

  /**
   A frame-sized block after the sync byte yields its packet when the CRC agrees and nothing
   otherwise; either way scanning resumes exactly behind it.
   */
  lemma ScanBlock(t: seq<Byte>, rest: seq<Byte>)
    requires WellSized(t)
    ensures AfterSync(t + rest) == (if Checked(t) then [Unpack(t[..|t| - 1])] else []) + Scan(rest)
  {
    var s := t + rest;
    assert s[..|t|] == t && s[..|t| - 1] == t[..|t| - 1] && s[|t|..] == rest;
  }

  lemma FrameBlock(p: Packet)
    requires p.Fits()
    ensures WellSized(Sealed(p)) && Checked(Sealed(p))
    ensures Sealed(p)[..|Sealed(p)| - 1] == Body(p)
  {
    UnpackBody(p);
  }

  lemma ScanFrame(p: Packet, rest: seq<Byte>)
    requires p.Fits()
    ensures Scan(Frame(p) + rest) == AfterPreamble(Frame(p) + rest) == [p] + Scan(rest)
  {
    ConcatAssociative(LEAD, Sealed(p), rest);
    ScanLead(Sealed(p) + rest);
    ScanSealed(p, rest);
  }

  lemma ScanSealed(p: Packet, rest: seq<Byte>)
    requires p.Fits()
    ensures AfterSync(Sealed(p) + rest) == [p] + Scan(rest)
  {
    FrameBlock(p);
    ScanBlock(Sealed(p), rest);
    UnpackBody(p);
  }

  lemma FramesCons(ps: seq<Packet>, rest: seq<Byte>)
    requires AllFit(ps) && ps != []
    ensures Frames(ps) + rest == Frame(ps[0]) + (Frames(ps[1..]) + rest)
  {
    ConcatAssociative(Frame(ps[0]), Frames(ps[1..]), rest);
  }

  lemma HeadAndTail<T>(s: seq<T>, rest: seq<T>)
    requires s != []
    ensures [s[0]] + (s[1..] + rest) == s + rest
  {}

  /** Scanning what was printed gives back the packets, whatever comes after them. */
  lemma {:induction false} ScanFrames(ps: seq<Packet>, rest: seq<Byte>)
    requires AllFit(ps)
    ensures Scan(Frames(ps) + rest) == ps + Scan(rest)
  {
    if ps == [] {
      NothingToScan(rest);
    } else {
      ScanFrames(ps[1..], rest);
      FramesCons(ps, rest);
      ScanFrame(ps[0], Frames(ps[1..]) + rest);
      HeadAndTail(ps, Scan(rest));
    }
  }

  lemma NothingToScan(rest: seq<Byte>)
    ensures Scan(Frames([]) + rest) == [] + Scan(rest)
  {
    assert Frames([]) + rest == rest;
  }

  /** The same when a preamble had already been seen. */
  lemma AfterPreambleFrames(ps: seq<Packet>, rest: seq<Byte>)
    requires AllFit(ps) && ps != []
    ensures AfterPreamble(Frames(ps) + rest) == ps + Scan(rest)
  {
    ScanFrames(ps, rest);
    FramesCons(ps, rest);
    ScanFrame(ps[0], Frames(ps[1..]) + rest);
  }

  /** Different packet lists never print to the same bytes. */
  lemma FramesInjective(ps: seq<Packet>, qs: seq<Packet>)
    requires AllFit(ps) && AllFit(qs)
    requires Frames(ps) == Frames(qs)
    ensures ps == qs
  {
    ScanFrames(ps, []);
    ScanFrames(qs, []);
    assert Frames(ps) + [] == Frames(ps) && Frames(qs) + [] == Frames(qs);
    assert ps + Scan([]) == ps && qs + Scan([]) == qs;
  }

  // ---------------------------------------------------------------- damaged frames

  /** How a transmitted block may be damaged: a burst of at most eight bits, or an odd number of bits. */
  ghost predicate Damaged(s: seq<Byte>, t: seq<Byte>) {
    && |s| == |t|
    && (|| (exists start :: CrcDetection.IsBurst(CrcDetection.Pattern(s, t), start))
        || CrcDetection.Count(CrcDetection.Pattern(s, t)) % 2 == 1)
  }

  /** A damaged frame whose length byte survived delivers nothing, and costs no byte of what follows. */
  lemma DamagedFrameDropped(p: Packet, t: seq<Byte>, rest: seq<Byte>)
    requires p.Fits()
    requires Damaged(Sealed(p), t)
    requires t[3] == Body(p)[3]
    ensures Scan(LEAD + t + rest) == AfterPreamble(LEAD + t + rest) == Scan(rest)
  {
    var s := Sealed(p);
    FrameBlock(p);
    if start :| CrcDetection.IsBurst(CrcDetection.Pattern(s, t), start) {
      CrcDetection.BurstDetected(s, t, start);
    } else {
      CrcDetection.OddDetected(s, t);
    }
    ConcatAssociative(LEAD, t, rest);
    ScanLead(t + rest);
    ScanBlock(t, rest);
  }
}
