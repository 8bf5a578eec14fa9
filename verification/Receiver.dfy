/** The receive half of the packet module (src/pkt.c): the byte-at-a-time parser and its one buffer. */
module Receiver {
  import opened Bytes
  import opened Crc
  import opened Packet

  datatype State = Search | Sync | Header | Data | Check

  const BUF_LEN: nat := 16

  /** The module's variables, with the two pointers to the single buffer reduced to whether they are set. */
  datatype Rx = Rx(state: State, inuse: bool, ready: bool, buf: seq<Byte>, idx: nat, crc: Byte, len: nat) {
    /** The parser is in the middle of a packet. */
    predicate Busy() {
      state.Header? || state.Data? || state.Check?
    }

    /** Every write the parser is about to make lies inside the buffer. */
    predicate Bounded() {
      && |buf| == BUF_LEN
      && (state.Header? ==> idx < HEADER_LEN)
      && (state.Data? ==> HEADER_LEN <= idx && 1 <= len && idx + len <= BUF_LEN)
      && (state.Check? ==> HEADER_LEN <= idx <= BUF_LEN)
    }

    predicate Active() {
      inuse || ready || (state != Search && state != Sync)
    }

    function Reset(): Rx {
      this.(state := Search, inuse := false, ready := false)
    }
  }

  function ClearBuffer(): (buf: seq<Byte>)
    ensures |buf| == BUF_LEN && forall i :: 0 <= i < BUF_LEN ==> buf[i] == ZERO
  {
    seq(BUF_LEN, _ => ZERO)
  }

  const INITIAL := Rx(Search, false, false, ClearBuffer(), 0, ZERO, 0)

  /** A sync byte starts a packet if the buffer is free; otherwise the packet is ignored. */
  function SyncRead(r: Rx): Rx {
    if r.inuse then r.(state := Search)
    else r.(state := Header, inuse := true, idx := 0, crc := ZERO)
  }

  /** A byte inside a packet goes into the CRC and into the buffer. */
  function Stored(r: Rx, b: Byte): Rx
    requires r.idx < |r.buf|
  {
    r.(buf := r.buf[r.idx := b], crc := Update(r.crc, b), idx := r.idx + 1)
  }

  /** The header is complete: its length byte decides how to go on. */
  function HeaderRead(r: Rx): Rx
    requires |r.buf| == BUF_LEN
  {
    var len := FromByte(r.buf[3]);
    if len == 0 then r.(len := len, state := Check)
    else if len > PAYLOAD_LEN then r.(len := len, state := Search, inuse := false)
    else r.(len := len, state := Data)
  }

  /** What one received byte does. */
  function Step(r: Rx, b: Byte): (r': Rx)
    requires r.Bounded()
    ensures r'.Bounded()
  {
    match r.state
    case Search =>
      if b == PREAMBLE then r.(state := Sync) else r
    case Sync =>
      if b == SYNC then
        SyncRead(r)
      else if b != PREAMBLE then r.(state := Search)
      else r
    case Header =>
      var r' := Stored(r, b);
      if r'.idx < HEADER_LEN then r' else HeaderRead(r')
    case Data =>
      var r' := Stored(r, b).(len := r.len - 1);
      if r'.len == 0 then r'.(state := Check) else r'
    case Check =>
      if b == r.crc then r.(state := Search, ready := true)
      else r.(state := Search, inuse := false)
  }

  function Steps(r: Rx, s: seq<Byte>): (r': Rx)
    requires r.Bounded()
    ensures r'.Bounded()
    decreases |s|
  {
    if s == [] then r else Steps(Step(r, s[0]), s[1..])
  }

  class PktModule {
    var state: State
    var rxbufInUse: bool
    const rxbuf: array<Byte>
    var readyPacket: array?<Byte>
    // static variables of pkt_parser
    var idx: nat
    var crc: Byte
    var len: nat
    var pbuf: array?<Byte>

    ghost predicate Valid()
      reads this, rxbuf
    {
      && rxbuf.Length == BUF_LEN
      && (readyPacket != null ==> readyPacket == rxbuf)
      && (state.Header? || state.Data? || state.Check? ==> pbuf == rxbuf)
      && View().Bounded()
    }

    ghost function View(): Rx
      reads this, rxbuf
    {
      Rx(state, rxbufInUse, readyPacket != null, rxbuf[..], idx, crc, len)
    }

    constructor ()
      ensures Valid() && fresh(rxbuf) && View() == INITIAL
    {
      state := Search;
      rxbufInUse := false;
      rxbuf := new Byte[BUF_LEN](_ => ZERO);
      readyPacket := null;
      idx, crc, len, pbuf := 0, ZERO, 0, null;
      new;
      assert rxbuf[..] == INITIAL.buf;
    }

    method IsActive() returns (active: bool)
      requires Valid()
      ensures active == View().Active()
    {
      active := false;
      if rxbufInUse || readyPacket != null || (state != Search && state != Sync) {
        active := true;
      }
    }

    method Reset()
      requires Valid()
      modifies this
      ensures Valid() && View() == old(View()).Reset()
    {
      state := Search;
      rxbufInUse := false;
      readyPacket := null;
    }

    method RxFree(pktbuf: array?<Byte>)
      modifies this`rxbufInUse
      ensures View() == old(View()).(inuse := false)
    {
      rxbufInUse := false;
    }

    method RxAlloc() returns (ret: array?<Byte>)
      modifies this`rxbufInUse
      ensures View() == old(View()).(inuse := true)
      ensures ret == if old(rxbufInUse) then null else rxbuf
    {
      if !rxbufInUse {
        rxbufInUse := true;
        ret := rxbuf;
      } else {
        ret := null;
      }
    }

    method Ready() returns (ret: array?<Byte>)
      requires Valid()
      modifies this
      ensures Valid() && View() == old(View()).(ready := false)
      ensures ret == if old(View()).ready then rxbuf else null
    {
      ret := readyPacket;
      readyPacket := null;
    }

    /** The parser takes the buffer if it can. */
    method StartPacket()
      modifies this
      ensures View() == SyncRead(old(View()))
      ensures readyPacket == old(readyPacket) && pbuf == if old(rxbufInUse) then null else rxbuf
    {
      pbuf := RxAlloc();
      if pbuf != null {
        state := Header;
        idx := 0;
        crc := ZERO;
      } else {
        state := Search;
      }
    }

    /** What a byte inside a packet does first. */
    method Store(nextbyte: Byte)
      requires pbuf == rxbuf && idx < rxbuf.Length
      modifies this`crc, this`idx, rxbuf
      ensures View() == Stored(old(View()), nextbyte)
    {
      crc := Crc8CcittUpdate(crc, nextbyte);
      pbuf[idx] := nextbyte;
      idx := idx + 1;
    }

    /** The fourth header byte decides how to go on. */
    method EndHeader()
      requires pbuf == rxbuf && rxbuf.Length == BUF_LEN
      modifies this`state, this`len, this`rxbufInUse
      ensures View() == HeaderRead(old(View()))
    {
      len := FromByte(pbuf[3]);
      if len == 0 {
        state := Check;
      } else if len > PAYLOAD_LEN {
        RxFree(pbuf);
        state := Search;
      } else {
        state := Data;
      }
    }

    /** State `Sync`. */
    method InSync(nextbyte: Byte)
      requires Valid() && state.Sync?
      modifies this, rxbuf
      ensures Valid() && View() == Step(old(View()), nextbyte)
    {
      if nextbyte == SYNC {
        StartPacket();
      } else if nextbyte != PREAMBLE {
        state := Search;
      }
    }

    /** State `Header`. */
    method InHeader(nextbyte: Byte)
      requires Valid() && state.Header?
      modifies this, rxbuf
      ensures Valid() && View() == Step(old(View()), nextbyte)
    {
      ghost var v := View();
      Store(nextbyte);
      assert View() == Stored(v, nextbyte);
      if idx == HEADER_LEN {
        EndHeader();
        assert View() == HeaderRead(Stored(v, nextbyte));
      }
    }

    /** State `Data`. */
    method InData(nextbyte: Byte)
      requires Valid() && state.Data?
      modifies this, rxbuf
      ensures Valid() && View() == Step(old(View()), nextbyte)
    {
      ghost var v := View();
      Store(nextbyte);
      assert View() == Stored(v, nextbyte);
      len := len - 1;
      assert View() == Stored(v, nextbyte).(len := v.len - 1);
      if len == 0 {
        state := Check;
      }
    }

    /** State `Check`. */
    method InCheck(nextbyte: Byte)
      requires Valid() && state.Check?
      modifies this, rxbuf
      ensures Valid() && View() == Step(old(View()), nextbyte)
    {
      state := Search;
      if nextbyte == crc {
        readyPacket := pbuf;
      } else {
        RxFree(pbuf);
      }
    }

    method Parser(nextbyte: Byte)
      requires Valid()
      modifies this, rxbuf
      ensures Valid() && View() == Step(old(View()), nextbyte)
    {
      match state {
        case Search =>
          if nextbyte == PREAMBLE {
            state := Sync;
          }
        case Sync => InSync(nextbyte);
        case Header => InHeader(nextbyte);
        case Data => InData(nextbyte);
        case Check => InCheck(nextbyte);
      }
    }

    /** The receive interrupt, once for each byte of `s`. */
    method Receive(s: seq<Byte>)
      requires Valid()
      modifies this, rxbuf
      ensures Valid() && View() == Steps(old(View()), s)
    {
      for i := 0 to |s|
        invariant Valid()
        invariant Steps(View(), s[i..]) == Steps(old(View()), s)
      {
        Parser(s[i]);
      }
    }
  }

  // ---------------------------------------------------------------- resynchronisation

  /** How many preamble bytes the parser needs to come out of the packet it is in. */
  function Depth(r: Rx): nat
    requires r.Bounded()
  {
    match r.state
    case Search => 0
    case Sync => 0
    case Header => HEADER_LEN - r.idx
    case Data => r.len + 1
    case Check => 1
  }

  lemma PreambleStep(r: Rx)
    requires r.Bounded()
    ensures Depth(Step(r, PREAMBLE)) == if Depth(r) == 0 then 0 else Depth(r) - 1
    ensures !r.Busy() ==> Step(r, PREAMBLE).state == Sync
    ensures r.Busy() ==> Step(r, PREAMBLE).state != Sync
  {
  }

  function Preambles(n: nat): (s: seq<Byte>)
    ensures |s| == n
  {
    seq(n, _ => PREAMBLE)
  }

  /** Exactly how many preamble bytes get the parser out of any state, and into the sync state. */
  lemma {:induction false} Resynchronise(r: Rx, n: nat)
    requires r.Bounded()
    ensures !Steps(r, Preambles(n)).Busy() <==> n >= Depth(r)
    ensures n > 0 ==> (Steps(r, Preambles(n)).state == Sync <==> n > Depth(r))
    decreases n
  {
    if n > 0 {
      var r' := Step(r, PREAMBLE);
      assert Preambles(n)[1..] == Preambles(n - 1);
      PreambleStep(r);
      Resynchronise(r', n - 1);
    }
  }

  /** Thirteen preambles always suffice to leave a packet, fourteen to reach the sync state. */
  lemma ThirteenPreambles(r: Rx, n: nat)
    requires r.Bounded()
    ensures n >= 13 ==> !Steps(r, Preambles(n)).Busy()
    ensures n >= 14 ==> Steps(r, Preambles(n)).state == Sync
  {
    Resynchronise(r, n);
  }

  /** A packet start brings an idle parser to an empty header. */
  function Started(r: Rx): Rx {
    r.(state := Header, inuse := true, idx := 0, crc := ZERO)
  }

  lemma StartPacketSteps(r: Rx, s: seq<Byte>)
    requires r.Bounded() && r.state == Search && !r.inuse
    ensures Steps(r, [PREAMBLE] + ([SYNC] + s)) == Steps(Started(r), s)
  {
    StepsCons(r, PREAMBLE, [SYNC] + s);
    StepsCons(r.(state := Sync), SYNC, s);
  }

  /** Four header bytes. */
  function HeaderBytes(a: Byte, b: Byte, c: Byte, d: Byte): seq<Byte> {
    [a] + ([b] + ([c] + ([d] + [])))
  }

  /** A whole header: its length byte decides how to go on. */
  lemma HeaderSteps(r: Rx, a: Byte, b: Byte, c: Byte, d: Byte)
    requires r.Bounded() && r.state == Header && r.idx == 0
    ensures var r' := Steps(r, HeaderBytes(a, b, c, d));
            && r'.ready == r.ready
            && (0 < FromByte(d) <= PAYLOAD_LEN ==> r'.state == Data && r'.len == FromByte(d))
            && (FromByte(d) > PAYLOAD_LEN ==> r'.state == Search && !r'.inuse)
  {
    var r1 := Step(r, a);
    var r2 := Step(r1, b);
    var r3 := Step(r2, c);
    StepsCons(r, a, [b] + ([c] + ([d] + [])));
    StepsCons(r1, b, [c] + ([d] + []));
    StepsCons(r2, c, [d] + []);
    StepsCons(r3, d, []);
  }

  /** Twelve do not: the parser may just have read a header that announces twelve bytes. */
  lemma TwelvePreamblesTooFew(a: Byte, b: Byte, c: Byte)
    ensures var header := HeaderBytes(a, b, c, ToByte(12));
            Steps(INITIAL, [PREAMBLE] + ([SYNC] + (header + Preambles(12)))).Busy()
  {
    var header := HeaderBytes(a, b, c, ToByte(12));
    StartPacketSteps(INITIAL, header + Preambles(12));
    StepsConcat(Started(INITIAL), header, Preambles(12));
    HeaderSteps(Started(INITIAL), a, b, c, ToByte(12));
    Resynchronise(Steps(Started(INITIAL), header), 12);
  }

  /** Preambles and sync byte bring a free, searching parser to an empty header. */
  lemma StepsLead(r: Rx)
    requires r.Bounded() && r.state == Search && !r.inuse
    ensures Steps(r, LEAD) == Started(r)
  {
    assert LEAD == [PREAMBLE] + ([PREAMBLE] + ([PREAMBLE] + ([PREAMBLE] + ([SYNC] + []))));
    var r' := r.(state := Sync);
    StepsCons(r', SYNC, []);
    StepsCons(r', PREAMBLE, [SYNC] + []);
    StepsCons(r', PREAMBLE, [PREAMBLE] + ([SYNC] + []));
    StepsCons(r', PREAMBLE, [PREAMBLE] + ([PREAMBLE] + ([SYNC] + [])));
    StepsCons(r, PREAMBLE, [PREAMBLE] + ([PREAMBLE] + ([PREAMBLE] + ([SYNC] + []))));
  }

  /** A searching parser takes no notice of anything but a preamble. */
  lemma {:induction false} SearchNeedsPreamble(r: Rx, s: seq<Byte>)
    requires r.Bounded() && r.state == Search && PREAMBLE !in s
    ensures Steps(r, s) == r
    decreases |s|
  {
    if s != [] {
      SearchNeedsPreamble(r, s[1..]);
    }
  }

  /** A packet that begins while the buffer is in use is ignored; after its sync byte only a new preamble is heard. */
  lemma BusyBufferIgnoresPacket(r: Rx, s: seq<Byte>)
    requires r.Bounded() && r.state == Sync && r.inuse && PREAMBLE !in s
    ensures Steps(r, [SYNC] + s) == r.(state := Search)
  {
    StepsCons(r, SYNC, s);
    SearchNeedsPreamble(r.(state := Search), s);
  }

  lemma StepsCons(r: Rx, b: Byte, s: seq<Byte>)
    requires r.Bounded()
    ensures Steps(r, [b] + s) == Steps(Step(r, b), s)
  {
    assert ([b] + s)[1..] == s;
  }

  lemma {:induction false} StepsConcat(r: Rx, s: seq<Byte>, t: seq<Byte>)
    requires r.Bounded()
    ensures Steps(r, s + t) == Steps(Steps(r, s), t)
    decreases |s|
  {
    if s == [] {
      assert s + t == t;
    } else {
      assert (s + t)[1..] == s[1..] + t;
      StepsConcat(Step(r, s[0]), s[1..], t);
    }
  }
}
