/** The packet timeout of `cmd_process` (src/cmd.c) in true time: which packets it cuts, and which it cannot. */
module PacketTimeout {
  import opened Bytes
  import opened Packet
  import opened Receiver
  import opened Custody
  import T = Timers

  const LIMIT: nat := 5000

  /** A look at the timeout when the clock shows `tick`: what becomes of the buffer, and of `pkt_timeout`. */
  function LookAt(s: Sys, timeout: nat, tick: nat): (Sys, nat)
    requires Inv(s)
  {
    var s' := Apply(s, Watch(T.Expired16(tick, timeout)));
    (s', if !s.waiting && s'.waiting then Wrap16(tick + LIMIT) else timeout)
  }

  /** The custody machine with a clock. */
  datatype Timed = Timed(
    sys: Sys,
    now: nat,           // true time
    timeout: nat,       // pkt_timeout
    started: nat,       // when the running timeout was started
    lastEnd: nat)       // when `cmd_process` or the main loop was last done with the packet module

  /** `Look` is the act of watching, its flag now decided by the clock. */
  datatype Event = Tick | Do(act: Act) | Look

  predicate Proper(e: Event) {
    e.Do? ==> !e.act.Watch?
  }

  /** The wrapped timeout is the running one, and nobody who holds a packet is waiting for one. */
  predicate Sound(z: Timed) {
    && Inv(z.sys) && z.lastEnd <= z.now
    && (z.sys.Held() ==> !z.sys.waiting)
    && (z.sys.waiting ==> z.timeout == Wrap16(z.started + LIMIT) && z.started <= z.lastEnd)
  }

  function Next(z: Timed, e: Event): Timed
    requires Sound(z) && Proper(e)
  {
    match e
    case Tick => z.(now := z.now + 1)
    case Do(a) =>
      z.(sys := Apply(z.sys, a), lastEnd := if a == Release && z.sys.pc == InLoop then z.now else z.lastEnd)
    case Look =>
      var (s', timeout') := LookAt(z.sys, z.timeout, Wrap16(z.now));
      z.(sys := s', timeout := timeout',
         started := if !z.sys.waiting && s'.waiting then z.now else z.started,
         lastEnd := if z.sys.pc == Waiting then z.now else z.lastEnd)
  }

  lemma DoIsSound(z: Timed, a: Act)
    requires Sound(z) && !a.Watch?
    ensures Sound(Next(z, Do(a)))
  {
    ActKeepsInv(z.sys, a);
  }

  lemma LookIsSound(z: Timed)
    requires Sound(z)
    ensures Sound(Next(z, Look))
  {
    ActKeepsInv(z.sys, Watch(T.Expired16(Wrap16(z.now), z.timeout)));
    assert Wrap16(Wrap16(z.now) + LIMIT) == Wrap16(z.now + LIMIT);
  }

  lemma NextIsSound(z: Timed, e: Event)
    requires Sound(z) && Proper(e)
    ensures Sound(Next(z, e))
  {
    match e
    case Tick =>
    case Do(a) => DoIsSound(z, a);
    case Look => LookIsSound(z);
  }

  /** The timeout expires at this event. */
  predicate Fires(z: Timed, e: Event) {
    e.Look? && z.sys.pc == Waiting && z.sys.waiting && T.Expired16(Wrap16(z.now), z.timeout)
  }

  // ---------------------------------------------------------------- runs

  predicate AllProper(es: seq<Event>) {
    forall e :: e in es ==> Proper(e)
  }

  function Play(z: Timed, es: seq<Event>): (z': Timed)
    requires Sound(z) && AllProper(es)
    ensures Sound(z') && z.now <= z'.now
    decreases |es|
  {
    if es == [] then z else
      assert Proper(es[0]);
      NextIsSound(z, es[0]);
      Play(Next(z, es[0]), es[1..])
  }

  /** The timeout never expires during the run. */
  predicate Silent(z: Timed, es: seq<Event>)
    requires Sound(z) && AllProper(es)
    decreases |es|
  {
    es == [] ||
    (assert Proper(es[0]);
     NextIsSound(z, es[0]);
     !Fires(z, es[0]) && Silent(Next(z, es[0]), es[1..]))
  }

  /** `cmd_process` is called, and done with, at least every `d` ticks. */
  predicate Prompt(z: Timed, d: nat, es: seq<Event>)
    requires Sound(z) && AllProper(es)
    decreases |es|
  {
    es == [] ||
    (assert Proper(es[0]);
     NextIsSound(z, es[0]);
     (es[0].Tick? ==> z.now + 1 <= z.lastEnd + d) && Prompt(Next(z, es[0]), d, es[1..]))
  }

  /** What promptness keeps: a running timeout was looked at before it was due, and not long ago. */
  predicate Timely(z: Timed, d: nat) {
    && Sound(z) && 1 <= d <= 0x8000
    && z.now <= z.lastEnd + d
    && (z.sys.waiting ==> z.lastEnd < z.started + LIMIT)
  }

  /** A running timeout of a prompt loop expires in true time. */
  lemma ExpiryIsTrue(z: Timed, d: nat)
    requires Timely(z, d) && z.sys.waiting
    ensures T.Expired16(Wrap16(z.now), z.timeout) <==> z.started + LIMIT <= z.now
  {
    T.ExpiredInWindow(z.now, z.started + LIMIT);
  }

  lemma NextIsTimely(z: Timed, d: nat, e: Event)
    requires Timely(z, d) && Proper(e) && (e.Tick? ==> z.now + 1 <= z.lastEnd + d)
    ensures Timely(Next(z, e), d)
  {
    NextIsSound(z, e);
    if z.sys.waiting {
      ExpiryIsTrue(z, d);
    }
  }

  lemma {:induction false} PlayIsTimely(z: Timed, d: nat, es: seq<Event>)
    requires Timely(z, d) && AllProper(es) && Prompt(z, d, es)
    ensures Timely(Play(z, es), d)
    decreases |es|
  {
    if es != [] {
      assert Proper(es[0]);
      NextIsTimely(z, d, es[0]);
      PlayIsTimely(Next(z, es[0]), d, es[1..]);
    }
  }

  function Ticks(n: nat): (es: seq<Event>)
    ensures AllProper(es)
  {
    if n == 0 then [] else [Tick] + Ticks(n - 1)
  }

  lemma {:induction false} PlayTicks(z: Timed, n: nat)
    requires Sound(z)
    ensures Play(z, Ticks(n)) == z.(now := z.now + n)
    decreases n
  {
    if n > 0 {
      assert Ticks(n)[0] == Tick && Ticks(n)[1..] == Ticks(n - 1);
      PlayTicks(z.(now := z.now + 1), n - 1);
    }
  }

  // ---------------------------------------------------------------- when a packet is cut

  /**
   A look cuts the packet being received if and only if a timeout is running and was started at least 5000 ms ago,
   whoever it was started for. The packet's buffer is then free.
   */
  lemma LookCutsIff(z: Timed, d: nat)
    requires Timely(z, d) && z.sys.pc == Waiting && z.sys.rx.Busy()
    ensures !Next(z, Look).sys.rx.Busy() <==> z.sys.waiting && z.started + LIMIT <= z.now
    ensures !Next(z, Look).sys.rx.Busy() ==> Next(z, Look).sys.rx == z.sys.rx.Reset()
    ensures Fires(z, Look) <==> !Next(z, Look).sys.rx.Busy()
  {
    if z.sys.waiting {
      ExpiryIsTrue(z, d);
    }
  }

  /** No timeout that was started at `t0` or later expires before `t0 + 5000`, in any run, prompt or not. */
  lemma {:induction false} SilentUntil(z: Timed, es: seq<Event>, t0: nat)
    requires Sound(z) && AllProper(es)
    requires t0 <= z.now && (z.sys.waiting ==> t0 <= z.started)
    requires Play(z, es).now < t0 + LIMIT
    ensures Silent(z, es)
    decreases |es|
  {
    if es != [] {
      assert Proper(es[0]);
      NextIsSound(z, es[0]);
      if z.sys.waiting {
        T.ExpiredInWindow(z.now, z.started + LIMIT);
      }
      SilentUntil(Next(z, es[0]), es[1..], t0);
    }
  }

  /** `n` turns of a main loop that finds no packet, a tick after each. */
  function Rounds(n: nat): (es: seq<Event>)
    ensures AllProper(es)
  {
    if n == 0 then [] else [Do(Poll)] + ([Look] + ([Tick] + Rounds(n - 1)))
  }

  lemma {:induction false} PlayConcat(z: Timed, a: seq<Event>, b: seq<Event>)
    requires Sound(z) && AllProper(a) && AllProper(b)
    ensures AllProper(a + b)
    ensures Play(z, a + b) == Play(Play(z, a), b)
    ensures Silent(z, a + b) <==> Silent(z, a) && Silent(Play(z, a), b)
    ensures forall d: nat :: Prompt(z, d, a + b) <==> Prompt(z, d, a) && Prompt(Play(z, a), d, b)
    decreases |a|
  {
    if a == [] {
      assert a + b == b;
    } else {
      assert Proper(a[0]);
      NextIsSound(z, a[0]);
      assert (a + b)[1..] == a[1..] + b;
      PlayConcat(Next(z, a[0]), a[1..], b);
    }
  }

  /** The state after `n` such turns, if the timeout does not expire. */
  function Waited(z: Timed, n: nat): Timed {
    if n == 0 then z else z.(sys := z.sys.(pc := Top), now := z.now + n, lastEnd := z.now + n - 1)
  }

  /** Nobody holds a packet, and none is ready. */
  predicate BetweenPackets(s: Sys) {
    (s.pc == Top || s.pc == Waiting) && !s.rx.ready
  }

  lemma PlayCons(z: Timed, d: nat, e: Event, rest: seq<Event>)
    requires Timely(z, d) && Proper(e) && AllProper(rest) && (e.Tick? ==> z.now + 1 <= z.lastEnd + d)
    ensures AllProper([e] + rest) && Timely(Next(z, e), d)
    ensures Play(z, [e] + rest) == Play(Next(z, e), rest)
    ensures Silent(z, [e] + rest) <==> !Fires(z, e) && Silent(Next(z, e), rest)
    ensures Prompt(z, d, [e] + rest) <==> Prompt(Next(z, e), d, rest)
  {
    NextIsTimely(z, d, e);
    assert ([e] + rest)[1..] == rest;
  }

  lemma RoundWaits(z: Timed, d: nat, rest: seq<Event>)
    requires Timely(z, d) && z.sys.waiting && BetweenPackets(z.sys) && z.now < z.started + LIMIT && AllProper(rest)
    ensures Timely(Waited(z, 1), d)
    ensures var es := [Do(Poll)] + ([Look] + ([Tick] + rest));
            && AllProper(es) && Play(z, es) == Play(Waited(z, 1), rest)
            && (Silent(z, es) <==> Silent(Waited(z, 1), rest))
            && (Prompt(z, d, es) <==> Prompt(Waited(z, 1), d, rest))
  {
    var z1 := Next(z, Do(Poll));
    NextIsTimely(z, d, Do(Poll));
    ExpiryIsTrue(z1, d);
    var z2 := Next(z1, Look);
    NextIsTimely(z1, d, Look);
    PlayCons(z2, d, Tick, rest);
    PlayCons(z1, d, Look, [Tick] + rest);
    PlayCons(z, d, Do(Poll), [Look] + ([Tick] + rest));
    assert Next(z2, Tick) == Waited(z, 1);
  }

  lemma {:induction false} RoundsWait(z: Timed, d: nat, n: nat)
    requires Timely(z, d) && z.sys.waiting && BetweenPackets(z.sys) && z.now + n <= z.started + LIMIT
    ensures Play(z, Rounds(n)) == Waited(z, n) && Silent(z, Rounds(n)) && Prompt(z, d, Rounds(n))
    ensures Timely(Waited(z, n), d)
    decreases n
  {
    if n > 0 {
      RoundWaits(z, d, Rounds(n - 1));
      RoundsWait(Waited(z, 1), d, n - 1);
    }
  }

  /** A turn that finds no packet. */
  const TURN: seq<Event> := [Do(Poll)] + ([Look] + [])

  lemma TurnLooks(z: Timed, d: nat)
    requires Timely(z, d) && BetweenPackets(z.sys)
    ensures AllProper(TURN) && Prompt(z, d, TURN)
    ensures Timely(Next(z, Do(Poll)), d) && Play(z, TURN) == Next(Next(z, Do(Poll)), Look)
    ensures Timely(Play(z, TURN), d)
    ensures Silent(z, TURN) <==> !(z.sys.waiting && z.started + LIMIT <= z.now)
  {
    var z1 := Next(z, Do(Poll));
    NextIsTimely(z, d, Do(Poll));
    PlayCons(z1, d, Look, []);
    PlayCons(z, d, Do(Poll), [Look] + []);
    if z.sys.waiting {
      ExpiryIsTrue(z1, d);
    }
  }

  /**
   A packet has its full 5000 ms, whatever a prompt main loop does and however the bytes come, if and only if no
   timeout was running when it began (or was started in the same millisecond).
   */
  lemma FullTimeIff(z: Timed, d: nat)
    requires Timely(z, d) && z.sys.rx.Busy()
    ensures (forall es | AllProper(es) && Prompt(z, d, es) && Play(z, es).now < z.now + 5000 :: Silent(z, es)) <==>
            !z.sys.waiting || z.started == z.now
  {
    if !z.sys.waiting || z.started == z.now {
      forall es | AllProper(es) && Prompt(z, d, es) && Play(z, es).now < z.now + 5000 ensures Silent(z, es) {
        SilentUntil(z, es, z.now);
      }
    } else {
      var n := if z.now < z.started + LIMIT then z.started + LIMIT - z.now else 0;
      var es := Rounds(n) + TURN;
      RoundsWaitTo(z, d, n);
      TurnLooks(Waited(z, n), d);
      PlayConcat(z, Rounds(n), TURN);
      assert Prompt(z, d, es) && Play(z, es).now < z.now + LIMIT && !Silent(z, es);
    }
  }

  lemma RoundsWaitTo(z: Timed, d: nat, n: nat)
    requires Timely(z, d) && z.sys.waiting && BetweenPackets(z.sys)
    requires n == 0 || z.now + n <= z.started + LIMIT
    ensures Play(z, Rounds(n)) == Waited(z, n) && Silent(z, Rounds(n)) && Prompt(z, d, Rounds(n))
    ensures Timely(Waited(z, n), d) && BetweenPackets(Waited(z, n).sys)
  {
    if n > 0 {
      RoundsWait(z, d, n);
    }
  }

  // ---------------------------------------------------------------- a stalled packet

  predicate NoBytes(es: seq<Event>) {
    forall e :: e in es ==> !(e.Do? && e.act.RxByte?)
  }

  /** The buffer is free, and the parser searches. */
  predicate Freed(z: Timed) {
    z.sys.rx.state == Search && !z.sys.rx.inuse
  }

  /** Since `t0` no byte came: the timeout was started at most a loop period later, or that period is not over. */
  predicate Stalled(z: Timed, t0: nat, d: nat) {
    && z.sys.rx.Busy()
    && (if z.sys.waiting then z.started <= t0 + d else z.lastEnd <= t0)
  }

  lemma StalledStep(z: Timed, d: nat, t0: nat, e: Event)
    requires Timely(z, d) && Proper(e) && !(e.Do? && e.act.RxByte?)
    requires Stalled(z, t0, d) || Freed(z)
    ensures Stalled(Next(z, e), t0, d) || Freed(Next(z, e))
  {
    match e
    case Tick =>
    case Do(a) =>
    case Look =>
  }

  lemma {:induction false} StalledRun(z: Timed, d: nat, es: seq<Event>, t0: nat)
    requires Timely(z, d) && AllProper(es) && Prompt(z, d, es) && NoBytes(es)
    requires Stalled(z, t0, d) || Freed(z)
    ensures Stalled(Play(z, es), t0, d) || Freed(Play(z, es))
    decreases |es|
  {
    if es != [] {
      assert Proper(es[0]) && es[0] in es;
      NextIsTimely(z, d, es[0]);
      StalledStep(z, d, t0, es[0]);
      StalledRun(Next(z, es[0]), d, es[1..], t0);
    }
  }

  /** A packet that stops half-way never blocks the buffer for longer than 5000 ms and two loop periods. */
  lemma StalledPacketIsFreed(z: Timed, d: nat, es: seq<Event>)
    requires Timely(z, d) && z.sys.rx.Busy()
    requires AllProper(es) && Prompt(z, d, es) && NoBytes(es)
    ensures Play(z, es).now >= z.now + 5000 + 2 * d ==> Freed(Play(z, es))
  {
    StalledRun(z, d, es, z.now);
    PlayIsTimely(z, d, es);
  }

  // ---------------------------------------------------------------- a timeout outlives its packet

  function Arriving(bytes: seq<Byte>): (es: seq<Event>)
    ensures AllProper(es)
  {
    if bytes == [] then [] else [Do(RxByte(bytes[0]))] + Arriving(bytes[1..])
  }

  lemma {:induction false} PlayBytes(z: Timed, d: nat, bytes: seq<Byte>)
    requires Timely(z, d)
    ensures Play(z, Arriving(bytes)) == z.(sys := z.sys.(rx := Steps(z.sys.rx, bytes)))
    ensures Silent(z, Arriving(bytes)) && Prompt(z, d, Arriving(bytes)) && Timely(Play(z, Arriving(bytes)), d)
    decreases |bytes|
  {
    if bytes != [] {
      var e := Do(RxByte(bytes[0]));
      NextIsTimely(z, d, e);
      assert Arriving(bytes)[0] == e && Arriving(bytes)[1..] == Arriving(bytes[1..]);
      PlayBytes(Next(z, e), d, bytes[1..]);
    }
  }

  /** The receiver is free between two turns, and no timeout runs. */
  predicate Quiet(z: Timed) {
    z.sys.pc == Top && z.sys.rx.state == Search && !z.sys.rx.inuse && !z.sys.waiting
  }

  /** A packet begins, a turn starts the timeout, and the header turns out to be bad. */
  function BadPacket(a: Byte, b: Byte, c: Byte, len: Byte): (es: seq<Event>) {
    Arriving(LEAD) + (TURN + Arriving(HeaderBytes(a, b, c, len)))
  }

  lemma TurnStartsTimeout(z: Timed, d: nat)
    requires Timely(z, d) && z.sys.pc == Top && z.sys.rx.Busy() && !z.sys.waiting
    ensures AllProper(TURN) && Silent(z, TURN) && Prompt(z, d, TURN) && Timely(Play(z, TURN), d)
    ensures Play(z, TURN) == z.(sys := z.sys.(waiting := true),
                                timeout := Wrap16(z.now + LIMIT), started := z.now, lastEnd := z.now)
  {
    TurnLooks(z, d);
    assert Wrap16(Wrap16(z.now) + LIMIT) == Wrap16(z.now + LIMIT);
  }

  lemma PacketStartsTimeout(z: Timed, d: nat)
    requires Timely(z, d) && Quiet(z)
    ensures var z1 := Play(z, Arriving(LEAD));
            && Silent(z, Arriving(LEAD)) && Prompt(z, d, Arriving(LEAD)) && Timely(z1, d)
            && z1 == z.(sys := z.sys.(rx := Started(z.sys.rx))) && z1.sys.pc == Top && z1.sys.rx.Busy()
  {
    PlayBytes(z, d, LEAD);
    StepsLead(z.sys.rx);
  }

  lemma BadPacketWaits(z: Timed, d: nat, a: Byte, b: Byte, c: Byte, len: Byte)
    requires Timely(z, d) && Quiet(z) && FromByte(len) > PAYLOAD_LEN
    ensures AllProper(BadPacket(a, b, c, len))
    ensures var es := BadPacket(a, b, c, len);
            var dead := Play(z, es);
            && Silent(z, es) && Prompt(z, d, es) && Timely(dead, d)
            && Freed(dead) && dead.sys.pc == Top && dead.sys.waiting
            && dead.now == dead.started == z.now
  {
    var header := HeaderBytes(a, b, c, len);
    PacketStartsTimeout(z, d);
    var z1 := Play(z, Arriving(LEAD));
    TurnStartsTimeout(z1, d);
    var z2 := Play(z1, TURN);
    PlayBytes(z2, d, header);
    HeaderSteps(z2.sys.rx, a, b, c, len);
    PlayConcat(z1, TURN, Arriving(header));
    PlayConcat(z, Arriving(LEAD), TURN + Arriving(header));
  }

  /** A packet that begins when the running timeout is due is cut by the next turn. */
  lemma DueTimeoutCuts(z: Timed, d: nat)
    requires Timely(z, d) && Freed(z) && z.sys.pc == Top && z.sys.waiting && z.now == z.started + LIMIT
    ensures var newer := Play(z, Arriving(LEAD));
            && Silent(z, Arriving(LEAD)) && Prompt(z, d, Arriving(LEAD)) && Timely(newer, d)
            && newer.now == z.now && newer.sys.rx.state == Header && newer.sys.rx.idx == 0
            && AllProper(TURN) && Freed(Play(newer, TURN))
  {
    PlayBytes(z, d, LEAD);
    StepsLead(z.sys.rx);
    var newer := Play(z, Arriving(LEAD));
    TurnLooks(newer, d);
    LookCutsIff(Next(newer, Do(Poll)), d);
  }

  /**
   The failure, with clock values. A packet began at `z.now` and died of a bad header. The main loop comes round
   every millisecond. The next packet begins 5000 ms later, and the very next turn cuts it.
   */
  lemma StaleTimeoutCutsNewerPacket(z: Timed, d: nat, a: Byte, b: Byte, c: Byte, len: Byte)
    requires Timely(z, d) && Quiet(z) && FromByte(len) > PAYLOAD_LEN
    ensures AllProper(BadPacket(a, b, c, len) + (Rounds(LIMIT) + Arriving(LEAD)))
    ensures var es := BadPacket(a, b, c, len) + (Rounds(LIMIT) + Arriving(LEAD));
            var newer := Play(z, es);
            && Silent(z, es) && Prompt(z, d, es)
            && newer.now == z.now + LIMIT
            && newer.sys.rx.state == Header && newer.sys.rx.idx == 0
            && AllProper(TURN) && Freed(Play(newer, TURN))
  {
    BadPacketWaits(z, d, a, b, c, len);
    var dead := Play(z, BadPacket(a, b, c, len));
    RoundsWait(dead, d, LIMIT);
    DueTimeoutCuts(Waited(dead, LIMIT), d);
    PlayConcat(dead, Rounds(LIMIT), Arriving(LEAD));
    PlayConcat(z, BadPacket(a, b, c, len), Rounds(LIMIT) + Arriving(LEAD));
  }

  // ---------------------------------------------------------------- streaming under the clock

  /** The acts of one event. */
  function ActOf(z: Timed, e: Event): seq<Act> {
    match e
    case Tick => []
    case Do(a) => [a]
    case Look => [Watch(T.Expired16(Wrap16(z.now), z.timeout))]
  }

  /** The acts of a run, with the flags the clock gives. */
  function ActsOf(z: Timed, es: seq<Event>): seq<Act>
    requires Sound(z) && AllProper(es)
    decreases |es|
  {
    if es == [] then [] else
      assert Proper(es[0]);
      NextIsSound(z, es[0]);
      ActOf(z, es[0]) + ActsOf(Next(z, es[0]), es[1..])
  }

  function BytesOf(es: seq<Event>): seq<Byte> {
    if es == [] then []
    else (if es[0].Do? && es[0].act.RxByte? then [es[0].act.b] else []) + BytesOf(es[1..])
  }

  /** The buffer is free whenever a packet begins. */
  predicate KeepsUp(z: Timed, es: seq<Event>)
    requires Sound(z) && AllProper(es)
    decreases |es|
  {
    es == [] ||
    (assert Proper(es[0]);
     NextIsSound(z, es[0]);
     (es[0] == Do(RxByte(SYNC)) && z.sys.rx.state == Sync ==> !z.sys.rx.inuse) && KeepsUp(Next(z, es[0]), es[1..]))
  }

  /** Without an expiry, a client that keeps up is in time. */
  lemma {:induction false} SilentIsInTime(z: Timed, es: seq<Event>)
    requires Sound(z) && AllProper(es) && Silent(z, es) && KeepsUp(z, es)
    ensures AllInTime(z.sys, ActsOf(z, es))
    ensures Run(z.sys, ActsOf(z, es)) == Play(z, es).sys
    ensures Received(ActsOf(z, es)) == BytesOf(es)
    decreases |es|
  {
    if es != [] {
      assert Proper(es[0]);
      NextIsSound(z, es[0]);
      var rest := ActsOf(Next(z, es[0]), es[1..]);
      SilentIsInTime(Next(z, es[0]), es[1..]);
      match es[0]
      case Tick => assert [] + rest == rest && [] + BytesOf(es[1..]) == BytesOf(es[1..]);
      case Do(a) => ConsInTime(z.sys, a, rest);
      case Look => ConsInTime(z.sys, Watch(T.Expired16(Wrap16(z.now), z.timeout)), rest);
    }
  }

  lemma ConsInTime(s: Sys, a: Act, rest: seq<Act>)
    requires Inv(s) && InTime(s, a) && Inv(Apply(s, a)) && AllInTime(Apply(s, a), rest)
    ensures AllInTime(s, [a] + rest) && Run(s, [a] + rest) == Run(Apply(s, a), rest)
    ensures Received([a] + rest) == (if a.RxByte? then [a.b] else []) + Received(rest)
  {
    assert ([a] + rest)[1..] == rest;
  }

  // ---------------------------------------------------------------- runs of any length

  /** A preamble takes the parser out of its search. */
  predicate Wakes(z: Timed, e: Event) {
    e == Do(RxByte(PREAMBLE)) && z.sys.rx.state == Search
  }

  /** The sync byte starts a packet. */
  predicate Begins(z: Timed, e: Event) {
    e == Do(RxByte(SYNC)) && z.sys.rx.state == Sync && !z.sys.rx.inuse
  }

  /** A packet is being received or awaits pickup. */
  predicate Underway(z: Timed) {
    z.sys.rx.Busy() || z.sys.rx.ready
  }

  function BegunAfter(z: Timed, e: Event, begun: nat): nat {
    if Begins(z, e) then z.now else begun
  }

  /**
   The timeout meets only the packets it is meant for: none is running when a preamble announces one (unless for a
   packet that awaits pickup), and a packet that is under way at a look began less than 5000 ms ago.
   */
  predicate OnTime(z: Timed, es: seq<Event>, begun: nat)
    requires Sound(z) && AllProper(es)
    decreases |es|
  {
    es == [] ||
    (assert Proper(es[0]);
     NextIsSound(z, es[0]);
     (Wakes(z, es[0]) ==> !z.sys.waiting || z.sys.rx.ready) &&
     (es[0].Look? && Underway(z) ==> z.now < begun + LIMIT) &&
     OnTime(Next(z, es[0]), es[1..], BegunAfter(z, es[0], begun)))
  }

  /** Whatever timeout runs was started for the packet under way; none runs while the parser waits for a sync byte. */
  predicate Fresh(z: Timed, begun: nat) {
    && begun <= z.now
    && (Underway(z) && z.sys.waiting ==> begun <= z.started)
    && (z.sys.rx.state == Sync && !z.sys.rx.ready ==> !z.sys.waiting)
  }

  lemma ByteIsFresh(z: Timed, b: Byte, begun: nat)
    requires Sound(z) && Fresh(z, begun)
    requires Wakes(z, Do(RxByte(b))) ==> !z.sys.waiting || z.sys.rx.ready
    requires b == SYNC && z.sys.rx.state == Sync ==> !z.sys.rx.inuse
    ensures Fresh(Next(z, Do(RxByte(b))), BegunAfter(z, Do(RxByte(b)), begun))
  {
    StepOwner(z.sys.rx, b);
  }

  lemma LookIsFresh(z: Timed, begun: nat)
    requires Sound(z) && Fresh(z, begun) && (Underway(z) ==> z.now < begun + LIMIT)
    ensures Fresh(Next(z, Look), begun)
    ensures InTime(z.sys, Watch(T.Expired16(Wrap16(z.now), z.timeout)))
  {
    if z.sys.waiting && Underway(z) {
      T.ExpiredInWindow(z.now, z.started + LIMIT);
    }
  }

  /** The event meets the conditions of `OnTime` and `KeepsUp`. */
  predicate Favourable(z: Timed, e: Event, begun: nat) {
    && (Wakes(z, e) ==> !z.sys.waiting || z.sys.rx.ready)
    && (e.Look? && Underway(z) ==> z.now < begun + LIMIT)
    && (e == Do(RxByte(SYNC)) && z.sys.rx.state == Sync ==> !z.sys.rx.inuse)
  }

  lemma EventIsFresh(z: Timed, e: Event, begun: nat)
    requires Sound(z) && Proper(e) && Fresh(z, begun) && Favourable(z, e, begun)
    ensures Fresh(Next(z, e), BegunAfter(z, e, begun))
    ensures forall a :: a in ActOf(z, e) ==> InTime(z.sys, a)
  {
    match e
    case Tick =>
    case Do(a) =>
      if a.RxByte? {
        ByteIsFresh(z, a.b, begun);
      }
    case Look => LookIsFresh(z, begun);
  }

  lemma ActsInTime(z: Timed, e: Event, rest: seq<Act>)
    requires Sound(z) && Proper(e) && Sound(Next(z, e))
    requires forall a :: a in ActOf(z, e) ==> InTime(z.sys, a)
    requires AllInTime(Next(z, e).sys, rest)
    ensures AllInTime(z.sys, ActOf(z, e) + rest) && Run(z.sys, ActOf(z, e) + rest) == Run(Next(z, e).sys, rest)
    ensures Received(ActOf(z, e) + rest) == (if e.Do? && e.act.RxByte? then [e.act.b] else []) + Received(rest)
  {
    if e.Tick? {
      assert [] + rest == rest && [] + Received(rest) == Received(rest);
    } else {
      ConsInTime(z.sys, ActOf(z, e)[0], rest);
    }
  }

  lemma {:induction false} OnTimeIsInTime(z: Timed, es: seq<Event>, begun: nat)
    requires Sound(z) && AllProper(es) && Fresh(z, begun) && OnTime(z, es, begun) && KeepsUp(z, es)
    ensures AllInTime(z.sys, ActsOf(z, es))
    ensures Run(z.sys, ActsOf(z, es)) == Play(z, es).sys
    ensures Received(ActsOf(z, es)) == BytesOf(es)
    decreases |es|
  {
    if es != [] {
      var e := es[0];
      assert Proper(e);
      NextIsSound(z, e);
      var rest := ActsOf(Next(z, e), es[1..]);
      EventIsFresh(z, e, begun);
      OnTimeIsInTime(Next(z, e), es[1..], BegunAfter(z, e, begun));
      ActsInTime(z, e, rest);
    }
  }

  /**
   Under the real clock, for runs of any length: a client that frees the buffer before each packet is handed exactly
   the packets a whole-stream scan finds, if the timeout meets only the packets it is meant for.
   */
  lemma StreamUnderTheClock(z: Timed, es: seq<Event>, begun: nat)
    requires Sound(z) && AllProper(es) && Fresh(z, begun) && OnTime(z, es, begun) && KeepsUp(z, es)
    ensures var s' := Play(z, es).sys;
            s'.delivered + Pending(s'.rx) ==
            z.sys.delivered + (Pending(z.sys.rx) + Expect(z.sys.rx, BytesOf(es)))
  {
    OnTimeIsInTime(z, es, begun);
    StreamingIsScanning(z.sys, ActsOf(z, es));
  }

  /**
   Under the real clock: in any run of less than 5000 ms from a moment with no timeout running, a client that frees
   the buffer before each packet is handed exactly the packets a whole-stream scan finds.
   */
  lemma StreamWithinTheLimit(z: Timed, es: seq<Event>)
    requires Sound(z) && AllProper(es) && KeepsUp(z, es)
    requires !z.sys.waiting && Play(z, es).now < z.now + LIMIT
    ensures var s' := Play(z, es).sys;
            s'.delivered + Pending(s'.rx) ==
            z.sys.delivered + (Pending(z.sys.rx) + Expect(z.sys.rx, BytesOf(es)))
  {
    SilentUntil(z, es, z.now);
    SilentIsInTime(z, es);
    StreamingIsScanning(z.sys, ActsOf(z, es));
  }
}
