/** The regulator over whole runs, in true time: slew, ceiling, convergence and idle safety. */
module ShuntRuns {
  import opened Bytes
  import opened Shunt
  import T = Timers

  // ---------------------------------------------------------------- convergence

  /** The PWM after `n` passes with a constant target. */
  function SlewN(pwm: nat, target: nat, n: nat): nat
    decreases n
  {
    if n == 0 then pwm else SlewN(Slew(pwm, target), target, n - 1)
  }

  function Distance(a: int, b: int): nat {
    if a <= b then b - a else a - b
  }

  /** With a constant target the PWM is there after exactly the distance, not before, and stays. */
  lemma {:induction false} SlewReaches(pwm: nat, target: nat, n: nat)
    ensures SlewN(pwm, target, n) == target <==> n >= Distance(pwm, target)
    ensures n < Distance(pwm, target) ==> Distance(SlewN(pwm, target, n), target) == Distance(pwm, target) - n
    decreases n
  {
    if n > 0 {
      SlewReaches(Slew(pwm, target), target, n - 1);
    }
  }

  // ---------------------------------------------------------------- sessions

  /** During a session: a tick, a call of `shunt_run` with the settings and readings of the moment, a status read. */
  datatype Event = Tick | Loop(c: Settings, cellmv: nat, tempc: int) | StatusQuery

  /** The wrapped state next to the same facts in true time. */
  datatype Session = Session(
    now: nat, sh: Shunt,
    lastLoop: nat,      // when `shunt_run` was last called (or the session started)
    lastQuery: nat,     // when the idle timeout was last pushed back
    loopDue: int,       // when the next pass is due
    peak: nat)          // the largest target so far

  function Begin(c: Settings, now: nat): (s: Session)
    ensures forall d: nat | d <= LOOP_TIME :: Inv(s, d)
  {
    Session(now, Start(c, now), now, now, now + 1, 0)
  }

  /** Settings may change during the session, as long as the readings do not make it divide by zero. */
  predicate Possible(s: Session, e: Event) {
    e.Loop? ==> e.c.Fit() && e.cellmv < 0x1_0000 && !DividesByZero(s.sh, e.c, e.cellmv, e.tempc)
  }

  /** The main loop comes round at least every `d` ticks. */
  predicate Prompt(s: Session, d: nat, e: Event) {
    e.Tick? ==> s.now + 1 <= s.lastLoop + d
  }

  function Advance(s: Session, e: Event): Session
    requires Possible(s, e)
  {
    match e
    case Tick => s.(now := s.now + 1)
    case StatusQuery => s.(sh := StatusRead(s.sh, s.now), lastQuery := s.now)
    case Loop(c, mv, t) =>
      var executes := s.sh.status != Off && T.Expired16(Wrap16(s.now), s.sh.loopTimeout);
      var target := Target(s.sh, c, mv, t).0;
      s.(sh := Run(s.sh, c, s.now, mv, t), lastLoop := s.now,
         loopDue := if executes then s.loopDue + LOOP_TIME else s.loopDue,
         peak := if executes && target > s.peak then target else s.peak)
  }

  /** What every session keeps while the main loop comes round at least every `d` ticks. */
  predicate Inv(s: Session, d: nat) {
    && d <= LOOP_TIME
    && s.sh.pwm <= s.peak <= 255
    && (s.sh.status == Off ==> s.sh.pwm == 0)
    && s.lastLoop <= s.now <= s.lastLoop + d && s.lastQuery <= s.now
    && (s.sh.status != Off ==>
          && s.sh.loopTimeout == Wrap16(s.loopDue)
          && s.sh.shuntTimeout == Wrap16(s.lastQuery + IDLE_TIME)
          && s.lastLoop <= s.loopDue <= s.now + LOOP_TIME
          && (s.now >= s.lastQuery + IDLE_TIME ==> s.loopDue < s.lastQuery + IDLE_TIME + LOOP_TIME))
  }

  /** The two 16-bit comparisons of a running session agree with true time. */
  lemma ComparisonsExact(s: Session, d: nat)
    requires Inv(s, d) && s.sh.status != Off
    ensures T.Expired16(Wrap16(s.now), s.sh.loopTimeout) <==> s.loopDue <= s.now
    ensures T.Expired16(Wrap16(s.now), s.sh.shuntTimeout) <==> s.lastQuery + IDLE_TIME <= s.now
  {
    T.ExpiredInWindow(s.now, s.loopDue);
    T.ExpiredInWindow(s.now, s.lastQuery + IDLE_TIME);
  }

  lemma TickKeepsInv(s: Session, d: nat)
    requires Inv(s, d) && Prompt(s, d, Tick)
    ensures Inv(Advance(s, Tick), d)
  {}

  /** What one call of `shunt_run` does to a running regulator. */
  lemma RunEffect(s: Shunt, c: Settings, now: nat, mv: nat, t: int)
    requires c.Fit() && mv < 0x1_0000 && !DividesByZero(s, c, mv, t) && s.status != Off
    ensures var s' := Run(s, c, now, mv, t);
            if !T.Expired16(Wrap16(now), s.loopTimeout) then s' == s
            else
              && s'.loopTimeout == Wrap16(s.loopTimeout + LOOP_TIME)
              && s'.shuntTimeout == s.shuntTimeout && s'.vrange == s.vrange && s'.trange == s.trange
              && (s'.status == Off <==> T.Expired16(Wrap16(now), s.shuntTimeout))
              && (s'.status != Off ==> s'.status == Target(s, c, mv, t).1)
              && s'.pwm == if s'.status == Off then 0 else Slew(s.pwm, Target(s, c, mv, t).0)
  {
    assert Target(s, c, mv, t).1 != Off;
  }

  lemma DueWraps(due: nat)
    ensures Wrap16(Wrap16(due) + LOOP_TIME) == Wrap16(due + LOOP_TIME)
  {}

  /** The PWM never passes the largest target. */
  lemma SlewBelowPeak(s: Session, target: nat)
    requires s.sh.pwm <= s.peak <= 255 && target <= 255
    ensures Slew(s.sh.pwm, target) <= (if target > s.peak then target else s.peak) <= 255
  {}

  lemma LoopKeepsInv(s: Session, d: nat, c: Settings, mv: nat, t: int)
    requires Inv(s, d) && Possible(s, Loop(c, mv, t)) && s.sh.status != Off
    ensures Inv(Advance(s, Loop(c, mv, t)), d)
  {
    ComparisonsExact(s, d);
    RunEffect(s.sh, c, s.now, mv, t);
    SlewBelowPeak(s, Target(s.sh, c, mv, t).0);
    DueWraps(s.loopDue);
  }

  lemma StepKeepsInv(s: Session, d: nat, e: Event)
    requires Inv(s, d) && Possible(s, e) && Prompt(s, d, e)
    ensures Inv(Advance(s, e), d)
  {
    match e
    case Tick => TickKeepsInv(s, d);
    case StatusQuery =>
    case Loop(c, mv, t) =>
      if s.sh.status != Off {
        LoopKeepsInv(s, d, c, mv, t);
      }
  }

  /** A pass moves the PWM by at most one; the regulator turns itself off exactly if the idle time is over at a pass. */
  lemma LoopEffect(s: Session, d: nat, c: Settings, mv: nat, t: int)
    requires Inv(s, d) && Possible(s, Loop(c, mv, t)) && s.sh.status != Off
    ensures var s' := Advance(s, Loop(c, mv, t));
            && (s'.sh.status == Off <==> s.loopDue <= s.now && s.lastQuery + IDLE_TIME <= s.now)
            && (s'.sh.status != Off ==> Distance(s.sh.pwm, s'.sh.pwm) <= 1 && 0 <= s'.sh.pwm <= 255)
            && (s.now < s.loopDue ==> s'.sh == s.sh)
            && (s'.sh.status != Off && s.loopDue <= s.now ==>
                  (s'.sh.pwm, s'.sh.status) == (Slew(s.sh.pwm, Target(s.sh, c, mv, t).0), Target(s.sh, c, mv, t).1))
  {
    ComparisonsExact(s, d);
    RunEffect(s.sh, c, s.now, mv, t);
  }

  function Play(s: Session, d: nat, es: seq<Event>): (s': Session)
    requires Inv(s, d) && AllPrompt(s, d, es)
    ensures Inv(s', d)
    decreases |es|
  {
    if es == [] then s else
      StepKeepsInv(s, d, es[0]);
      Play(Advance(s, es[0]), d, es[1..])
  }

  predicate AllPrompt(s: Session, d: nat, es: seq<Event>)
    requires Inv(s, d)
    decreases |es|
  {
    es == [] || (Possible(s, es[0]) && Prompt(s, d, es[0]) &&
                 (StepKeepsInv(s, d, es[0]); AllPrompt(Advance(s, es[0]), d, es[1..])))
  }

  /**
   Safety of every session whose main loop comes round at least every `d <= 100` ticks, whatever the settings
   become: the PWM never exceeds the largest target so far, and the shunt is off once 30000 + 100 + d ticks
   have passed since the last status read.
   */
  lemma SessionIsSafe(c: Settings, start: nat, d: nat, es: seq<Event>)
    requires d <= LOOP_TIME
    requires AllPrompt(Begin(c, start), d, es)
    ensures var s := Play(Begin(c, start), d, es);
            && s.sh.pwm <= s.peak <= 255
            && (s.now >= s.lastQuery + IDLE_TIME + LOOP_TIME + d ==> s.sh.status == Off && s.sh.pwm == 0)
  {
    var s := Play(Begin(c, start), d, es);
    assert Inv(s, d);
  }

  /** Status is asked for in time: at every call of the loop less than 30000 ticks ago. */
  predicate Watched(s: Session, d: nat, es: seq<Event>)
    requires Inv(s, d) && AllPrompt(s, d, es)
    decreases |es|
  {
    es == [] || ((es[0].Loop? ==> s.now < s.lastQuery + IDLE_TIME) &&
                 (StepKeepsInv(s, d, es[0]); Watched(Advance(s, es[0]), d, es[1..])))
  }

  /** A watched session never times out. */
  lemma {:induction false} WatchedNeverTimesOut(s: Session, d: nat, es: seq<Event>)
    requires Inv(s, d) && AllPrompt(s, d, es) && Watched(s, d, es)
    requires s.sh.status != Off
    ensures Play(s, d, es).sh.status != Off
    decreases |es|
  {
    if es != [] {
      StepKeepsInv(s, d, es[0]);
      if es[0].Loop? {
        LoopEffect(s, d, es[0].c, es[0].cellmv, es[0].tempc);
      }
      WatchedNeverTimesOut(Advance(s, es[0]), d, es[1..]);
    }
  }

  /** The settings and readings of one pass. */
  datatype Reading = Reading(c: Settings, cellmv: nat, tempc: int)

  /** Too hot, as the code compares it: at or above the upper limit in force, which may change from pass to pass. */
  predicate Hot(s: Shunt, x: Reading) {
    && x.c.Fit() && x.cellmv < 0x1_0000 && !DividesByZero(s, x.c, x.cellmv, x.tempc)
    && Wrap16(x.tempc) >= Wrap16(x.c.temphi)
  }

  function HotPasses(s: Shunt, xs: seq<Reading>): Shunt
    requires forall x :: x in xs ==> Hot(s, x)
    decreases |xs|
  {
    if xs == [] then s
    else
      assert Hot(s, xs[0]);
      var s' := Pass(s, xs[0].c, xs[0].cellmv, xs[0].tempc);
      assert forall x :: x in xs ==> Hot(s, x) && Hot(s', x);
      HotPasses(s', xs[1..])
  }

  /** Overheating always ramps down: whatever else is read or set, each hot pass lowers the PWM by one, down to zero. */
  lemma {:induction false} OverTemperatureRampsDown(s: Shunt, xs: seq<Reading>)
    requires forall x :: x in xs ==> Hot(s, x)
    ensures HotPasses(s, xs).pwm == if |xs| >= s.pwm then 0 else s.pwm - |xs|
    decreases |xs|
  {
    if xs != [] {
      assert Hot(s, xs[0]);
      var s' := Pass(s, xs[0].c, xs[0].cellmv, xs[0].tempc);
      assert forall x :: x in xs ==> Hot(s', x);
      OverTemperatureRampsDown(s', xs[1..]);
    }
  }

  /** Exactly `n` passes of the loop with the same readings. */
  function Passes(s: Shunt, c: Settings, mv: nat, t: int, n: nat): (s': Shunt)
    requires c.Fit() && mv < 0x1_0000 && !DividesByZero(s, c, mv, t)
    ensures !DividesByZero(s', c, mv, t)
    decreases n
  {
    if n == 0 then s else Passes(Pass(s, c, mv, t), c, mv, t, n - 1)
  }

  /** Constant readings: the PWM reaches the target in exactly as many passes as it is away, at most 255, and stays. */
  lemma {:induction false} PassesReachTarget(s: Shunt, c: Settings, mv: nat, t: int, n: nat)
    requires c.Fit() && mv < 0x1_0000 && !DividesByZero(s, c, mv, t) && s.pwm <= 255
    ensures Target(Passes(s, c, mv, t, n), c, mv, t) == Target(s, c, mv, t)
    ensures Passes(s, c, mv, t, n).pwm == Target(s, c, mv, t).0 <==> n >= Distance(s.pwm, Target(s, c, mv, t).0)
    ensures n >= 255 ==> Passes(s, c, mv, t, n).pwm == Target(s, c, mv, t).0
  {
    var g := Target(s, c, mv, t).0;
    PassesSlew(s, c, mv, t, n);
    SlewReaches(s.pwm, g, n);
  }

  lemma {:induction false} PassesSlew(s: Shunt, c: Settings, mv: nat, t: int, n: nat)
    requires c.Fit() && mv < 0x1_0000 && !DividesByZero(s, c, mv, t) && s.pwm <= 255
    ensures Passes(s, c, mv, t, n).pwm == SlewN(s.pwm, Target(s, c, mv, t).0, n)
    ensures Passes(s, c, mv, t, n).vrange == s.vrange && Passes(s, c, mv, t, n).trange == s.trange
    decreases n
  {
    if n > 0 {
      var s' := Pass(s, c, mv, t);
      assert Target(s', c, mv, t) == Target(s, c, mv, t);
      PassesSlew(s', c, mv, t, n - 1);
    }
  }
}
