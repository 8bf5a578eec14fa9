/** The shunt regulator (src/shunt.c): target PWM, slew limit, and idle timeout on the wrapping clock. */
module Shunt {
  import opened Bytes
  import T = Timers

  const LOOP_TIME: nat := 100
  const IDLE_TIME: nat := 30000

  datatype Status = Off | Idle | On | Limit

  /** The four settings the regulator reads: two `uint16_t` millivolts and two `int8_t` degrees. */
  datatype Settings = Settings(shuntmin: nat, shuntmax: nat, templo: int, temphi: int) {
    predicate Fit() {
      shuntmin < 0x1_0000 && shuntmax < 0x1_0000 && -128 <= templo < 128 && -128 <= temphi < 128
    }

    /** The order the regulator's comments take for granted. */
    predicate Sane() {
      Fit() && shuntmin < shuntmax && 0 <= templo < temphi
    }
  }

  datatype Shunt = Shunt(
    pwm: nat, status: Status, loopTimeout: nat, shuntTimeout: nat, vrange: nat, trange: nat)
  {
    /** No voltage strictly between the limits meets a cached range of zero. */
    predicate VoltageDivides(c: Settings) {
      c.shuntmin + 1 < c.shuntmax ==> vrange != 0
    }

    /** Nor does a temperature, compared as the code compares it. */
    predicate TemperatureDivides(c: Settings) {
      Wrap16(c.templo) + 1 < Wrap16(c.temphi) ==> trange != 0
    }

    /** No reading makes the regulator divide by zero (`CanDivideIff`). */
    predicate CanDivide(c: Settings) {
      VoltageDivides(c) && (c.shuntmin < 0xFFFF ==> TemperatureDivides(c))
    }

    /** The cached ranges are those of the settings; then there is no division by zero, whatever the settings. */
    predicate Synced(c: Settings): (b: bool)
      ensures b && c.Fit() ==> CanDivide(c)
    {
      vrange == Wrap16(c.shuntmax - c.shuntmin) && trange == Wrap16(c.temphi - c.templo)
    }
  }

  // ---------------------------------------------------------------- unsigned division

  /** The quotient of unsigned division: how often `d` can be taken from `x`. */
  function Quot(x: nat, d: nat): nat
    requires d > 0
  {
    if x < d then 0 else 1 + Quot(x - d, d)
  }

  lemma {:induction false} QuotIsDivision(x: nat, d: nat)
    requires d > 0
    ensures Quot(x, d) == x / d
  {
    if x < d {
      T.QuotientIs(x, d, 0);
    } else {
      QuotIsDivision(x - d, d);
      var q := (x - d) / d;
      assert x - d == q * d + (x - d) % d;
      assert (q + 1) * d == q * d + d;
      T.QuotientIs(x, d, q + 1);
    }
  }

  lemma {:induction false} QuotMonotone(x: nat, y: nat, d: nat)
    requires x <= y && d > 0
    ensures Quot(x, d) <= Quot(y, d)
  {
    if x >= d {
      QuotMonotone(x - d, y - d, d);
    }
  }

  /** A fraction below one, scaled to 256 steps, stays below 256. */
  lemma FractionBelow256(a: nat, d: nat)
    requires 0 < a < d
    ensures Quot(a * 256, d) <= 255
  {
    QuotMonotone(a * 256, 256 * d - 1, d);
    QuotIsDivision(256 * d - 1, d);
    T.QuotientIs(256 * d - 1, d, 255);
  }

  // ---------------------------------------------------------------- the target

  /** PWM and status from the voltage alone. */
  function VoltageStep(s: Shunt, c: Settings, cellmv: nat): (r: (nat, Status))
    requires c.Fit() && cellmv < 0x1_0000
    requires c.shuntmin < cellmv < c.shuntmax ==> s.vrange != 0
    ensures r.0 <= 255 && (r.0 > 0 ==> c.shuntmin < cellmv)
  {
    if cellmv <= c.shuntmin then (0, Idle)
    else if cellmv >= c.shuntmax then (255, On)
    else
      var pwmv := Quot((cellmv - c.shuntmin) * 256, s.vrange);
      (if pwmv > 255 then 255 else pwmv, On)
  }

  /** The temperature limit, on unsigned 16-bit values. */
  function TemperatureStep(s: Shunt, c: Settings, tempc: nat, r: (nat, Status)): (r': (nat, Status))
    requires c.Fit() && tempc < 0x1_0000 && r.0 <= 255
    requires r.0 > 0 && Wrap16(c.templo) < tempc < Wrap16(c.temphi) ==> s.trange != 0
    ensures r'.0 <= 255
  {
    if r.0 == 0 then r
    else if tempc >= Wrap16(c.temphi) then (0, Limit)
    else if tempc <= Wrap16(c.templo) then r
    else
      var pwmt := Quot(Wrap16(Wrap16(c.temphi - tempc) * 256), s.trange);
      if r.0 > pwmt then (pwmt, Limit) else r
  }

  /** The code divides by zero at these readings. */
  predicate DividesByZero(s: Shunt, c: Settings, mv: nat, t: int): (b: bool)
    requires c.Fit() && mv < 0x1_0000
    ensures s.CanDivide(c) ==> !b
  {
    if c.shuntmin < mv < c.shuntmax && s.vrange == 0 then true
    else VoltageStep(s, c, mv).0 > 0 && Wrap16(c.templo) < Wrap16(t) < Wrap16(c.temphi) && s.trange == 0
  }

  function Target(s: Shunt, c: Settings, cellmv: nat, tempc: int): (r: (nat, Status))
    requires c.Fit() && cellmv < 0x1_0000 && !DividesByZero(s, c, cellmv, tempc)
    ensures r.0 <= 255
  {
    TemperatureStep(s, c, Wrap16(tempc), VoltageStep(s, c, cellmv))
  }

  // ---------------------------------------------------------------- division by zero

  /** `CanDivide` is exact: it holds if and only if no pair of readings makes the code divide by zero. */
  lemma CanDivideIff(s: Shunt, c: Settings)
    requires c.Fit()
    ensures s.CanDivide(c) <==>
            forall mv: nat, t: int | mv < 0x1_0000 && -0x8000 <= t < 0x8000 :: !DividesByZero(s, c, mv, t)
  {
    if !s.VoltageDivides(c) {
      assert DividesByZero(s, c, c.shuntmin + 1, 0);
    } else if !s.CanDivide(c) {
      var u := Wrap16(c.templo) + 1;
      assert DividesByZero(s, c, 0xFFFF, if u < 0x8000 then u else u - 0x1_0000);
    }
  }

  /** Limits that leave no range empty. */
  predicate Apart(c: Settings) {
    c.shuntmin != c.shuntmax && c.templo != c.temphi
  }

  /**
   Ranges are cached when the session starts. They allow every division, whatever the settings become later, if and
   only if neither pair of limits was equal at the start.
   */
  lemma StaleRangesDivide(s: Shunt, c: Settings)
    requires c.Fit() && s.Synced(c)
    ensures (forall c': Settings | c'.Fit() :: s.CanDivide(c')) <==> Apart(c)
  {
    var volts, degrees := Settings(0, 2, 0, 0), Settings(0, 1, 0, 2);
    assert s.vrange == 0 ==> volts.Fit() && !s.CanDivide(volts);
    assert s.trange == 0 ==> degrees.Fit() && !s.CanDivide(degrees);
  }

  /** Both divisions at readings: started with equal limits, which are then moved apart. */
  lemma EqualLimitsDivideByZero(s: Shunt, u: Shunt)
    requires s.Synced(Settings(4100, 4100, 40, 50)) && u.Synced(Settings(4000, 4100, 50, 50))
    ensures DividesByZero(s, Settings(4000, 4100, 40, 50), 4050, 20)
    ensures DividesByZero(u, Settings(4000, 4100, 40, 50), 4100, 45)
  {}

  // ---------------------------------------------------------------- the laws

  /** The law the documentation states: proportional between the two voltages, full above. */
  function VoltageLaw(c: Settings, mv: int): int {
    if mv <= c.shuntmin then 0
    else if mv >= c.shuntmax then 255
    else Quot((mv - c.shuntmin) * 256, c.shuntmax - c.shuntmin)
  }

  /** Nothing at the upper temperature, full below the lower one, proportional between, on signed degrees. */
  function TemperatureLaw(c: Settings, t: int): int {
    if t >= c.temphi then 0
    else if t <= c.templo then 255
    else Quot((c.temphi - t) * 256, c.temphi - c.templo)
  }

  function Min(a: int, b: int): int {
    if a <= b then a else b
  }

  /** With ranges in force the voltage law needs no clamp, whatever the settings. */
  lemma VoltageStepIsLaw(s: Shunt, c: Settings, mv: nat)
    requires c.Fit() && s.Synced(c) && mv < 0x1_0000
    ensures VoltageStep(s, c, mv).0 == VoltageLaw(c, mv) && 0 <= VoltageLaw(c, mv) <= 255
    ensures VoltageStep(s, c, mv).1 == if mv <= c.shuntmin then Idle else On
  {
    if c.shuntmin < mv < c.shuntmax {
      FractionBelow256(mv - c.shuntmin, c.shuntmax - c.shuntmin);
    }
  }

  lemma {:induction false} QuotAtLeast(x: nat, d: nat, k: nat)
    requires d > 0
    ensures Quot(x, d) >= k <==> x >= k * d
    decreases k
  {
    if k > 0 {
      assert k * d == (k - 1) * d + d;
      if x >= d {
        QuotAtLeast(x - d, d, k - 1);
      } else {
        assert (k - 1) * d >= 0;
      }
    }
  }

  lemma QuotAntitone(x: nat, d: nat, d': nat)
    requires 0 < d <= d'
    ensures Quot(x, d') <= Quot(x, d)
  {
    var k := Quot(x, d');
    QuotAtLeast(x, d', k);
    QuotAtLeast(x, d, k);
    assert k * d' == k * d + k * (d' - d);
  }

  lemma TemperatureLawRange(c: Settings, t: int)
    ensures 0 <= TemperatureLaw(c, t) <= 255
    ensures c.Fit() && t < c.temphi ==> TemperatureLaw(c, t) > 0
  {
    if c.templo < t < c.temphi {
      FractionBelow256(c.temphi - t, c.temphi - c.templo);
      if c.Fit() {
        QuotAtLeast((c.temphi - t) * 256, c.temphi - c.templo, 1);
      }
    }
  }

  /**
   The scaled difference, where the code computes it. With limits of one sign nothing overflows; with the upper limit
   below zero and the lower one not, the wrapped range is so large that the quotient is zero.
   */
  lemma ScaledDifference(c: Settings, u: nat)
    requires c.Fit() && Wrap16(c.templo) < u < Wrap16(c.temphi)
    ensures var p, d := Wrap16(Wrap16(c.temphi - u) * 256), Wrap16(c.temphi - c.templo);
            if (c.templo >= 0) == (c.temphi >= 0)
            then p == (Wrap16(c.temphi) - u) * 256 && d == Wrap16(c.temphi) - Wrap16(c.templo) == c.temphi - c.templo
            else p < d
  {
    assert Wrap16(c.temphi - u) == Wrap16(c.temphi) - u;
    if (c.templo >= 0) == (c.temphi >= 0) {
      assert Wrap16(c.temphi) - u < 256;
    }
  }

  /** The unsigned comparisons agree with the law: nothing was asked for, or the signs are as the code needs them. */
  predicate ReadsRight(c: Settings, t: int, v: int) {
    v == 0 ||
    if c.temphi >= 0 then t >= 0 && (t >= c.temphi || c.templo >= 0 || v <= TemperatureLaw(c, t))
    else if t >= 0 then 0 <= c.templo < t
    else t >= c.temphi || c.templo < 0
  }

  /** What `TargetIsMinimum` needs of the temperature step. */
  predicate RightIff(s: Shunt, c: Settings, t: int, r: (nat, Status))
    requires c.Fit() && s.Synced(c) && r.0 <= 255
  {
    var r' := TemperatureStep(s, c, Wrap16(t), r);
    && (r'.0 == Min(r.0, TemperatureLaw(c, t)) <==> ReadsRight(c, t, r.0))
    && (ReadsRight(c, t, r.0) ==> (r'.1 == Limit <==> TemperatureLaw(c, t) < r.0))
    && (r'.1 != Limit ==> r' == r) && (r'.1 == Limit ==> r.0 > 0)
  }

  lemma WrapsBySign(x: int)
    requires -0x8000 <= x < 0x8000
    ensures Wrap16(x) == if x >= 0 then x else x + 0x1_0000
  {}

  lemma OneSignReadsRight(s: Shunt, c: Settings, t: int, r: (nat, Status))
    requires c.Fit() && s.Synced(c) && -0x8000 <= t < 0x8000 && r.0 <= 255 && r.1 != Limit
    requires (c.templo >= 0) == (c.temphi >= 0)
    ensures RightIff(s, c, t, r)
  {
    WrapsBySign(c.templo);
    WrapsBySign(c.temphi);
    WrapsBySign(t);
    TemperatureLawRange(c, t);
    if Wrap16(c.templo) < Wrap16(t) < Wrap16(c.temphi) {
      ScaledDifference(c, Wrap16(t));
    }
  }

  lemma TwoSignsReadRight(s: Shunt, c: Settings, t: int, r: (nat, Status))
    requires c.Fit() && s.Synced(c) && -0x8000 <= t < 0x8000 && r.0 <= 255 && r.1 != Limit
    requires (c.templo >= 0) != (c.temphi >= 0)
    ensures RightIff(s, c, t, r)
  {
    WrapsBySign(c.templo);
    WrapsBySign(c.temphi);
    WrapsBySign(t);
    TemperatureLawRange(c, t);
    if Wrap16(c.templo) < Wrap16(t) < Wrap16(c.temphi) {
      ScaledDifference(c, Wrap16(t));
    }
  }

  /**
   For all settings and all signed readings: the target is the smaller of the two laws if and only if the signs are
   as `ReadsRight` says; then the status is LIMIT exactly when the temperature law lowered it. IDLE is reported
   exactly at or below the lower voltage.
   */
  lemma TargetIsMinimum(s: Shunt, c: Settings, mv: nat, t: int)
    requires c.Fit() && s.Synced(c) && mv < 0x1_0000 && -0x8000 <= t < 0x8000
    ensures var r, v := Target(s, c, mv, t), VoltageLaw(c, mv);
            && (r.0 == Min(v, TemperatureLaw(c, t)) <==> ReadsRight(c, t, v))
            && (ReadsRight(c, t, v) ==> (r.1 == Limit <==> TemperatureLaw(c, t) < v))
            && (r.1 == Idle <==> mv <= c.shuntmin)
  {
    VoltageStepIsLaw(s, c, mv);
    if (c.templo >= 0) == (c.temphi >= 0) {
      OneSignReadsRight(s, c, t, VoltageStep(s, c, mv));
    } else {
      TwoSignsReadRight(s, c, t, VoltageStep(s, c, mv));
    }
  }

  /** For limits in order and not below zero: only readings below zero are misread, if shunting is asked for. */
  lemma SaneLimitsReadRight(c: Settings, t: int, v: int)
    requires c.Sane()
    ensures ReadsRight(c, t, v) <==> t >= 0 || v == 0
  {}

  /** A reading below zero stops the shunt, though the law would let it run. */
  lemma ColdReadingsStopShunting(s: Shunt, c: Settings, mv: nat, t: int)
    requires c.Fit() && s.Synced(c) && mv < 0x1_0000
    requires -0x8000 <= t < 0 <= c.temphi
    ensures Target(s, c, mv, t).0 == 0 && TemperatureLaw(c, t) > 0
  {
    TemperatureLawRange(c, t);
  }

  lemma VoltageStepMonotone(s: Shunt, c: Settings, mv: nat, mv': nat)
    requires c.Fit() && s.VoltageDivides(c) && mv <= mv' < 0x1_0000
    ensures VoltageStep(s, c, mv).0 <= VoltageStep(s, c, mv').0
  {
    if c.shuntmin < mv && mv' < c.shuntmax {
      QuotMonotone((mv - c.shuntmin) * 256, (mv' - c.shuntmin) * 256, s.vrange);
    }
  }

  /**
   The one case in which heat can raise the target: the upper limit is below zero, the lower one is not, and the
   cached range is not the one that belongs to such limits. The scaled difference then wraps round and round.
   */
  predicate Sawtooth(s: Shunt, c: Settings) {
    c.shuntmin < 0xFFFF && c.temphi < 0 <= c.templo && s.trange <= 0xFF00
  }

  lemma ScaledIsMultiple(x: nat)
    ensures Wrap16(x * 256) <= 0xFF00
  {}

  lemma TemperatureStepMonotone(s: Shunt, c: Settings, u: nat, u': nat, r: (nat, Status), r': (nat, Status))
    requires c.Fit() && (r'.0 > 0 ==> s.TemperatureDivides(c) && !Sawtooth(s, c) && c.shuntmin < 0xFFFF)
    requires u' <= u < 0x1_0000 && r.0 <= r'.0 <= 255
    ensures TemperatureStep(s, c, u, r).0 <= TemperatureStep(s, c, u', r').0
  {
    var lo, hi := Wrap16(c.templo), Wrap16(c.temphi);
    if r'.0 > 0 && lo < u' && u < hi {
      if (c.templo >= 0) == (c.temphi >= 0) {
        ScaledDifference(c, u);
        ScaledDifference(c, u');
        QuotMonotone((hi - u) * 256, (hi - u') * 256, s.trange);
      } else {
        ScaledIsMultiple(Wrap16(c.temphi - u));
        ScaledIsMultiple(Wrap16(c.temphi - u'));
      }
    }
  }

  /**
   More voltage never lowers the target, and more heat never raises it, for all settings and all cached ranges but
   the sawtooth's. Heat is compared as the code compares it: readings below zero are the hottest.
   */
  lemma TargetMonotone(s: Shunt, c: Settings, mv: nat, mv': nat, t: int, t': int)
    requires c.Fit() && s.CanDivide(c) && !Sawtooth(s, c) && mv <= mv' < 0x1_0000
    requires Wrap16(t') <= Wrap16(t)
    ensures Target(s, c, mv, t).0 <= Target(s, c, mv', t').0
  {
    VoltageStepMonotone(s, c, mv, mv');
    TemperatureStepMonotone(s, c, Wrap16(t), Wrap16(t'), VoltageStep(s, c, mv), VoltageStep(s, c, mv'));
  }

  /** More voltage never lowers the target, and more heat never raises it. */
  ghost predicate Monotone(s: Shunt, c: Settings)
    requires c.Fit() && s.CanDivide(c)
  {
    forall mv: nat, mv': nat, t: int, t': int | mv <= mv' < 0x1_0000 && Wrap16(t') <= Wrap16(t) ::
      Target(s, c, mv, t).0 <= Target(s, c, mv', t').0
  }

  /** The exception is exact. */
  lemma MonotoneIff(s: Shunt, c: Settings)
    requires c.Fit() && s.CanDivide(c)
    ensures Monotone(s, c) <==> !Sawtooth(s, c)
  {
    if Sawtooth(s, c) {
      SawtoothRises(s, c);
      var mv: nat, t, t' := 0xFFFF, c.temphi - 255, c.temphi - 256;
      assert !(Target(s, c, mv, t).0 <= Target(s, c, mv, t').0);
    } else {
      forall mv: nat, mv': nat, t: int, t': int | mv <= mv' < 0x1_0000 && Wrap16(t') <= Wrap16(t)
        ensures Target(s, c, mv, t).0 <= Target(s, c, mv', t').0
      {
        TargetMonotone(s, c, mv, mv', t, t');
      }
    }
  }

  /** Ranges that belong to the settings in force are never a sawtooth. */
  lemma SyncedIsMonotone(s: Shunt, c: Settings)
    requires c.Fit() && s.Synced(c)
    ensures Monotone(s, c)
  {
    MonotoneIff(s, c);
  }

  lemma SawtoothRises(s: Shunt, c: Settings)
    requires c.Fit() && s.CanDivide(c) && Sawtooth(s, c)
    ensures Target(s, c, 0xFFFF, c.temphi - 256).0 == 0 < Target(s, c, 0xFFFF, c.temphi - 255).0
    ensures Wrap16(c.temphi - 256) < Wrap16(c.temphi - 255)
  {
    assert VoltageStep(s, c, 0xFFFF) == (255, On);
    assert Wrap16(c.temphi - Wrap16(c.temphi - 256)) == 256 && Wrap16(c.temphi - Wrap16(c.temphi - 255)) == 255;
  }

  // ---------------------------------------------------------------- the operations

  function Start(c: Settings, now: nat): Shunt {
    Shunt(0, Idle, Wrap16(now + 1), Wrap16(now + IDLE_TIME),
          Wrap16(c.shuntmax - c.shuntmin), Wrap16(c.temphi - c.templo))
  }

  function Stop(s: Shunt): Shunt {
    s.(pwm := 0, status := Off)
  }

  function StatusRead(s: Shunt, now: nat): Shunt {
    s.(shuntTimeout := Wrap16(now + IDLE_TIME))
  }

  /** One step from the present PWM toward the target. */
  function Slew(pwm: nat, target: nat): nat {
    if target > pwm then pwm + 1 else if target < pwm then pwm - 1 else pwm
  }

  /** A pass of the regulating loop, before the idle timeout is looked at. */
  function Pass(s: Shunt, c: Settings, cellmv: nat, tempc: int): Shunt
    requires c.Fit() && cellmv < 0x1_0000 && !DividesByZero(s, c, cellmv, tempc)
  {
    var (target, status) := Target(s, c, cellmv, tempc);
    s.(pwm := Slew(s.pwm, target), status := status, loopTimeout := Wrap16(s.loopTimeout + LOOP_TIME))
  }

  function Run(s: Shunt, c: Settings, now: nat, cellmv: nat, tempc: int): Shunt
    requires c.Fit() && cellmv < 0x1_0000 && !DividesByZero(s, c, cellmv, tempc)
  {
    if s.status == Off then Stop(s)
    else if !T.Expired16(Wrap16(now), s.loopTimeout) then s
    else
      var s' := Pass(s, c, cellmv, tempc);
      if T.Expired16(Wrap16(now), s'.shuntTimeout) then Stop(s') else s'
  }

  /** A regulator just started cannot divide by zero, and its targets are the documented ones. */
  lemma StartedTargets(c: Settings, now: nat, mv: nat, t: int)
    requires c.Fit() && mv < 0x1_0000 && -0x8000 <= t < 0x8000
    ensures Start(c, now).CanDivide(c)
    ensures Target(Start(c, now), c, mv, t).0 == Min(VoltageLaw(c, mv), TemperatureLaw(c, t)) <==>
            ReadsRight(c, t, VoltageLaw(c, mv))
    ensures c.Sane() && t >= 0 ==>
              && Target(Start(c, now), c, mv, t).0 == Min(VoltageLaw(c, mv), TemperatureLaw(c, t))
              && (Target(Start(c, now), c, mv, t).1 == Limit <==> TemperatureLaw(c, t) < VoltageLaw(c, mv))
  {
    TargetIsMinimum(Start(c, now), c, mv, t);
  }

  class ShuntModule {
    var shuntTimeout: nat
    var loopTimeout: nat
    var status: Status
    var vrange: nat
    var trange: nat
    var pwm: nat

    ghost function View(): Shunt
      reads this
    {
      Shunt(pwm, status, loopTimeout, shuntTimeout, vrange, trange)
    }

    constructor ()
      ensures View() == Shunt(0, Off, 0, 0, 0, 0)
    {
      shuntTimeout, loopTimeout, status, vrange, trange, pwm := 0, 0, Off, 0, 0, 0;
    }

    method ShuntSet(newpwm: nat)
      modifies this`pwm
      ensures pwm == newpwm
    {
      pwm := newpwm;
    }

    method ShuntStart(c: Settings, systick: nat)
      modifies this
      ensures View() == Start(c, systick)
    {
      ShuntSet(0);
      shuntTimeout := Wrap16(systick + 30000);
      loopTimeout := Wrap16(systick + 1);
      vrange := Wrap16(c.shuntmax - c.shuntmin);
      trange := Wrap16(c.temphi - c.templo);
      status := Idle;
    }

    method ShuntStop()
      modifies this`pwm, this`status
      ensures View() == Stop(old(View()))
    {
      ShuntSet(0);
      status := Off;
    }

    method ShuntGetStatus(systick: nat) returns (sts: Status)
      modifies this`shuntTimeout
      ensures View() == StatusRead(old(View()), systick) && sts == status
    {
      shuntTimeout := Wrap16(systick + 30000);
      return status;
    }

    /** The voltage part of a pass, with its status. */
    method FromVoltage(c: Settings, cellmv: nat) returns (newpwm: nat)
      requires c.Fit() && cellmv < 0x1_0000 && (c.shuntmin < cellmv < c.shuntmax ==> vrange != 0)
      modifies this`status
      ensures (newpwm, status) == VoltageStep(old(View()), c, cellmv)
    {
      if cellmv <= c.shuntmin {
        newpwm := 0;
        status := Idle;
      } else if cellmv >= c.shuntmax {
        newpwm := 255;
        status := On;
      } else {
        var pwmv := cellmv - c.shuntmin;
        pwmv := pwmv * 256;
        pwmv := Quot(pwmv, vrange);
        newpwm := if pwmv > 255 then 255 else pwmv;
        status := On;
      }
    }

    /** The temperature part of a pass. */
    method LimitByTemperature(c: Settings, tempc: nat, pwmv: nat) returns (newpwm: nat)
      requires c.Fit() && tempc < 0x1_0000 && pwmv <= 255
      requires pwmv > 0 && Wrap16(c.templo) < tempc < Wrap16(c.temphi) ==> trange != 0
      modifies this`status
      ensures (newpwm, status) == TemperatureStep(old(View()), c, tempc, (pwmv, old(status)))
    {
      newpwm := pwmv;
      if newpwm != 0 {
        if tempc >= Wrap16(c.temphi) {
          newpwm := 0;
          status := Limit;
        } else if tempc > Wrap16(c.templo) {
          var pwmt := Wrap16(c.temphi - tempc);
          pwmt := Wrap16(pwmt * 256);
          pwmt := Quot(pwmt, trange);
          if newpwm > pwmt {
            newpwm := pwmt;
            status := Limit;
          }
        }
      }
    }

    /** The slew limit: one step per pass. */
    method Adjust(newpwm: nat)
      modifies this`pwm
      ensures pwm == Slew(old(pwm), newpwm)
    {
      var adjust := 0;
      if newpwm > pwm {
        adjust := 1;
      } else if newpwm < pwm {
        adjust := -1;
      }
      ShuntSet(pwm + adjust);
    }

    method RunPass(c: Settings, cellmv: nat, temp: int)
      requires c.Fit() && cellmv < 0x1_0000 && !DividesByZero(View(), c, cellmv, temp)
      modifies this
      ensures View() == Pass(old(View()), c, cellmv, temp)
    {
      ghost var s := View();
      var newpwm := FromVoltage(c, cellmv);
      assert View() == s.(status := VoltageStep(s, c, cellmv).1);
      newpwm := LimitByTemperature(c, Wrap16(temp), newpwm);
      assert (newpwm, status) == Target(s, c, cellmv, temp);
      loopTimeout := Wrap16(loopTimeout + LOOP_TIME);
      Adjust(newpwm);
    }

    method ShuntRun(c: Settings, systick: nat, cellmv: nat, temp: int) returns (sts: Status)
      requires c.Fit() && cellmv < 0x1_0000 && !DividesByZero(View(), c, cellmv, temp) && systick < 0x1_0000
      modifies this
      ensures View() == Run(old(View()), c, systick, cellmv, temp) && sts == status
    {
      if status == Off {
        ShuntStop();
        return Off;
      }
      if !T.Expired16(systick, loopTimeout) {
        return status;
      }
      RunPass(c, cellmv, temp);
      if T.Expired16(systick, shuntTimeout) {
        ShuntStop();
      }
      return status;
    }
  }
}
