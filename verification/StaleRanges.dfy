/** Settings changed during a session (src/shunt.c:107-109): what the ranges cached at its start still do. */
module StaleRanges {
  import opened Bytes
  import opened Shunt

  /** The same regulator with the ranges of the settings in force. */
  function Refreshed(s: Shunt, c: Settings): (s': Shunt)
    ensures s'.Synced(c)
  {
    s.(vrange := Wrap16(c.shuntmax - c.shuntmin), trange := Wrap16(c.temphi - c.templo))
  }

  // ---------------------------------------------------------------- scaling by one range or another

  /** The part `x` of the range `d` in 256 steps, clamped. */
  function Scaled(x: nat, d: nat): (n: nat)
    requires d > 0
    ensures n <= 255
  {
    var q := Quot(x * 256, d);
    if q > 255 then 255 else q
  }

  lemma ScaledAtLeast(x: nat, d: nat, k: nat)
    requires d > 0 && k <= 255
    ensures Scaled(x, d) >= k <==> x * 256 >= k * d
  {
    QuotAtLeast(x * 256, d, k);
  }

  /** Where the scale of range `d` reaches its top. */
  function Top(d: nat): nat {
    d - d / 256
  }

  lemma ScaledTop(x: nat, d: nat)
    requires d > 0
    ensures Scaled(x, d) == 255 <==> x >= Top(d)
  {
    ScaledAtLeast(x, d, 255);
  }

  predicate SameScale(d: nat, v: nat)
    requires d > 0 && v > 0
  {
    forall x: nat | 0 < x < d :: Scaled(x, v) == Scaled(x, d)
  }

  /** Two ranges have their top in common only if they are equal, or a multiple of 256 and the number before it. */
  lemma CommonTop(d: nat, v: nat)
    requires Top(d) == Top(v) && d < v
    ensures v % 256 == 0 && v == d + 1
  {}

  lemma NeighboursScaleAlike(x: nat, m: nat)
    requires m > 0
    ensures Scaled(x, 256 * m - 1) == Scaled(x, 256 * m)
  {
    var v, d := 256 * m - 1, 256 * m;
    var k := Scaled(x, v);
    ScaledAtLeast(x, v, k);
    assert k * v == 256 * (k * m) - k;
    assert x >= k * m;
    assert k * d == 256 * (k * m);
    ScaledAtLeast(x, d, k);
    QuotAntitone(x * 256, v, d);
  }

  lemma CommonTopScalesAlike(d: nat, v: nat, x: nat)
    requires d > 0 && v > 0 && Top(d) == Top(v)
    ensures Scaled(x, v) == Scaled(x, d)
  {
    if d < v {
      CommonTop(d, v);
      NeighboursScaleAlike(x, v / 256);
    } else if v < d {
      CommonTop(v, d);
      NeighboursScaleAlike(x, d / 256);
    }
  }

  lemma TimesPositive(q: nat, e: nat)
    requires e >= 1
    ensures q * e >= q
  {
    assert q * e == q * (e - 1) + q;
  }

  lemma LongerRangeProduct(q: nat, d: nat, v: nat)
    requires v > d
    ensures q * v >= q * d + q
  {
    TimesPositive(q, v - d);
    assert q * v == q * d + q * (v - d);
  }

  lemma SquareBelow(d: nat)
    requires 2 <= d <= 254
    ensures d * d <= (d - 1) * 256
  {
    assert (d - 2) * (254 - d) >= 0;
  }

  lemma NextMultiple(q: nat, d: nat)
    ensures (q + 1) * d == q * d + d
  {}

  /** A range below 255 and a longer one differ already one step below the range. */
  lemma ShortRangeDiffers(d: nat, v: nat)
    requires 2 <= d <= 254 && v > d
    ensures Scaled(d - 1, v) < Scaled(d - 1, d)
  {
    var x := (d - 1) * 256;
    var q := Quot(x, d);
    FractionBelow256(d - 1, d);
    QuotAtLeast(x, d, q + 1);
    NextMultiple(q, d);
    SquareBelow(d);
    QuotAtLeast(x, d, d);
    LongerRangeProduct(q, d, v);
    ScaledAtLeast(d - 1, v, q);
  }

  lemma Range255Differs(v: nat)
    requires v > 256
    ensures Scaled(254, v) < Scaled(254, 255)
  {
    ScaledAtLeast(254, v, 254);
    ScaledAtLeast(254, 255, 254);
  }

  /** The exact condition for one range to scale like another. */
  lemma SameScaleIff(d: nat, v: nat)
    requires d >= 2 && v > 0
    ensures SameScale(d, v) <==> Top(v) == Top(d)
  {
    if Top(v) == Top(d) {
      forall x: nat | 0 < x < d ensures Scaled(x, v) == Scaled(x, d) {
        CommonTopScalesAlike(d, v, x);
      }
    } else if Top(v) < Top(d) {
      ScaledTop(Top(v), v);
      ScaledTop(Top(v), d);
      assert Scaled(Top(v), v) != Scaled(Top(v), d);
    } else if d >= 256 {
      ScaledTop(Top(d), v);
      ScaledTop(Top(d), d);
      assert Scaled(Top(d), v) != Scaled(Top(d), d);
    } else if d == 255 {
      Range255Differs(v);
      assert Scaled(d - 1, v) != Scaled(d - 1, d);
    } else {
      ShortRangeDiffers(d, v);
      assert Scaled(d - 1, v) != Scaled(d - 1, d);
    }
  }

  // ---------------------------------------------------------------- voltage

  predicate VoltageKept(s: Shunt, c: Settings) {
    c.shuntmin + 1 < c.shuntmax ==> Top(s.vrange) == Top(c.shuntmax - c.shuntmin)
  }

  lemma VoltageStepScales(s: Shunt, c: Settings, mv: nat)
    requires c.Fit() && c.shuntmin < mv < c.shuntmax && s.vrange > 0
    ensures VoltageStep(s, c, mv).0 == Scaled(mv - c.shuntmin, s.vrange)
    ensures VoltageStep(Refreshed(s, c), c, mv).0 == Scaled(mv - c.shuntmin, c.shuntmax - c.shuntmin)
  {}

  lemma KeptVoltage(s: Shunt, c: Settings, mv: nat)
    requires c.Fit() && s.VoltageDivides(c) && VoltageKept(s, c) && mv < 0x1_0000
    ensures VoltageStep(s, c, mv).0 == VoltageStep(Refreshed(s, c), c, mv).0
  {
    if c.shuntmin < mv < c.shuntmax {
      VoltageStepScales(s, c, mv);
      CommonTopScalesAlike(c.shuntmax - c.shuntmin, s.vrange, mv - c.shuntmin);
    }
  }

  /** A voltage at which a range that is not as good as fresh shows. */
  lemma LostVoltage(s: Shunt, c: Settings) returns (mv: nat)
    requires c.Fit() && s.VoltageDivides(c) && !VoltageKept(s, c)
    ensures mv < 0x1_0000 && VoltageStep(s, c, mv).0 != VoltageStep(Refreshed(s, c), c, mv).0
  {
    var d := c.shuntmax - c.shuntmin;
    SameScaleIff(d, s.vrange);
    var x: nat :| 0 < x < d && Scaled(x, s.vrange) != Scaled(x, d);
    mv := c.shuntmin + x;
    VoltageStepScales(s, c, mv);
  }

  /** For all settings: under a stale range the voltage law holds at every voltage if and only if the tops agree. */
  lemma VoltageKeptIff(s: Shunt, c: Settings)
    requires c.Fit() && s.VoltageDivides(c)
    ensures (forall mv: nat | mv < 0x1_0000 :: VoltageStep(s, c, mv).0 == VoltageLaw(c, mv)) <==> VoltageKept(s, c)
  {
    if VoltageKept(s, c) {
      forall mv: nat | mv < 0x1_0000 ensures VoltageStep(s, c, mv).0 == VoltageLaw(c, mv) {
        KeptVoltage(s, c, mv);
        VoltageStepIsLaw(Refreshed(s, c), c, mv);
      }
    } else {
      var mv := LostVoltage(s, c);
      VoltageStepIsLaw(Refreshed(s, c), c, mv);
    }
  }

  /** With a stale range the clamp is needed exactly when the voltage is past the lower limit by at least that range. */
  lemma StaleClampIff(s: Shunt, c: Settings, mv: nat)
    requires c.Fit() && c.shuntmin < mv < c.shuntmax && s.vrange != 0
    ensures Quot((mv - c.shuntmin) * 256, s.vrange) > 255 <==> mv - c.shuntmin >= s.vrange
  {
    QuotAtLeast((mv - c.shuntmin) * 256, s.vrange, 256);
  }

  // ---------------------------------------------------------------- temperature

  predicate TemperatureKept(s: Shunt, c: Settings) {
    Wrap16(c.templo) + 1 < Wrap16(c.temphi) ==>
      if (c.templo >= 0) == (c.temphi >= 0) then s.trange == c.temphi - c.templo else s.trange > 0xFF00
  }

  /** The temperature step between the limits, for limits of one sign. */
  lemma TemperatureStepScales(s: Shunt, c: Settings, u: nat, r: (nat, Status))
    requires c.Fit() && Wrap16(c.templo) < u < Wrap16(c.temphi) && (c.templo >= 0) == (c.temphi >= 0)
    requires s.trange > 0 && r.0 <= 255
    ensures TemperatureStep(s, c, u, r).0 == Min(r.0, Scaled(Wrap16(c.temphi) - u, s.trange))
  {
    ScaledDifference(c, u);
  }

  /** Only the range matters of the state. */
  lemma SameRangeSameStep(s: Shunt, s': Shunt, c: Settings, u: nat, r: (nat, Status))
    requires c.Fit() && u < 0x1_0000 && r.0 <= 255 && s.trange == s'.trange
    requires Wrap16(c.templo) < u < Wrap16(c.temphi) ==> s.trange != 0
    ensures TemperatureStep(s, c, u, r) == TemperatureStep(s', c, u, r)
  {}

  /** With limits of two signs, both the fresh range and one above 65280 are beyond the scaled difference. */
  lemma KeptTwoSigns(s: Shunt, c: Settings, u: nat, r: (nat, Status))
    requires c.Fit() && (c.templo >= 0) != (c.temphi >= 0) && s.trange > 0xFF00 && r.0 <= 255
    requires Wrap16(c.templo) < u < Wrap16(c.temphi)
    ensures TemperatureStep(s, c, u, r).0 == 0 == TemperatureStep(Refreshed(s, c), c, u, r).0
  {
    ScaledDifference(c, u);
    ScaledIsMultiple(Wrap16(c.temphi - u));
  }

  lemma KeptTemperature(s: Shunt, c: Settings, u: nat, r: (nat, Status))
    requires c.Fit() && s.TemperatureDivides(c) && TemperatureKept(s, c) && u < 0x1_0000 && r.0 <= 255
    ensures TemperatureStep(s, c, u, r).0 == TemperatureStep(Refreshed(s, c), c, u, r).0
  {
    if Wrap16(c.templo) < u < Wrap16(c.temphi) {
      if (c.templo >= 0) != (c.temphi >= 0) {
        KeptTwoSigns(s, c, u, r);
      } else {
        ScaledDifference(c, u);
        SameRangeSameStep(s, Refreshed(s, c), c, u, r);
      }
    }
  }

  /** Below 255, only a range itself has its top. */
  lemma ShortTop(d: nat, v: nat)
    requires d < 255 && Top(v) == Top(d)
    ensures v == d
  {}

  lemma LostOneSign(s: Shunt, c: Settings) returns (u: nat)
    requires c.Fit() && s.TemperatureDivides(c) && !TemperatureKept(s, c) && (c.templo >= 0) == (c.temphi >= 0)
    ensures Wrap16(c.templo) < u < Wrap16(c.temphi)
    ensures Min(255, Scaled(Wrap16(c.temphi) - u, s.trange)) !=
            Min(255, Scaled(Wrap16(c.temphi) - u, c.temphi - c.templo))
  {
    ScaledDifference(c, Wrap16(c.templo) + 1);
    var x := LostScale(c.temphi - c.templo, s.trange);
    u := Wrap16(c.temphi) - x;
  }

  /** A part of a short range that another range scales differently. */
  lemma LostScale(d: nat, v: nat) returns (x: nat)
    requires 2 <= d < 255 && 0 < v != d
    ensures 0 < x < d && Scaled(x, v) != Scaled(x, d)
  {
    if Top(v) == Top(d) {
      ShortTop(d, v);
    }
    SameScaleIff(d, v);
    x :| 0 < x < d && Scaled(x, v) != Scaled(x, d);
  }

  lemma LostTwoSigns(s: Shunt, c: Settings)
    requires c.Fit() && s.TemperatureDivides(c) && !TemperatureKept(s, c) && (c.templo >= 0) != (c.temphi >= 0)
    ensures var u := Wrap16(c.temphi) - 255;
            && 0 <= u < 0x1_0000
            && TemperatureStep(s, c, u, (255, On)).0 != TemperatureStep(Refreshed(s, c), c, u, (255, On)).0
  {
    var u := Wrap16(c.temphi) - 255;
    ScaledDifference(c, u);
    assert Wrap16(c.temphi - u) == 255;
  }

  /** A temperature at which a range that is not as good as fresh shows. */
  lemma LostTemperature(s: Shunt, c: Settings) returns (u: nat)
    requires c.Fit() && s.TemperatureDivides(c) && !TemperatureKept(s, c)
    ensures Wrap16(c.templo) < u < Wrap16(c.temphi)
    ensures TemperatureStep(s, c, u, (255, On)).0 != TemperatureStep(Refreshed(s, c), c, u, (255, On)).0
  {
    if (c.templo >= 0) == (c.temphi >= 0) {
      u := LostOneSign(s, c);
      ScaledDifference(c, u);
      TemperatureStepScales(s, c, u, (255, On));
      TemperatureStepScales(Refreshed(s, c), c, u, (255, On));
    } else {
      u := Wrap16(c.temphi) - 255;
      LostTwoSigns(s, c);
    }
  }

  // ---------------------------------------------------------------- the target

  /**
   When stale ranges do no harm. Where the upper temperature is zero nothing is ever shunted, so the voltage range does
   not matter; where the lower voltage is the highest there is, nothing is asked for, so the temperature range does not.
   */
  predicate StaleHarmless(s: Shunt, c: Settings) {
    && (c.temphi != 0 ==> VoltageKept(s, c))
    && (c.shuntmin < 0xFFFF ==> TemperatureKept(s, c))
  }

  /** At every pair of readings the target is that of a regulator with fresh ranges. */
  ghost predicate TargetsAsFresh(s: Shunt, c: Settings)
    requires c.Fit() && s.CanDivide(c)
  {
    forall mv: nat, t: int | mv < 0x1_0000 && -0x8000 <= t < 0x8000 ::
      Target(s, c, mv, t).0 == Target(Refreshed(s, c), c, mv, t).0
  }

  /** A reading that limits nothing, if there is one. */
  function Unlimited(c: Settings): (u: nat)
    requires c.Fit()
    ensures u < 0x1_0000 && u <= Wrap16(c.templo) && (c.temphi != 0 ==> u < Wrap16(c.temphi))
  {
    if Wrap16(c.templo) < Wrap16(c.temphi) then Wrap16(c.templo) else 0
  }

  /** The signed reading that the code sees as `u`. */
  function Reading16(u: nat): (t: int)
    requires u < 0x1_0000
    ensures -0x8000 <= t < 0x8000 && Wrap16(t) == u
  {
    if u < 0x8000 then u else u - 0x1_0000
  }

  /** For all settings: the target is that of fresh ranges, at all readings, if and only if `StaleHarmless`. */
  lemma StaleTargetIff(s: Shunt, c: Settings)
    requires c.Fit() && s.CanDivide(c)
    ensures TargetsAsFresh(s, c) <==> StaleHarmless(s, c)
  {
    if StaleHarmless(s, c) {
      forall mv: nat, t: int | mv < 0x1_0000 && -0x8000 <= t < 0x8000
        ensures Target(s, c, mv, t).0 == Target(Refreshed(s, c), c, mv, t).0
      {
        HarmlessTarget(s, c, mv, t);
      }
    } else {
      var mv, t := HarmShows(s, c);
    }
  }

  /** At a temperature that limits nothing the target is what the voltage asks for. */
  lemma UnlimitedTarget(s: Shunt, c: Settings, mv: nat)
    requires c.Fit() && s.CanDivide(c) && mv < 0x1_0000 && c.temphi != 0
    ensures Target(s, c, mv, Reading16(Unlimited(c))).0 == VoltageStep(s, c, mv).0
  {}

  /** At the highest voltage it is what the temperature allows. */
  lemma FullVoltageTarget(s: Shunt, c: Settings, u: nat)
    requires c.Fit() && s.CanDivide(c) && u < 0x1_0000 && c.shuntmin < 0xFFFF
    ensures Target(s, c, 0xFFFF, Reading16(u)) == TemperatureStep(s, c, u, (255, On))
  {
    assert VoltageStep(s, c, 0xFFFF) == (255, On);
  }

  /** Readings at which harmful ranges show; for limits not below zero, the temperature is not below zero either. */
  lemma HarmShows(s: Shunt, c: Settings) returns (mv: nat, t: int)
    requires c.Fit() && s.CanDivide(c) && !StaleHarmless(s, c)
    ensures mv < 0x1_0000 && -0x8000 <= t < 0x8000 && (c.templo >= 0 && c.temphi >= 0 ==> t >= 0)
    ensures Target(s, c, mv, t).0 != Target(Refreshed(s, c), c, mv, t).0
  {
    if c.temphi != 0 && !VoltageKept(s, c) {
      mv := LostVoltage(s, c);
      t := Reading16(Unlimited(c));
      UnlimitedTarget(s, c, mv);
      UnlimitedTarget(Refreshed(s, c), c, mv);
    } else {
      mv := 0xFFFF;
      var u := LostTemperature(s, c);
      t := Reading16(u);
      FullVoltageTarget(s, c, u);
      FullVoltageTarget(Refreshed(s, c), c, u);
    }
  }

  /**
   In terms of the documented laws: for limits not below zero, the target is the smaller of the two laws at every
   voltage and every temperature not below zero, if and only if the cached ranges do no harm.
   */
  lemma StaleLawIff(s: Shunt, c: Settings)
    requires c.Fit() && s.CanDivide(c) && c.templo >= 0 && c.temphi >= 0
    ensures (forall mv: nat, t: int | mv < 0x1_0000 && 0 <= t < 0x8000 ::
               Target(s, c, mv, t).0 == Min(VoltageLaw(c, mv), TemperatureLaw(c, t)))
            <==> StaleHarmless(s, c)
  {
    if StaleHarmless(s, c) {
      forall mv: nat, t: int | mv < 0x1_0000 && 0 <= t < 0x8000
        ensures Target(s, c, mv, t).0 == Min(VoltageLaw(c, mv), TemperatureLaw(c, t))
      {
        HarmlessTarget(s, c, mv, t);
        TargetIsMinimum(Refreshed(s, c), c, mv, t);
      }
    } else {
      var mv, t := HarmShows(s, c);
      TargetIsMinimum(Refreshed(s, c), c, mv, t);
    }
  }

  lemma HarmlessTarget(s: Shunt, c: Settings, mv: nat, t: int)
    requires c.Fit() && s.CanDivide(c) && StaleHarmless(s, c) && mv < 0x1_0000
    ensures Target(s, c, mv, t).0 == Target(Refreshed(s, c), c, mv, t).0
  {
    if c.temphi != 0 {
      KeptVoltage(s, c, mv);
    }
    if c.shuntmin < 0xFFFF {
      KeptTemperature(s, c, Wrap16(t), VoltageStep(s, c, mv));
    }
  }

  // ---------------------------------------------------------------- to which side stale ranges err

  /** The target grows as the cached ranges shrink, both of them, for all settings and readings. */
  lemma ShorterRangesShuntMore(s: Shunt, s': Shunt, c: Settings, mv: nat, t: int)
    requires c.Fit() && s.CanDivide(c) && s'.CanDivide(c) && mv < 0x1_0000
    requires s.vrange <= s'.vrange && s.trange <= s'.trange
    ensures Target(s, c, mv, t).0 >= Target(s', c, mv, t).0
  {
    var u := Wrap16(t);
    if c.shuntmin < mv < c.shuntmax {
      QuotAntitone((mv - c.shuntmin) * 256, s.vrange, s'.vrange);
    }
    if c.shuntmin < 0xFFFF && Wrap16(c.templo) < u < Wrap16(c.temphi) {
      QuotAntitone(Wrap16(Wrap16(c.temphi - u) * 256), s.trange, s'.trange);
    }
  }

  /** So stale ranges no longer than the fresh ones never shunt too little, and no shorter ones never too much. */
  lemma StaleRangesErr(s: Shunt, c: Settings, mv: nat, t: int)
    requires c.Fit() && s.CanDivide(c) && mv < 0x1_0000
    ensures var renewed := Refreshed(s, c);
            && (s.vrange <= renewed.vrange && s.trange <= renewed.trange ==>
                  Target(s, c, mv, t).0 >= Target(renewed, c, mv, t).0)
            && (s.vrange >= renewed.vrange && s.trange >= renewed.trange ==>
                  Target(s, c, mv, t).0 <= Target(renewed, c, mv, t).0)
  {
    var renewed := Refreshed(s, c);
    if s.vrange <= renewed.vrange && s.trange <= renewed.trange {
      ShorterRangesShuntMore(s, renewed, c, mv, t);
    }
    if s.vrange >= renewed.vrange && s.trange >= renewed.trange {
      ShorterRangesShuntMore(renewed, s, c, mv, t);
    }
  }

  /** The law is lost: here the upper voltage was raised from 4100 to 4400 during the session. */
  lemma StaleVoltageLosesLaw(s: Shunt, c: Settings)
    requires s.Synced(Settings(4000, 4100, 40, 50)) && c == Settings(4000, 4400, 40, 50)
    ensures s.CanDivide(c) && Target(s, c, 4200, 20) == (255, On)
    ensures Min(VoltageLaw(c, 4200), TemperatureLaw(c, 20)) == 128
  {
    QuotIsDivision(200 * 256, 100);
    QuotIsDivision(200 * 256, 400);
  }

  /** And here the upper temperature, from 50 to 80: the shunt is full on and unlimited half-way between the limits. */
  lemma StaleTemperatureLosesLaw(s: Shunt, c: Settings)
    requires s.Synced(Settings(4000, 4100, 40, 50)) && c == Settings(4000, 4100, 40, 80)
    ensures s.CanDivide(c) && Target(s, c, 4100, 60) == (255, On)
    ensures Min(VoltageLaw(c, 4100), TemperatureLaw(c, 60)) == 128
  {
    assert VoltageStep(s, c, 4100) == (255, On) && s.trange == 10;
    assert Wrap16(60) == 60 && Wrap16(Wrap16(80 - 60) * 256) == 20 * 256;
    QuotIsDivision(20 * 256, 10);
    QuotIsDivision(20 * 256, 40);
  }
}
