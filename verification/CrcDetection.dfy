/**
 The CRC seen bit by bit: it is division by the generator polynomial, and it detects
 every short burst and every odd number of altered bits.
 */
module CrcDetection {
  import opened Bytes
  import opened Crc

  // ---------------------------------------------------------------- bit-serial form

  /** The bits of a stream in the order they enter the register. */
  function Bits(s: seq<Byte>): (r: seq<bool>)
    ensures |r| == 8 * |s|
  {
    if s == [] then [] else s[0] + Bits(s[1..])
  }

  /** One bit enters the register. */
  function Feed(c: Byte, bit: bool): Byte {
    Xor(ShiftLeft(c), Feedback(c[0] != bit))
  }

  function FeedAll(c: Byte, bits: seq<bool>): Byte
    decreases |bits|
  {
    if bits == [] then c else FeedAll(Feed(c, bits[0]), bits[1..])
  }

  lemma {:induction false} FeedAllConcat(c: Byte, s: seq<bool>, t: seq<bool>)
    ensures FeedAll(c, s + t) == FeedAll(FeedAll(c, s), t)
    decreases |s|
  {
    if s == [] {
      assert s + t == t;
    } else {
      assert (s + t)[1..] == s[1..] + t;
      FeedAllConcat(Feed(c, s[0]), s[1..], t);
    }
  }

  /** The bits of `d` not yet shifted out, moved to the top. */
  function Remaining(d: Byte, n: nat): Byte
    requires n <= 8
  {
    d[n..] + Zeros(n)
  }

  /** The register starts from `c ^ d`; a turn feeds the top bit of `d` and moves the rest up. */
  lemma ShiftFeedsTopBit(c: Byte, d: Byte)
    ensures Shift(Xor(c, d)) == Xor(Feed(c, d[0]), ShiftLeft(d))
  {}

  lemma {:induction false} RoundsFeedBits(c: Byte, d: Byte, n: nat)
    requires n <= 8
    ensures Rounds(Xor(c, Remaining(d, 8 - n)), n) == FeedAll(c, d[8 - n..])
    decreases n
  {
    var k := 8 - n;
    var e := Remaining(d, k);
    if n == 0 {
      assert e == ZERO;
      XorZero(c, e);
    } else {
      ShiftFeedsTopBit(c, e);
      assert e[0] == d[k] && ShiftLeft(e) == Remaining(d, k + 1);
      RoundsFeedBits(Feed(c, d[k]), d, n - 1);
      assert d[k..][1..] == d[k + 1..];
    }
  }

  lemma UpdateFeedsBits(c: Byte, d: Byte)
    ensures Update(c, d) == FeedAll(c, d)
  {
    RoundsFeedBits(c, d, 8);
    assert Remaining(d, 0) == d && d[0..] == d;
  }

  lemma {:induction false} FoldFeedsBits(c: Byte, s: seq<Byte>)
    ensures Fold(c, s) == FeedAll(c, Bits(s))
    decreases |s|
  {
    if s != [] {
      UpdateFeedsBits(c, s[0]);
      FoldFeedsBits(Update(c, s[0]), s[1..]);
      FeedAllConcat(c, s[0], Bits(s[1..]));
    }
  }

  // ---------------------------------------------------------------- division by the generator

  /** Coefficient `i` of a row of coefficients, zero outside it. */
  predicate At(p: seq<bool>, i: int) {
    0 <= i < |p| && p[i]
  }

  /** Coefficient `i`, from the top, of the product of `q` and the generator x^8 + x^2 + x + 1. */
  predicate TimesG(q: seq<bool>, i: int) {
    ((At(q, i) != At(q, i - 6)) != At(q, i - 7)) != At(q, i - 8)
  }

  /** The polynomial with coefficients `p` is `q` times the generator. */
  ghost predicate IsMultiple(p: seq<bool>, q: seq<bool>) {
    |p| == |q| + 8 && forall i :: 0 <= i < |p| ==> p[i] == TimesG(q, i)
  }

  /** The feedback bits: the quotient of the division. */
  function Quotient(c: Byte, bits: seq<bool>): (q: seq<bool>)
    ensures |q| == |bits|
    decreases |bits|
  {
    if bits == [] then [] else [c[0] != bits[0]] + Quotient(Feed(c, bits[0]), bits[1..])
  }

  /** Coefficients of `t` times the generator. */
  predicate GCoefficient(t: bool, i: int) {
    t && (i == 0 || i == 6 || i == 7 || i == 8)
  }

  lemma FeedCoefficient(c: Byte, bit: bool, i: nat)
    requires 1 <= i
    ensures At(Feed(c, bit), i - 1) == (At(c, i) != GCoefficient(c[0] != bit, i))
  {}

  lemma TimesGCons(t: bool, q: seq<bool>, i: nat)
    ensures TimesG([t] + q, i) == (TimesG(q, i - 1) != GCoefficient(t, i))
  {
    assert forall k :: At([t] + q, k) == if k == 0 then t else At(q, k - 1);
  }

  /** `bits` added to the register contents `c` is the quotient times the generator, plus what is left. */
  lemma {:induction false} DivisionStep(c: Byte, bits: seq<bool>, i: nat)
    requires i < |bits| + 8
    ensures (At(bits, i) != At(c, i)) ==
            (TimesG(Quotient(c, bits), i) != At(FeedAll(c, bits), i - |bits|))
    decreases |bits|
  {
    if bits != [] {
      var c', rest := Feed(c, bits[0]), bits[1..];
      TimesGCons(c[0] != bits[0], Quotient(c', rest), i);
      assert At(bits, i) == if i == 0 then bits[0] else At(rest, i - 1);
      if i > 0 {
        DivisionStep(c', rest, i - 1);
        FeedCoefficient(c, bits[0], i);
      }
    }
  }

  /** A multiple of the generator whose leading coefficients vanish is zero. */
  lemma {:induction false} LeadingZero(d: seq<bool>, k: nat)
    requires k <= |d|
    requires forall i :: 0 <= i < |d| ==> !TimesG(d, i)
    ensures forall i :: 0 <= i < k ==> !d[i]
  {
    if k > 0 {
      LeadingZero(d, k - 1);
      assert !TimesG(d, k - 1);
    }
  }

  lemma {:induction false} BitsConcat(s: seq<Byte>, t: seq<Byte>)
    ensures Bits(s + t) == Bits(s) + Bits(t)
  {
    if s == [] {
      assert s + t == t;
    } else {
      assert (s + t)[1..] == s[1..] + t;
      BitsConcat(s[1..], t);
    }
  }

  /** The bits of a block, coefficient by coefficient: quotient times generator, plus remainder plus last byte. */
  lemma BlockDivision(body: seq<Byte>, last: Byte, i: nat)
    requires i < 8 * |body| + 8
    ensures i < |Bits(body + [last])|
    ensures Bits(body + [last])[i] ==
            ((TimesG(Quotient(ZERO, Bits(body)), i) != At(Fold(ZERO, body), i - 8 * |body|))
             != At(last, i - 8 * |body|))
  {
    FoldFeedsBits(ZERO, body);
    DivisionStep(ZERO, Bits(body), i);
    BitsConcat(body, [last]);
    assert Bits([last]) == last;
  }

  /** A block carries its own CRC exactly when, as a polynomial, the generator divides it. */
  lemma CheckedIffDivisible(s: seq<Byte>)
    requires |s| >= 1
    ensures Checked(s) <==> exists q :: IsMultiple(Bits(s), q)
  {
    var body, last := s[..|s| - 1], s[|s| - 1];
    assert s == body + [last];
    if Checked(s) {
      forall i | 0 <= i < |Bits(s)| ensures Bits(s)[i] == TimesG(Quotient(ZERO, Bits(body)), i) {
        BlockDivision(body, last, i);
      }
      assert IsMultiple(Bits(s), Quotient(ZERO, Bits(body)));
    }
    if q :| IsMultiple(Bits(s), q) {
      DivisibleIsChecked(body, last, q);
    }
  }

  lemma DivisibleIsChecked(body: seq<Byte>, last: Byte, q: seq<bool>)
    requires IsMultiple(Bits(body + [last]), q)
    ensures Fold(ZERO, body) == last
  {
    var p, r, n := Quotient(ZERO, Bits(body)), Fold(ZERO, body), 8 * |body|;
    var d := seq(n, i requires 0 <= i < n => q[i] != p[i]);
    forall i | 0 <= i < n ensures !TimesG(d, i) {
      BlockDivision(body, last, i);
      TimesGAdd(q, p, d, i);
    }
    LeadingZero(d, n);
    forall i | 0 <= i < n ensures q[i] == p[i] {
      assert !d[i];
    }
    assert q == p;
    forall k | 0 <= k < 8 ensures r[k] == last[k] {
      BlockDivision(body, last, n + k);
    }
  }

  lemma TimesGAdd(p: seq<bool>, q: seq<bool>, d: seq<bool>, i: int)
    requires |p| == |q| == |d| && forall k :: 0 <= k < |d| ==> d[k] == (p[k] != q[k])
    ensures TimesG(d, i) == (TimesG(p, i) != TimesG(q, i))
  {
    assert forall k :: At(d, k) == (At(p, k) != At(q, k));
  }

  // ---------------------------------------------------------------- detection

  /** The error pattern between two streams, bit by bit. */
  function Pattern(s: seq<Byte>, t: seq<Byte>): seq<bool>
    requires |s| == |t|
  {
    Bits(XorSeq(s, t))
  }

  lemma {:induction false} FeedZeros(c: Byte, z: seq<bool>)
    requires forall i :: 0 <= i < |z| ==> !z[i]
    ensures FeedAll(c, z) == ZERO <==> c == ZERO
    decreases |z|
  {
    if z != [] {
      FeedZeros(Feed(c, z[0]), z[1..]);
      ShiftInjective(c);
    }
  }

  /** At most eight bits, the first one set, never leave the register empty. */
  lemma ShortPatternSurvives(v: seq<bool>)
    requires 1 <= |v| <= 8 && v[0]
    ensures FeedAll(ZERO, v) != ZERO
  {
    var z := Zeros(8 - |v|);
    FeedAllConcat(ZERO, v, z);
    FeedZeros(FeedAll(ZERO, v), z);
    UpdateFeedsBits(ZERO, v + z);
    UpdateZero(ZERO, v + z);
    assert (v + z)[0] && !ZERO[0];
  }

  lemma BurstSurvives(z: seq<bool>, v: seq<bool>, z': seq<bool>)
    requires forall i :: 0 <= i < |z| ==> !z[i]
    requires forall i :: 0 <= i < |z'| ==> !z'[i]
    requires 1 <= |v| <= 8 && v[0]
    ensures FeedAll(ZERO, z + (v + z')) != ZERO
  {
    FeedAllConcat(ZERO, z, v + z');
    FeedZeros(ZERO, z);
    FeedAllConcat(ZERO, v, z');
    ShortPatternSurvives(v);
    FeedZeros(FeedAll(ZERO, v), z');
  }

  /** A non-zero pattern whose set bits all lie within eight consecutive positions. */
  predicate IsBurst(e: seq<bool>, start: nat) {
    && (exists i :: 0 <= i < |e| && e[i])
    && (forall i :: 0 <= i < |e| && e[i] ==> start <= i < start + 8)
  }

  lemma PatternSurvives(e: seq<bool>, start: nat)
    requires IsBurst(e, start)
    ensures FeedAll(ZERO, e) != ZERO
  {
    var a := FirstTrue(e);
    var b := if a + 8 <= |e| then a + 8 else |e|;
    assert e == e[..a] + (e[a..b] + e[b..]);
    BurstSurvives(e[..a], e[a..b], e[b..]);
  }

  lemma FirstTrue(e: seq<bool>) returns (a: nat)
    requires exists i :: 0 <= i < |e| && e[i]
    ensures a < |e| && e[a] && forall i :: 0 <= i < a ==> !e[i]
  {
    a := 0;
    while !e[a]
      invariant a < |e|
      invariant exists i :: a <= i < |e| && e[i]
      invariant forall i :: 0 <= i < a ==> !e[i]
      decreases |e| - a
    {
      a := a + 1;
    }
  }

  /** Every burst of at most eight consecutive bits is detected. */
  lemma BurstDetected(s: seq<Byte>, t: seq<Byte>, start: nat)
    requires |s| == |t| && Checked(s)
    requires IsBurst(Pattern(s, t), start)
    ensures !Checked(t)
  {
    UndetectedIff(s, t);
    FoldFeedsBits(ZERO, XorSeq(s, t));
    PatternSurvives(Pattern(s, t), start);
  }

  function Count(bits: seq<bool>): nat {
    if bits == [] then 0 else (if bits[0] then 1 else 0) + Count(bits[1..])
  }

  /** The parity of a row of bits. */
  predicate Odd(bits: seq<bool>) {
    bits != [] && bits[0] != Odd(bits[1..])
  }

  lemma {:induction false} OddIsCount(bits: seq<bool>)
    ensures Odd(bits) <==> Count(bits) % 2 == 1
  {
    if bits != [] {
      OddIsCount(bits[1..]);
    }
  }

  lemma {:induction false} OddXor(a: seq<bool>, b: seq<bool>, c: seq<bool>)
    requires |a| == |b| == |c| && forall i :: 0 <= i < |c| ==> c[i] == (a[i] != b[i])
    ensures Odd(c) == (Odd(a) != Odd(b))
  {
    if c != [] {
      OddXor(a[1..], b[1..], c[1..]);
    }
  }

  lemma {:induction false} OddSnoc(a: seq<bool>, bit: bool)
    ensures Odd(a + [bit]) == (Odd(a) != bit)
  {
    if a != [] {
      assert (a + [bit])[1..] == a[1..] + [bit];
      OddSnoc(a[1..], bit);
    }
  }

  lemma {:induction false} OddZeros(n: nat)
    ensures !Odd(Zeros(n))
  {
    if n > 0 {
      assert Zeros(n)[1..] == Zeros(n - 1);
      OddZeros(n - 1);
    }
  }

  /** The generator has four terms, so feedback flips an even number of bits. */
  lemma FeedParity(c: Byte, bit: bool)
    ensures Odd(Feed(c, bit)) == (Odd(c) != bit)
  {
    var t := c[0] != bit;
    OddXor(ShiftLeft(c), Feedback(t), Feed(c, bit));
    OddSnoc(c[1..], false);
    assert Feedback(t) == Zeros(5) + [t] + [t] + [t];
    OddZeros(5);
    OddSnoc(Zeros(5), t);
    OddSnoc(Zeros(5) + [t], t);
    OddSnoc(Zeros(5) + [t] + [t], t);
  }

  lemma {:induction false} FeedKeepsParity(c: Byte, bits: seq<bool>)
    ensures Odd(FeedAll(c, bits)) == (Odd(c) != Odd(bits))
    decreases |bits|
  {
    if bits != [] {
      FeedParity(c, bits[0]);
      FeedKeepsParity(Feed(c, bits[0]), bits[1..]);
    }
  }

  /** Every odd number of altered bits is detected. */
  lemma OddDetected(s: seq<Byte>, t: seq<Byte>)
    requires |s| == |t| && Checked(s)
    requires Count(Pattern(s, t)) % 2 == 1
    ensures !Checked(t)
  {
    UndetectedIff(s, t);
    FoldFeedsBits(ZERO, XorSeq(s, t));
    OddIsCount(Pattern(s, t));
    FeedKeepsParity(ZERO, Pattern(s, t));
  }

  /** Byte `k` occupies bit positions 8k to 8k + 7. */
  lemma {:induction false} BitsAt(s: seq<Byte>, k: nat, j: nat)
    requires k < |s| && j < 8
    ensures Bits(s)[8 * k + j] == s[k][j]
  {
    if k > 0 {
      BitsAt(s[1..], k - 1, j);
    }
  }

  /** A change confined to one byte, wherever it is and whatever it is, is detected. */
  lemma OneByteDetected(s: seq<Byte>, t: seq<Byte>, k: nat)
    requires |s| == |t| && Checked(s)
    requires k < |s| && s[k] != t[k] && forall i :: 0 <= i < |s| && i != k ==> s[i] == t[i]
    ensures !Checked(t)
  {
    var e, x := Pattern(s, t), XorSeq(s, t);
    forall i | 0 <= i < |e| && i / 8 != k
      ensures !e[i]
    {
      BitsAt(x, i / 8, i % 8);
    }
    var j :| 0 <= j < 8 && s[k][j] != t[k][j];
    BitsAt(x, k, j);
    assert e[8 * k + j];
    BurstDetected(s, t, 8 * k);
  }

  // ---------------------------------------------------------------- what escapes

  /** The generator itself, x^8 + x^2 + x + 1, as two bytes. */
  const G_HIGH: Byte := [false, false, false, false, false, false, false, true]
  const G_LOW: Byte := [false, false, false, false, false, true, true, true]

  /** A single bit, `k` places from the top. */
  function OneBit(k: nat): Byte {
    seq(8, i requires 0 <= i < 8 => i == k)
  }

  lemma {:induction false} RoundsOneBit(k: nat)
    requires k < 8
    ensures Rounds(OneBit(k), k + 1) == G_LOW
  {
    if k == 0 {
      assert ShiftLeft(OneBit(0)) == ZERO && Shift(OneBit(0)) == G_LOW;
    } else {
      assert Shift(OneBit(k)) == OneBit(k - 1);
      RoundsOneBit(k - 1);
    }
  }

  lemma GeneratorFolds()
    ensures Fold(ZERO, [G_HIGH, G_LOW]) == ZERO
  {
    assert Xor(ZERO, G_HIGH) == G_HIGH == OneBit(7);
    RoundsOneBit(7);
    assert Update(ZERO, G_HIGH) == G_LOW;
    UpdateZero(G_LOW, G_LOW);
    FoldSnoc(ZERO, [], G_HIGH);
    FoldSnoc(ZERO, [G_HIGH], G_LOW);
    assert [] + [G_HIGH] == [G_HIGH] && [G_HIGH] + [G_LOW] == [G_HIGH, G_LOW];
  }

  lemma {:induction false} FoldZeros(z: seq<Byte>)
    requires forall i :: 0 <= i < |z| ==> z[i] == ZERO
    ensures Fold(ZERO, z) == ZERO
  {
    if z != [] {
      UpdateZero(ZERO, ZERO);
      FoldZeros(z[1..]);
    }
  }

  lemma GeneratorPatternFolds(z: seq<Byte>, z': seq<Byte>)
    requires forall i :: 0 <= i < |z| ==> z[i] == ZERO
    requires forall i :: 0 <= i < |z'| ==> z'[i] == ZERO
    ensures Fold(ZERO, z + ([G_HIGH, G_LOW] + z')) == ZERO
  {
    FoldConcat(ZERO, z, [G_HIGH, G_LOW] + z');
    FoldConcat(ZERO, [G_HIGH, G_LOW], z');
    FoldZeros(z);
    GeneratorFolds();
    FoldZeros(z');
  }

  lemma XorSelf(x: Byte, g: Byte)
    ensures Xor(x, x) == ZERO && Xor(x, Xor(x, g)) == g
  {}

  /** An error in the generator's own pattern passes the check, on whichever two bytes it falls. */
  lemma GeneratorEscapes(s: seq<Byte>, t: seq<Byte>, i: nat)
    requires |s| == |t| && Checked(s) && i + 1 < |s|
    requires t[i] == Xor(s[i], G_HIGH) && t[i + 1] == Xor(s[i + 1], G_LOW)
    requires forall k :: 0 <= k < |s| && k != i && k != i + 1 ==> t[k] == s[k]
    ensures Checked(t)
  {
    var e := XorSeq(s, t);
    XorSelf(s[i], G_HIGH);
    XorSelf(s[i + 1], G_LOW);
    forall k | 0 <= k < |e| && k != i && k != i + 1 ensures e[k] == ZERO {
      XorSelf(s[k], ZERO);
    }
    assert e == e[..i] + ([G_HIGH, G_LOW] + e[i + 2..]);
    GeneratorPatternFolds(e[..i], e[i + 2..]);
    UndetectedIff(s, t);
  }
}
