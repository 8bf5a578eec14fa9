/** The CRC-8 used on the wire and for the stored configuration (test/util/crc16.c). */
module Crc {
  import opened Bytes

  // ---------------------------------------------------------------- the register

  /** `data <<= 1` */
  function ShiftLeft(x: Byte): Byte {
    x[1..] + [false]
  }

  /** What is added to the shifted register, given the bit shifted out. */
  function Feedback(bit: bool): Byte {
    seq(8, i => bit && i >= 5)
  }

  /** The low byte of the generator 1 + x + x^2 + x^8: 0x07. */
  const POLY: Byte := Feedback(true)

  /** One turn of the shift register. */
  function Shift(x: Byte): Byte {
    Xor(ShiftLeft(x), Feedback(x[0]))
  }

  function Rounds(x: Byte, n: nat): Byte
    decreases n, x
  {
    if n == 0 then x else Rounds(Shift(x), n - 1)
  }

  function Update(crc: Byte, data: Byte): Byte {
    Rounds(Xor(crc, data), 8)
  }

  method Crc8CcittUpdate(inCrc: Byte, inData: Byte) returns (data: Byte)
    ensures data == Update(inCrc, inData)
  {
    data := Xor(inCrc, inData);
    for i := 0 to 8
      invariant Rounds(data, 8 - i) == Update(inCrc, inData)
    {
      ghost var was := data;
      if data[0] {
        data := ShiftLeft(data);
        data := Xor(data, POLY);
      } else {
        data := ShiftLeft(data);
      }
      assert data == Shift(was);
    }
  }

  /** The register after a whole sequence of bytes. */
  function Fold(crc: Byte, s: seq<Byte>): Byte
    decreases |s|
  {
    if s == [] then crc else Fold(Update(crc, s[0]), s[1..])
  }

  lemma {:induction false} FoldConcat(crc: Byte, s: seq<Byte>, t: seq<Byte>)
    ensures Fold(crc, s + t) == Fold(Fold(crc, s), t)
    decreases |s|
  {
    if s == [] {
      assert s + t == t;
    } else {
      assert (s + t)[1..] == s[1..] + t;
      FoldConcat(Update(crc, s[0]), s[1..], t);
    }
  }

  lemma FoldSnoc(crc: Byte, s: seq<Byte>, b: Byte)
    ensures Fold(crc, s + [b]) == Update(Fold(crc, s), b)
  {
    FoldConcat(crc, s, [b]);
    assert [b][1..] == [];
  }

  // ---------------------------------------------------------------- algebra of the update

  lemma XorSwap(a: Byte, b: Byte, c: Byte, d: Byte)
    ensures Xor(Xor(a, b), Xor(c, d)) == Xor(Xor(a, c), Xor(b, d))
  {}

  lemma XorZero(x: Byte, y: Byte)
    ensures Xor(x, ZERO) == x == Xor(ZERO, x)
    ensures Xor(x, y) == ZERO <==> x == y
  {
    if Xor(x, y) == ZERO {
      assert forall i :: 0 <= i < 8 ==> !ZERO[i] && Xor(x, y)[i] == (x[i] != y[i]);
    }
  }

  lemma ShiftLinear(x: Byte, y: Byte)
    ensures Shift(Xor(x, y)) == Xor(Shift(x), Shift(y))
  {
    assert ShiftLeft(Xor(x, y)) == Xor(ShiftLeft(x), ShiftLeft(y));
    assert Feedback(x[0] != y[0]) == Xor(Feedback(x[0]), Feedback(y[0]));
    XorSwap(ShiftLeft(x), ShiftLeft(y), Feedback(x[0]), Feedback(y[0]));
  }

  lemma ShiftInjective(x: Byte)
    ensures Shift(x) == ZERO <==> x == ZERO
  {
    var s := Shift(x);
    assert s[7] == x[0];
    forall i | 1 <= i < 8 ensures s[i - 1] == (x[i] != (x[0] && i - 1 >= 5)) {}
    if s == ZERO {
      forall i | 0 <= i < 8 ensures x[i] == ZERO[i] {
        assert !ZERO[7] && (i > 0 ==> s[i - 1] == ZERO[i - 1] == false);
      }
    }
  }

  lemma {:induction false} RoundsLinear(x: Byte, y: Byte, n: nat)
    ensures Rounds(Xor(x, y), n) == Xor(Rounds(x, n), Rounds(y, n))
    decreases n
  {
    if n > 0 {
      ShiftLinear(x, y);
      RoundsLinear(Shift(x), Shift(y), n - 1);
    }
  }

  lemma {:induction false} RoundsInjective(x: Byte, n: nat)
    ensures Rounds(x, n) == ZERO <==> x == ZERO
    decreases n
  {
    if n > 0 {
      ShiftInjective(x);
      RoundsInjective(Shift(x), n - 1);
    }
  }

  lemma UpdateLinear(c: Byte, d: Byte, x: Byte, y: Byte)
    ensures Update(Xor(c, d), Xor(x, y)) == Xor(Update(c, x), Update(d, y))
  {
    XorSwap(c, d, x, y);
    RoundsLinear(Xor(c, x), Xor(d, y), 8);
  }

  lemma UpdateZero(c: Byte, d: Byte)
    ensures Update(c, d) == ZERO <==> c == d
  {
    RoundsInjective(Xor(c, d), 8);
    XorZero(c, d);
  }

  /** Byte-wise exclusive or: the error pattern between two equally long streams. */
  function XorSeq(a: seq<Byte>, b: seq<Byte>): (e: seq<Byte>)
    requires |a| == |b|
    ensures |e| == |a|
    ensures forall i :: 0 <= i < |e| ==> e[i] == Xor(a[i], b[i])
  {
    seq(|a|, i requires 0 <= i < |a| => Xor(a[i], b[i]))
  }

  lemma {:induction false} FoldLinear(c: Byte, d: Byte, a: seq<Byte>, b: seq<Byte>)
    requires |a| == |b|
    ensures Fold(Xor(c, d), XorSeq(a, b)) == Xor(Fold(c, a), Fold(d, b))
    decreases |a|
  {
    if a != [] {
      UpdateLinear(c, d, a[0], b[0]);
      assert XorSeq(a, b)[1..] == XorSeq(a[1..], b[1..]);
      FoldLinear(Update(c, a[0]), Update(d, b[0]), a[1..], b[1..]);
    }
  }

  // ---------------------------------------------------------------- checked blocks

  /** A block whose last byte is the CRC of the bytes before it. */
  predicate Checked(s: seq<Byte>) {
    |s| >= 1 && Fold(ZERO, s[..|s| - 1]) == s[|s| - 1]
  }

  lemma CheckedIffSyndromeZero(s: seq<Byte>)
    requires |s| >= 1
    ensures Checked(s) <==> Fold(ZERO, s) == ZERO
  {
    var body, b := s[..|s| - 1], s[|s| - 1];
    assert s == body + [b];
    FoldSnoc(ZERO, body, b);
    UpdateZero(Fold(ZERO, body), b);
  }

  /** An altered block passes the check exactly when the error pattern alone folds to zero. */
  lemma UndetectedIff(s: seq<Byte>, t: seq<Byte>)
    requires |s| == |t| && Checked(s)
    ensures Checked(t) <==> Fold(ZERO, XorSeq(s, t)) == ZERO
  {
    CheckedIffSyndromeZero(s);
    CheckedIffSyndromeZero(t);
    FoldLinear(ZERO, ZERO, s, t);
    XorZero(ZERO, ZERO);
    XorZero(Fold(ZERO, t), ZERO);
  }
}
