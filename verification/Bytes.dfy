/** Machine bytes, written as their eight bits, and the 16-bit wrap-around of the microcontroller. */
module Bytes {
  /** An 8-bit value, most significant bit first. */
  type Byte = b: seq<bool> | |b| == 8 witness [false, false, false, false, false, false, false, false]

  function Zeros(n: nat): (z: seq<bool>)
    ensures |z| == n && forall i :: 0 <= i < n ==> !z[i]
  {
    seq(n, _ => false)
  }

  const ZERO: Byte := Zeros(8)

  function Pow2(k: nat): nat {
    if k == 0 then 1 else 2 * Pow2(k - 1)
  }

  /** The number that a row of bits stands for. */
  function Value(bits: seq<bool>): (n: nat)
    ensures n < Pow2(|bits|)
  {
    if bits == [] then 0 else 2 * Value(bits[..|bits| - 1]) + (if bits[|bits| - 1] then 1 else 0)
  }

  /** The lowest `k` binary digits of a number. */
  function Digits(n: nat, k: nat): (bits: seq<bool>)
    ensures |bits| == k
    decreases k, n
  {
    if k == 0 then [] else Digits(n / 2, k - 1) + [n % 2 == 1]
  }

  lemma {:induction false} DigitsValue(n: nat, k: nat)
    requires n < Pow2(k)
    ensures Value(Digits(n, k)) == n
    decreases k
  {
    if k > 0 {
      DigitsValue(n / 2, k - 1);
      assert Digits(n, k)[..k - 1] == Digits(n / 2, k - 1);
    }
  }

  /** The number a byte stands for. */
  function FromByte(b: Byte): (n: nat)
    ensures n < 256
  {
    assert Pow2(8) == 256;
    Value(b)
  }

  /** The byte that stores a number below 256. */
  function ToByte(n: nat): (b: Byte)
    requires n < 256
    ensures FromByte(b) == n
  {
    assert Pow2(8) == 256;
    DigitsValue(n, 8);
    Digits(n, 8)
  }

  lemma {:induction false} ValueInjective(a: seq<bool>, b: seq<bool>)
    requires |a| == |b| && Value(a) == Value(b)
    ensures a == b
  {
    if a != [] {
      var n := |a| - 1;
      ValueInjective(a[..n], b[..n]);
      assert a == a[..n] + [a[n]] && b == b[..n] + [b[n]];
    }
  }

  lemma FromByteInjective(a: Byte, b: Byte)
    requires FromByte(a) == FromByte(b)
    ensures a == b
  {
    ValueInjective(a, b);
  }

  function Xor(x: Byte, y: Byte): Byte {
    seq(8, i requires 0 <= i < 8 => x[i] != y[i])
  }

  function Not(x: Byte): Byte {
    seq(8, i requires 0 <= i < 8 => !x[i])
  }

  /** A value stored in a `uint16_t`. */
  function Wrap16(x: int): (r: nat)
    ensures r < 0x1_0000
  {
    x % 0x1_0000
  }

  datatype Option<+T> = None | Some(value: T)

  lemma ConcatAssociative<T>(a: seq<T>, b: seq<T>, c: seq<T>)
    ensures (a + b) + c == a + (b + c)
  {}
}
