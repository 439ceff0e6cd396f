/** The bitwise tests of the reader, `x & (1 << k) != 0`, on naturals. */
module Bits {

  import opened Arithmetic

  /** Bitwise AND of two naturals, taken one binary digit at a time from the
      least significant end. */
  function And(a: nat, b: nat): (r: nat)
    ensures r <= a && r <= b
    decreases a
  {
    if a == 0 || b == 0 then 0 else 2 * And(a / 2, b / 2) + (a % 2) * (b % 2)
  }

  /** Binary digit `k` of `x`. */
  function Digit(x: nat, k: nat): (d: nat)
    ensures d < 2
  {
    (x / Pow2(k)) % 2
  }

  /** `x & (1 << k) != 0`. */
  predicate BitSet(x: nat, k: nat) {
    And(x, Pow2(k)) != 0
  }

  /** Masking with `1 << k` keeps binary digit `k` of `x` and clears every other one. */
  lemma {:induction false} AndPow2(x: nat, k: nat)
    ensures And(x, Pow2(k)) == Digit(x, k) * Pow2(k)
    decreases k
  {
    if k == 0 {
    } else if x == 0 {
    } else {
      var p := Pow2(k - 1);
      var mask := Pow2(k);
      assert mask == 2 * p;
      assert mask / 2 == p && mask % 2 == 0;
      assert (x % 2) * (mask % 2) == 0;
      assert And(x, mask) == 2 * And(x / 2, p);
      AndPow2(x / 2, k - 1);
      HalfSplit(x, k);
      assert Digit(x / 2, k - 1) == Digit(x, k);
      if Digit(x, k) == 0 {
        assert And(x, Pow2(k)) == 0;
      } else {
        assert And(x, Pow2(k)) == 2 * p;
      }
    }
  }

  /** The mask test holds exactly when binary digit `k` is 1. */
  lemma BitSetIsDigit(x: nat, k: nat)
    ensures BitSet(x, k) <==> Digit(x, k) == 1
  {
    AndPow2(x, k);
  }

  /** Digits below position `k` survive reduction modulo 2^k. */
  lemma {:induction false} DigitBelowModulus(x: nat, b: nat, k: nat)
    requires b < k
    ensures Digit(x % Pow2(k), b) == Digit(x, b)
    decreases b
  {
    var m := x % Pow2(k);
    if b == 0 {
      var p := Pow2(k - 1);
      var q := x / Pow2(k);
      assert x == q * Pow2(k) + m;
      assert q * Pow2(k) == 2 * (q * p);
      DivModUnique(x, 2, q * p + m / 2, m % 2);
    } else {
      calc {
        Digit(m, b);
        { HalfSplit(m, b); }
        Digit(m / 2, b - 1);
        { HalfSplit(x, k); }
        Digit((x / 2) % Pow2(k - 1), b - 1);
        { DigitBelowModulus(x / 2, b - 1, k - 1); }
        Digit(x / 2, b - 1);
        { HalfSplit(x, b); }
        Digit(x, b);
      }
    }
  }
}
