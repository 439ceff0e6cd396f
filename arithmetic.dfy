/** Facts about integer division and powers of two that the solver does not
    find on its own (they are non-linear). */
module Arithmetic {

  /** 2 to the power `n`, the value of the mask `1 << n`. */
  function Pow2(n: nat): (r: nat)
    ensures r >= 1
  {
    if n == 0 then 1 else 2 * Pow2(n - 1)
  }

  lemma MulAtLeast(k: int, d: int)
    requires k >= 1 && d > 0
    ensures k * d >= d
  {
  }

  /** Euclidean division is determined by any quotient/remainder pair. */
  lemma DivModUnique(a: int, d: int, q: int, r: int)
    requires d > 0 && a == q * d + r && 0 <= r < d
    ensures a / d == q && a % d == r
  {
    var q', r' := a / d, a % d;
    assert a == q' * d + r';
    assert (q' - q) * d == r - r' by {
      assert (q' - q) * d == q' * d - q * d;
    }
    if q' > q {
      MulAtLeast(q' - q, d);
    } else if q' < q {
      MulAtLeast(q - q', d);
    }
  }

  /** Dividing by 2 and then by 2^(k-1) is dividing by 2^k; taking the
      remainder modulo 2^k and halving is halving and taking the remainder
      modulo 2^(k-1). */
  lemma HalfSplit(a: nat, k: nat)
    requires k > 0
    ensures (a / 2) / Pow2(k - 1) == a / Pow2(k)
    ensures (a % Pow2(k)) / 2 == (a / 2) % Pow2(k - 1)
  {
    var p := Pow2(k - 1);
    var q, r := (a / 2) / p, (a / 2) % p;
    assert a / 2 == q * p + r;
    assert a == q * (2 * p) + (2 * r + a % 2) by {
      assert a == 2 * (a / 2) + a % 2;
      assert 2 * (q * p) == q * (2 * p);
    }
    DivModUnique(a, 2 * p, q, 2 * r + a % 2);
    DivModUnique(2 * r + a % 2, 2, r, a % 2);
  }

  /** `i` whole strides of `w` followed by one more stride stay within `n` strides. */
  lemma StrideWithin(i: nat, n: nat, w: nat)
    requires i < n
    ensures i * w + w <= n * w
  {
    assert n * w - i * w == (n - i) * w;
    if w > 0 {
      MulAtLeast(n - i, w);
    }
  }
}
