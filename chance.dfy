/** The game's randomness. Every call of Math.random() in the game is one draw
    taken from an injected stream; a draw u stands for the fraction u / Scale
    in [0, 1), the multiples of 2^-53 that Math.random() returns. Arithmetic on
    the fraction is exact (no floating-point rounding). */
module Chance {

  /** 2^53: Math.random() returns multiples of 2^-53 in [0, 1). */
  const Scale: int := 0x20_0000_0000_0000

  type Draw = u: int | 0 <= u < Scale

  /** Math.floor(f * n) for a fraction f = u / s in [0, 1) lies in [0, n). */
  lemma FloorScaled(u: int, n: int, s: int)
    requires 0 <= u < s
    ensures 1 <= n ==> 0 <= u * n / s < n
  {
    if 1 <= n {
      var q := u * n / s;
      assert 0 <= u * n by { MulNonNegative(u, n); }
      assert u * n < s * n by { MulStrict(u, s, n); }
      assert q * s <= u * n;
      if q >= n {
        assert q * s >= n * s by { MulMono(n, q, s); }
      }
    }
  }

  lemma MulNonNegative(a: int, b: int)
    requires 0 <= a && 0 <= b
    ensures 0 <= a * b
  {}

  lemma MulStrict(a: int, b: int, n: int)
    requires a < b && 1 <= n
    ensures a * n < b * n
  {
    assert b * n - a * n == (b - a) * n;
    MulNonNegative(b - a - 1, n);
  }

  lemma MulMono(a: int, b: int, s: int)
    requires a <= b && 0 <= s
    ensures a * s <= b * s
  {
    assert b * s - a * s == (b - a) * s;
    MulNonNegative(b - a, s);
  }

  /** random(min, max): Math.floor(Math.random() * (max - min + 1)) + min.
      Dafny's `/` by a positive divisor rounds down, as Math.floor does. */
  function Random(min: int, max: int, u: Draw): (r: int)
    ensures min <= max ==> min <= r <= max
  {
    FloorScaled(u, max - min + 1, Scale);
    u * (max - min + 1) / Scale + min
  }

  /** Every value of a range is drawn by some draw: the injected stream loses
      no outcome of random(min, max). */
  lemma RandomReaches(min: int, max: int, r: int)
    requires min <= r <= max && max - min + 1 <= Scale
    ensures exists u: Draw :: Random(min, max, u) == r
  {
    var n, k := max - min + 1, r - min;
    var d := k * Scale + n - 1;
    var u := d / n;
    assert u * n <= d < u * n + n;
    assert k * Scale <= u * n <= k * Scale + n - 1;
    assert 0 <= u by { MulNonNegative(k, Scale); }
    assert u < Scale by {
      MulMono(k, n - 1, Scale);
      if u >= Scale { MulMono(Scale, u, n); }
    }
    var q := u * n / Scale;
    assert q * Scale <= u * n < q * Scale + Scale;
    assert q == k by {
      if q < k { MulMono(q + 1, k, Scale); }
      if q > k { MulMono(k + 1, q, Scale); }
    }
    assert Random(min, max, u) == r;
  }

  /** Math.random() < 0.5 */
  predicate Heads(u: Draw) {
    2 * u < Scale
  }

  /** Math.random() < 0.3 */
  predicate Below30(u: Draw) {
    10 * u < 3 * Scale
  }
}
