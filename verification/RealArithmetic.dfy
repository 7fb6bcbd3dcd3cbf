/** Multiples and remainders of real durations. */
module RealArithmetic {

  /** `n` times `m`, by repeated addition. */
  function Multiple(n: nat, m: real): real {
    if n == 0 then 0.0 else Multiple(n - 1, m) + m
  }

  lemma PlusOneTimes(a: real, m: real)
    ensures (a + 1.0) * m == a * m + m
  {
  }

  lemma {:induction false} MultipleIsProduct(n: nat, m: real)
    ensures Multiple(n, m) == n as real * m
  {
    if n > 0 {
      MultipleIsProduct(n - 1, m);
      PlusOneTimes((n - 1) as real, m);
    }
  }

  /** `x % m` for floats with m > 0: the result is in [0, m). */
  function RealMod(x: real, m: real): real
    requires m > 0.0
  {
    x - m * (x / m).Floor as real
  }

  /** A remainder in [0, m) comes from a fraction in [0, 1). */
  lemma QuotientBounds(f: real, m: real, r: real)
    requires m > 0.0 && f * m == r && 0.0 <= r < m
    ensures 0.0 <= f < 1.0
  {
  }

  lemma FractionOf(f: real, m: real, r: real)
    requires m > 0.0 && 0.0 <= f < 1.0 && r == f * m
    ensures 0.0 <= r < m
  {
  }

  lemma QuotientTimes(x: real, m: real)
    requires m > 0.0
    ensures (x / m) * m == x
  {
  }

  lemma MinusTimes(a: real, b: real, m: real, r: real)
    requires a * m - m * b == r
    ensures (a - b) * m == r
  {
  }

  lemma FloorIs(q: real, k: int)
    requires 0.0 <= q - k as real < 1.0
    ensures q.Floor == k
  {
  }

  /** The decomposition of `x` into a whole multiple of `m` and a remainder is unique. */
  lemma ModUnique(x: real, m: real, k: int, r: real)
    requires m > 0.0 && 0.0 <= r < m && x == k as real * m + r
    ensures RealMod(x, m) == r && (x / m).Floor == k
  {
    var q := x / m;
    QuotientTimes(x, m);
    MinusTimes(q, k as real, m, r);
    QuotientBounds(q - k as real, m, r);
    FloorIs(q, k);
  }

  lemma MultipleUnique(x: real, m: real, n: nat, r: real)
    requires m > 0.0 && 0.0 <= r < m && x == Multiple(n, m) + r
    ensures RealMod(x, m) == r && (x / m).Floor == n
  {
    MultipleIsProduct(n, m);
    ModUnique(x, m, n, r);
  }

  lemma ModInRange(x: real, m: real)
    requires m > 0.0
    ensures 0.0 <= RealMod(x, m) < m
  {
    var q := x / m;
    var k := q.Floor as real;
    QuotientTimes(x, m);
    MinusTimes(q, k, m, RealMod(x, m));
    FractionOf(q - k, m, RealMod(x, m));
  }
}
