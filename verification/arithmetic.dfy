/** Facts about products and quotients. */
module Arithmetic {

  type Positive = n: int | n > 0 witness 1

  lemma MulAtLeast(n: int, d: Positive)
    requires n >= 1
    ensures n * d >= d
  {
    assert (n - 1) * d >= 0;
  }

  lemma MulGrows(k: nat, a: int, b: int)
    requires a <= b
    ensures k * a <= k * b
  {
    assert k * (b - a) >= 0;
  }

  lemma DivUnique(n: int, q: int, r: int, d: Positive)
    requires n == q * d + r && 0 <= r < d
    ensures n / d == q
  {
    var q' := n / d;
    assert (q - q') * d == n % d - r;
    if q > q' { MulAtLeast(q - q', d); }
    if q < q' { MulAtLeast(q' - q, d); }
  }

  lemma DivAdds(a: int, b: int, d: Positive)
    ensures a / d + b / d <= (a + b) / d <= a / d + b / d + 1
  {
    var r := a % d + b % d;
    assert a + b == (a / d + b / d) * d + r;
    DivUnique(a + b, a / d + b / d + (if r < d then 0 else 1), if r < d then r else r - d, d);
  }

  lemma DivGrows(a: int, b: int, d: Positive)
    requires a <= b
    ensures a / d <= b / d
  {
    DivAdds(a, b - a, d);
  }

  lemma DivExact(n: int, d: Positive)
    ensures (n * d) / d == n
  {
    DivUnique(n * d, n, 0, d);
  }

  /** n units fit into `elapsed`. */
  lemma DivAtLeast(n: int, elapsed: int, d: Positive)
    requires n * d <= elapsed
    ensures n <= elapsed / d
  {
    DivExact(n, d);
    DivGrows(n * d, elapsed, d);
  }
}
