/** The larger and the smaller of two numbers, and division facts the solver needs spelled out. */
module Arithmetic {
  function Max(a: int, b: int): int {
    if a < b then b else a
  }

  function Min(a: int, b: int): int {
    if a < b then a else b
  }

  lemma {:induction false} Quotient(n: int, unit: nat, q: int, r: nat)
    requires r < unit && n == q * unit + r
    ensures n / unit == q && n % unit == r
  {
    var d := n / unit - q;
    assert n == (n / unit) * unit + n % unit;
    assert d * unit == r - n % unit;
    assert d >= 1 ==> d * unit >= unit;
    assert d <= -1 ==> d * unit + unit <= 0;
  }
}
