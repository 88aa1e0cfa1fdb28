/** The integer operators the calendar code is written with. */
module Arithmetic {

  /** `int(a / b)`: the quotient rounded toward zero, where Dafny's own `/` rounds down for b > 0. */
  function Div(a: int, b: int): int
    requires b > 0
  {
    if a >= 0 then a / b else -(-a / b)
  }

  /** The remainder that goes with `Div`; it has the sign of a. */
  function Mod(a: int, b: int): int
    requires b > 0
  {
    a - Div(a, b) * b
  }

  /** Quotient and remainder are the only ones there are. */
  lemma QuotientIs(n: int, k: int, q: int, r: int)
    requires k > 0 && n == k * q + r && 0 <= r < k
    ensures n / k == q && n % k == r
  {
    var d := n / k - q;
    assert k * d == r - n % k by {
      assert n == k * (n / k) + n % k;
      assert k * d == k * (n / k) - k * q;
    }
    MultipleIsLarge(k, d);
  }

  lemma MultipleIsLarge(k: int, d: int)
    requires k > 0
    ensures d >= 1 ==> k * d >= k
    ensures d <= -1 ==> k * d <= -k
  {
    if d >= 1 {
      assert k * d == k + k * (d - 1);
    } else if d <= -1 {
      assert k * d == -k + k * (d + 1);
    }
  }
}
