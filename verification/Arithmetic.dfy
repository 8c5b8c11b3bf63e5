/** The few facts about products and quotients that the quantitative bounds rest on. */
module Arithmetic {

  lemma MulLe(a: int, b: int, c: int)
    requires a <= b && c >= 0
    ensures a * c <= b * c
  {
  }

  lemma MulLt(a: int, b: int, c: int)
    requires a < b && c > 0
    ensures a * c < b * c
  {
  }

  lemma MulNonNegative(a: int, b: int)
    requires a >= 0 && b >= 0
    ensures a * b >= 0
  {
  }

  /** `q` is at most `a / d` exactly when `q` whole `d`s fit into `a`. */
  lemma DivAtLeast(a: int, d: int, q: int)
    requires d > 0
    ensures q <= a / d <==> q * d <= a
  {
    var r := a / d;
    assert a == r * d + a % d;
    if q <= r {
      MulLe(q, r, d);
    } else {
      MulLe(r + 1, q, d);
      assert (r + 1) * d == r * d + d;
    }
  }

  lemma DivMono(a: int, b: int, d: int)
    requires a <= b && d > 0
    ensures a / d <= b / d
  {
    DivAtLeast(a, d, a / d);
    DivAtLeast(b, d, a / d);
  }
}
