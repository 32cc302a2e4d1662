/** The scalar numerics of the height-map code: `std::ceil`, the C++ cast `int(...)`
    (truncation toward zero) and `std::min_element` / `std::max_element` over coordinates. */
module Numerics {

  /** `std::ceil` on a real: the least integer not below `x`. */
  function Ceil(x: real): (r: int)
    ensures r as real - 1.0 < x <= r as real
  {
    -((-x).Floor)
  }

  /** The C++ conversion `int(x)`, which truncates toward zero (it is NOT a floor). */
  function Trunc(x: real): (r: int)
    ensures 0.0 <= x ==> r as real <= x < r as real + 1.0
    ensures x < 0.0 ==> r as real - 1.0 < x <= r as real
    ensures 0 <= r <==> -1.0 < x
  {
    if x < 0.0 then -((-x).Floor) else x.Floor
  }

  /** Which reals truncate to an index in `[0, n)`: exactly those in `(-1, n)`, provided `n > 0`. */
  lemma TruncInRange(t: real, n: int)
    ensures 0 <= Trunc(t) < n <==> 0 < n && -1.0 < t < n as real
  {
  }

  /** Multiplying by a positive factor preserves a strict order. */
  lemma MulStrict(a: real, b: real, c: real)
    requires 0.0 < c && a < b
    ensures a * c < b * c
  {
    assert (b - a) * c > 0.0;
  }

  /** Multiplying by a positive factor preserves a weak order. */
  lemma MulMono(a: real, b: real, c: real)
    requires 0.0 < c && a <= b
    ensures a * c <= b * c
  {
  }

  /** Dividing by a positive `c` and comparing with `n` is comparing with `n * c`. */
  lemma DivCompare(d: real, c: real, n: real)
    requires 0.0 < c
    ensures d / c < n <==> d < n * c
    ensures d / c <= n <==> d <= n * c
  {
    assert d / c * c == d;
    if d / c < n { MulStrict(d / c, n, c); }
    if d < n * c && d / c >= n { MulMono(n, d / c, c); }
    if d / c <= n { MulMono(d / c, n, c); }
    if d <= n * c && d / c > n { MulStrict(n, d / c, c); }
  }

  /** The smallest element of a non-empty sequence (`std::min_element`). */
  function MinOf(xs: seq<real>): (m: real)
    requires |xs| > 0
    ensures forall i :: 0 <= i < |xs| ==> m <= xs[i]
    ensures exists i :: 0 <= i < |xs| && xs[i] == m
  {
    if |xs| == 1 then xs[0]
    else
      var rest := MinOf(xs[1..]);
      assert forall i :: 1 <= i < |xs| ==> xs[i] == xs[1..][i - 1];
      if xs[0] <= rest then xs[0] else rest
  }

  /** The largest element of a non-empty sequence (`std::max_element`). */
  function MaxOf(xs: seq<real>): (m: real)
    requires |xs| > 0
    ensures forall i :: 0 <= i < |xs| ==> xs[i] <= m
    ensures exists i :: 0 <= i < |xs| && xs[i] == m
  {
    if |xs| == 1 then xs[0]
    else
      var rest := MaxOf(xs[1..]);
      assert forall i :: 1 <= i < |xs| ==> xs[i] == xs[1..][i - 1];
      if rest <= xs[0] then xs[0] else rest
  }

  /** The row-major index `y * cols` of the first cell of row `y`, built by repeated addition
      so that index arithmetic stays linear. */
  function RowStart(cols: nat, y: nat): nat
  {
    if y == 0 then 0 else RowStart(cols, y - 1) + cols
  }

  /** `RowStart` is the product `y * cols`. */
  lemma {:induction false} RowStartProduct(cols: nat, y: nat)
    ensures RowStart(cols, y) == y * cols
  {
    if y > 0 {
      RowStartProduct(cols, y - 1);
      assert (y - 1) * cols + cols == y * cols;
    }
  }

  /** Every cell of an earlier row has a smaller row-major index than the start of row `y`. */
  lemma {:induction false} RowStartBelow(cols: nat, yi: nat, xi: nat, y: nat)
    requires yi < y && xi < cols
    ensures RowStart(cols, yi) + xi < RowStart(cols, y)
  {
    if yi < y - 1 {
      RowStartBelow(cols, yi, xi, y - 1);
    }
  }

  /** The row-major index determines the cell: it is injective on `[0, cols)` columns. */
  lemma RowStartInjective(cols: nat, y1: nat, x1: nat, y2: nat, x2: nat)
    requires x1 < cols && x2 < cols
    requires RowStart(cols, y1) + x1 == RowStart(cols, y2) + x2
    ensures y1 == y2 && x1 == x2
  {
    if y1 < y2 {
      RowStartBelow(cols, y1, x1, y2);
    } else if y2 < y1 {
      RowStartBelow(cols, y2, x2, y1);
    }
  }
}
