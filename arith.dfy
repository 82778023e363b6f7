/** Facts about integer division by the box size m, used to show that the
    box index arithmetic `grid_row * m + row` of sudoku_solver.py stays in
    range and tiles the grid. */
module Arith {

  lemma MulMonotone(a: int, b: int, c: nat)
    requires a <= b
    ensures c * a <= c * b
  {
  }

  /** Division by m recovers quotient and remainder of `q * m + a`. */
  lemma DivModOf(q: int, m: int, a: int)
    requires m > 0 && 0 <= a < m
    ensures (q * m + a) / m == q && (q * m + a) % m == a
  {
    var x := q * m + a;
    var d := x / m - q;
    assert m * d == a - x % m;
    if d >= 1 {
      MulMonotone(1, d, m);
    } else if d <= -1 {
      MulMonotone(d, -1, m);
    }
  }

  /** An index below m * m splits into a row and a column below m. */
  lemma SplitIndex(k: int, m: int)
    requires m > 0 && 0 <= k < m * m
    ensures 0 <= k / m < m && 0 <= k % m < m
    ensures k == (k / m) * m + k % m
  {
    if k / m >= m {
      MulMonotone(m, k / m, m);
    }
  }

  /** Box `b` of size m covers `b * m .. b * m + m - 1`, all below m * m. */
  lemma BoxOffsetBound(b: int, a: int, m: int)
    requires 0 <= b < m && 0 <= a < m
    ensures 0 <= b * m + a < m * m
  {
    MulMonotone(b, m - 1, m);
  }
}
