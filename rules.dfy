/** The rules of Sudoku stated directly on grids of integers, independently
    of the constraint model that encodes them, together with the integer
    square root that stands for the source's `int(sqrt(n))`. */
module Rules {

  /** Whether `r` is the floor of the square root of `n`. */
  predicate IsFloorSqrt(n: nat, r: nat)
  {
    r * r <= n < (r + 1) * (r + 1)
  }

  function SqrtFrom(n: nat, r: nat): (s: nat)
    requires r * r <= n
    ensures IsFloorSqrt(n, s)
    decreases n - r
  {
    if (r + 1) * (r + 1) > n then r
    else
      assert r + 1 <= (r + 1) * (r + 1);
      SqrtFrom(n, r + 1)
  }

  /** `int(sqrt(n))` on a natural number, computed exactly. */
  function IntSqrt(n: nat): (r: nat)
    ensures IsFloorSqrt(n, r)
  {
    SqrtFrom(n, 0)
  }

  lemma SquareMonotone(a: nat, b: nat)
    requires a <= b
    ensures a * a <= b * b
  {
  }

  /** The floor square root is unique: whenever `k * k == n`, the perfect
      square test `IntSqrt(n) * IntSqrt(n) == n` finds exactly `k`. */
  lemma SqrtOfSquare(n: nat, k: nat)
    requires k * k == n
    ensures IntSqrt(n) == k
  {
    var r := IntSqrt(n);
    if r < k {
      SquareMonotone(r + 1, k);
    } else if r > k {
      SquareMonotone(k + 1, r);
    }
  }

  /** The perfect square test of sudoku_solver.py:26-27 and :161-162. */
  predicate IsPerfectSquare(n: nat)
  {
    IntSqrt(n) * IntSqrt(n) == n
  }

  predicate IsGrid(g: seq<seq<int>>, n: nat)
  {
    |g| == n && forall r :: 0 <= r < n ==> |g[r]| == n
  }

  /** A validated puzzle: an n x n grid with n = m * m and every cell in
      [0, n], where 0 is an empty cell. */
  predicate Puzzle(g: seq<seq<int>>, n: nat, m: nat)
  {
    IsGrid(g, n) && m * m == n &&
    forall r, c :: 0 <= r < n && 0 <= c < n ==> 0 <= g[r][c] <= n
  }

  /** Cells (r1, c1) and (r2, c2) lie in the same m x m box. */
  predicate SameBox(r1: int, c1: int, r2: int, c2: int, m: nat)
  {
    m > 0 && r1 / m == r2 / m && c1 / m == c2 / m
  }

  /** A complete, valid Sudoku: every cell holds one of 1..n and no value
      repeats within a row, a column or a box. */
  ghost predicate IsSolution(sol: seq<seq<int>>, n: nat, m: nat)
  {
    IsGrid(sol, n) &&
    (forall r, c :: 0 <= r < n && 0 <= c < n ==> 1 <= sol[r][c] <= n) &&
    (forall r, c1, c2 :: 0 <= r < n && 0 <= c1 < c2 < n ==> sol[r][c1] != sol[r][c2]) &&
    (forall c, r1, r2 :: 0 <= c < n && 0 <= r1 < r2 < n ==> sol[r1][c] != sol[r2][c]) &&
    (forall r1, c1, r2, c2 ::
       0 <= r1 < n && 0 <= c1 < n && 0 <= r2 < n && 0 <= c2 < n &&
       (r1 != r2 || c1 != c2) && SameBox(r1, c1, r2, c2, m)
       ==> sol[r1][c1] != sol[r2][c2])
  }

  /** Every nonzero clue of the puzzle is kept. */
  ghost predicate AgreesWithClues(sol: seq<seq<int>>, g: seq<seq<int>>, n: nat)
    requires IsGrid(sol, n) && IsGrid(g, n)
  {
    forall r, c :: 0 <= r < n && 0 <= c < n && g[r][c] != 0 ==> sol[r][c] == g[r][c]
  }

  /** The Sudoku X rule: no value repeats on the main diagonal (r == c) or
      on the anti-diagonal (r + c == n - 1). */
  ghost predicate DiagonalsDistinct(sol: seq<seq<int>>, n: nat)
    requires IsGrid(sol, n)
  {
    (forall i, j :: 0 <= i < j < n ==> sol[i][i] != sol[j][j]) &&
    (forall i, j :: 0 <= i < j < n ==> sol[i][n - 1 - i] != sol[j][n - 1 - j])
  }
}
