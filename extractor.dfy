/** `extract_solution` (sudoku_solver.py:105-113): decoding the solver's 0/1
    assignment into an n x n grid of symbols. */
module Extractor {
  import opened Codec
  import opened Constraints

  /** The value the extractor leaves in cell (row, col) after scanning the
      values 1..k in ascending order: the largest set one, or 0 if none is
      set. */
  function LastSet(cube: Cube, row: int, col: int, k: nat): (v: nat)
    ensures v <= k
    ensures v > 0 ==> cube(Var(row, col, v))
    ensures forall w :: v < w <= k ==> !cube(Var(row, col, w))
  {
    if k == 0 then 0
    else if cube(Var(row, col, k)) then k
    else LastSet(cube, row, col, k - 1)
  }

  /** The integer grid the extractor produces before encoding. */
  function DecodeCube(cube: Cube, n: nat): (sol: seq<seq<int>>)
    ensures |sol| == n && forall r :: 0 <= r < n ==> |sol[r]| == n
  {
    seq(n, row => seq(n, col => LastSet(cube, row, col, n) as int))
  }

  /** A cell with exactly one set variable decodes to that variable's
      value; a cell with none set decodes to 0. */
  lemma DecodeCell(cube: Cube, n: nat, row: nat, col: nat)
    requires row < n && col < n
    ensures forall v :: 1 <= v <= n && cube(Var(row, col, v)) &&
                        (forall w :: 1 <= w <= n && w != v ==> !cube(Var(row, col, w)))
                        ==> DecodeCube(cube, n)[row][col] == v
    ensures (forall w :: 1 <= w <= n ==> !cube(Var(row, col, w))) ==> DecodeCube(cube, n)[row][col] == 0
  {
  }

  /** Writing a cell twice leaves only the second write. */
  lemma OverwriteCell<T>(g: seq<seq<T>>, row: nat, col: nat, x: T, y: T)
    requires row < |g| && col < |g[row]|
    ensures g[row := g[row][col := x]][row := g[row := g[row][col := x]][row][col := y]] == g[row := g[row][col := y]]
  {
    assert g[row][col := x][col := y] == g[row][col := y];
  }

  /** Row `row` of the symbol grid `extract_solution` returns. */
  function SymbolRow(cube: Cube, n: nat, row: int): (symbols: seq<Token>)
    requires n <= MaxEncodable
    ensures |symbols| == n && forall c :: 0 <= c < n ==> symbols[c] == Encode(LastSet(cube, row, c, n))
  {
    seq(n, c => Encode(LastSet(cube, row, c, n)))
  }

  /** The triple loop of `extract_solution`: `solution` starts as an n x n
      grid of 0s and cell (row, col) is overwritten with the symbol of every
      value whose variable is set, in ascending order. */
  method ExtractSolution(cube: Cube, n: nat) returns (solution: seq<seq<Token>>)
    requires n <= MaxEncodable
    ensures |solution| == n && forall r :: 0 <= r < n ==> |solution[r]| == n
    ensures forall r, c :: 0 <= r < n && 0 <= c < n ==> solution[r][c] == Encode(DecodeCube(cube, n)[r][c])
  {
    var zeros := seq(n, _ => IntTok(0));
    solution := seq(n, _ => zeros);
    for row := 0 to n
      invariant |solution| == n
      invariant forall r :: 0 <= r < row ==> solution[r] == SymbolRow(cube, n, r)
      invariant forall r :: row <= r < n ==> solution[r] == zeros
    {
      ghost var outer := solution;
      for col := 0 to n
        invariant |solution| == n && |solution[row]| == n
        invariant forall r :: 0 <= r < n && r != row ==> solution[r] == outer[r]
        invariant forall c :: 0 <= c < col ==> solution[row][c] == Encode(LastSet(cube, row, c, n))
        invariant forall c :: col <= c < n ==> solution[row][c] == IntTok(0)
      {
        ghost var before := solution;
        assert before[row][col := Encode(LastSet(cube, row, col, 0))] == before[row];
        assert before[row := before[row]] == before;
        for value := 1 to n + 1
          invariant solution == before[row := before[row][col := Encode(LastSet(cube, row, col, value - 1))]]
        {
          if cube(Var(row, col, value)) {
            OverwriteCell(before, row, col, Encode(LastSet(cube, row, col, value - 1)), Encode(value));
            solution := solution[row := solution[row][col := Encode(value)]];
          }
        }
      }
      assert solution[row] == SymbolRow(cube, n, row);
    }
  }
}
