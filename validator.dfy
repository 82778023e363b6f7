/** `validate_sudoku_input` (sudoku_solver.py:11-39): the shape and value
    checks run before any model is built. Each raised `ValueError` (and the
    `IndexError` of an empty grid) is a `Failure` naming the check that
    failed; row and column indices are 0-based. */
module Validator {
  import opened Wrappers
  import opened Codec
  import opened Rules

  datatype ValidationError =
    | EmptyGrid                                  // `input_sudoku[0]` of an empty list
    | NotRectangular(row: nat)                   // a row differs from the first row's length
    | NotSquare(rows: nat, cols: nat)
    | NotPerfectSquare(size: nat)
    | BadSymbol(row: nat, col: nat)              // `convert_to_numeric` raised
    | OutOfRange(row: nat, col: nat, value: int) // decoded value outside [0, n]

  /** `(n_rows, n_cols, m)`. */
  datatype Dims = Dims(rows: nat, cols: nat, box: nat)

  /** A cell decodes to a value in [0, n], inclusive of n. */
  predicate CellOk(t: Token, n: nat)
  {
    Decode(t).Some? && 0 <= Decode(t).value <= n
  }

  /** Every row has the first row's length. */
  ghost predicate Rectangular(g: seq<seq<Token>>)
    requires |g| > 0
  {
    forall i :: 0 <= i < |g| ==> |g[i]| == |g[0]|
  }

  /** Every cell before (row, col) in row-major order passes the value check. */
  ghost predicate CellsOkBefore(g: seq<seq<Token>>, n: nat, row: nat, col: nat)
  {
    forall r, c :: 0 <= r < |g| && 0 <= c < |g[r]| && (r < row || (r == row && c < col)) ==> CellOk(g[r][c], n)
  }

  /** What the validator accepts: a nonempty square grid whose size is a
      perfect square and whose cells all decode into [0, n]. */
  ghost predicate ValidInput(g: seq<seq<Token>>)
  {
    |g| > 0 && Rectangular(g) && |g| == |g[0]| && IsPerfectSquare(|g|) &&
    forall r, c :: 0 <= r < |g| && 0 <= c < |g[r]| ==> CellOk(g[r][c], |g|)
  }

  /** The checks run in order (shape, squareness, perfect square, values in
      row-major order) and the first that fails decides the error. */
  method ValidateSudokuInput(g: seq<seq<Token>>) returns (r: Result<Dims, ValidationError>)
    ensures r.Success? <==> ValidInput(g)
    ensures r.Success? ==> r.value == Dims(|g|, |g|, IntSqrt(|g|)) && r.value.box * r.value.box == |g|
    ensures r == Failure(EmptyGrid) <==> |g| == 0
    ensures r.Failure? && r.error.NotRectangular? ==>
              |g| > 0 && r.error.row < |g| && |g[r.error.row]| != |g[0]| &&
              forall i :: 0 <= i < r.error.row ==> |g[i]| == |g[0]|
    ensures |g| > 0 && !Rectangular(g) ==> r.Failure? && r.error.NotRectangular?
    ensures r.Failure? && r.error.NotSquare? <==>
              |g| > 0 && Rectangular(g) && |g| != |g[0]|
    ensures r.Failure? && r.error.NotSquare? ==> r.error == NotSquare(|g|, |g[0]|)
    ensures r.Failure? && r.error.NotPerfectSquare? <==>
              |g| > 0 && Rectangular(g) && |g| == |g[0]| && !IsPerfectSquare(|g|)
    ensures r.Failure? && r.error.NotPerfectSquare? ==> r.error == NotPerfectSquare(|g|)
    ensures r.Failure? && (r.error.BadSymbol? || r.error.OutOfRange?) ==>
              |g| > 0 && Rectangular(g) && |g| == |g[0]| && IsPerfectSquare(|g|) &&
              r.error.row < |g| && r.error.col < |g| &&
              !CellOk(g[r.error.row][r.error.col], |g|) &&
              CellsOkBefore(g, |g|, r.error.row, r.error.col)
    ensures r.Failure? && r.error.BadSymbol? ==> Decode(g[r.error.row][r.error.col]).None?
    ensures r.Failure? && r.error.OutOfRange? ==> Decode(g[r.error.row][r.error.col]) == Some(r.error.value)
  {
    if |g| == 0 {
      return Failure(EmptyGrid);
    }
    var nRows := |g|;
    var nCols := |g[0]|;
    for i := 0 to nRows
      invariant forall j :: 0 <= j < i ==> |g[j]| == nCols
    {
      if |g[i]| != nCols {
        return Failure(NotRectangular(i));
      }
    }
    if nRows != nCols {
      return Failure(NotSquare(nRows, nCols));
    }
    var m := IntSqrt(nRows);
    if m * m != nRows {
      return Failure(NotPerfectSquare(nRows));
    }
    for row := 0 to nRows
      invariant CellsOkBefore(g, nRows, row, 0)
    {
      for col := 0 to nCols
        invariant CellsOkBefore(g, nRows, row, col)
      {
        match Decode(g[row][col])
        case None =>
          return Failure(BadSymbol(row, col));
        case Some(value) =>
          if !(0 <= value <= nRows) {
            return Failure(OutOfRange(row, col, value));
          }
      }
    }
    return Success(Dims(nRows, nCols, m));
  }

  /** An integer grid, as the batch reader produces, viewed as tokens. */
  function IntGrid(g: seq<seq<int>>): (t: seq<seq<Token>>)
    ensures |t| == |g| && forall r :: 0 <= r < |g| ==> |t[r]| == |g[r]|
  {
    seq(|g|, r requires 0 <= r < |g| => seq(|g[r]|, c requires 0 <= c < |g[r]| => IntTok(g[r][c])))
  }

  /** An integer grid passes validation exactly when it is a puzzle the
      constraint builder accepts, with box size `IntSqrt(n)`. */
  lemma ValidIntGrid(g: seq<seq<int>>)
    ensures ValidInput(IntGrid(g)) <==> |g| > 0 && Puzzle(g, |g|, IntSqrt(|g|))
  {
    var t := IntGrid(g);
    var n := |g|;
    if ValidInput(t) {
      forall r | 0 <= r < n ensures |g[r]| == n {
        assert |t[r]| == |t[0]|;
      }
      forall r, c | 0 <= r < n && 0 <= c < n ensures 0 <= g[r][c] <= n {
        assert CellOk(t[r][c], n);
      }
    }
    if n > 0 && Puzzle(g, n, IntSqrt(n)) {
      forall r, c | 0 <= r < n && 0 <= c < |t[r]| ensures CellOk(t[r][c], n) {
        assert t[r][c] == IntTok(g[r][c]);
      }
    }
  }
}
