/** One solve cycle end to end, with the external solver as an arbitrary
    assignment: whatever assignment satisfies the model built for a puzzle,
    the grid `extract_solution` prints for it is a solution of that puzzle,
    and the printed rows read back to it. */
module Pipeline {
  import opened Wrappers
  import opened Codec
  import opened Text
  import opened Rules
  import opened Constraints
  import opened Extractor
  import opened Exactness
  import opened Reader
  import opened Writer
  import opened WriterFacts
  import opened Formats

  /** For a puzzle of side at most 35 (so that every value has a one-
      character symbol) and any assignment satisfying its model: the
      decoded grid is a solution that keeps the clues (and the diagonals
      when asked), each printed row is a row the reader accepts and
      decodes back to the solution's row, and the printed block has the
      heading, the `n` rows and the separator. */
  lemma PrintedSolutionReadsBack(cube: Cube, g: seq<seq<int>>, n: nat, m: nat, diagonal: bool, i: nat)
    requires Puzzle(g, n, m) && 0 < n <= 35
    requires Satisfies(cube, Model(n, m, g, diagonal))
    ensures var sol := DecodeCube(cube, n);
            IsSolution(sol, n, m) && AgreesWithClues(sol, g, n) &&
            (diagonal ==> DiagonalsDistinct(sol, n)) &&
            (forall r :: 0 <= r < n ==> Symbols(sol[r])) &&
            |BlockLines(i, Some(EncodeGrid(sol)))| == n + 2 &&
            forall r :: 0 <= r < n ==>
              RowOk(Split(RowText(EncodeGrid(sol)[r])), n) &&
              DecodeTokens(Split(RowText(EncodeGrid(sol)[r]))) == Some(sol[r])
  {
    ModelExact(cube, g, n, m, diagonal);
    GridReadsBack(DecodeCube(cube, n), n);
  }

  /** What `extract_solution` returns for a side of at most 35 is exactly
      the encoded decoded grid, so the lemma above applies to it. */
  lemma ExtractedIsEncoded(cube: Cube, n: nat, solution: seq<seq<Token>>)
    requires n <= 35
    requires |solution| == n && forall r :: 0 <= r < n ==> |solution[r]| == n
    requires forall r, c :: 0 <= r < n && 0 <= c < n ==> solution[r][c] == Encode(DecodeCube(cube, n)[r][c])
    ensures (forall r :: 0 <= r < n ==> Symbols(DecodeCube(cube, n)[r])) &&
            solution == EncodeGrid(DecodeCube(cube, n))
  {
    var sol := DecodeCube(cube, n);
    forall r | 0 <= r < n
      ensures Symbols(sol[r]) && solution[r] == EncodeRow(sol[r])
    {
    }
  }

  /** A puzzle that is already a complete solution is the only grid its
      model admits: every assignment satisfying the model decodes to the
      puzzle itself. */
  lemma SolvedPuzzleIsFixed(cube: Cube, g: seq<seq<int>>, n: nat, m: nat, diagonal: bool)
    requires Puzzle(g, n, m) && IsSolution(g, n, m)
    requires Satisfies(cube, Model(n, m, g, diagonal))
    ensures DecodeCube(cube, n) == g
  {
    ModelExact(cube, g, n, m, diagonal);
    var sol := DecodeCube(cube, n);
    forall r | 0 <= r < n
      ensures sol[r] == g[r]
    {
      assert forall c :: 0 <= c < n ==> g[r][c] != 0;
    }
  }

  /** What `solver` returns for a puzzle that is already solved (side at
      most 35) is that puzzle in the encoder's symbols: values up to 9
      come back as the same integers, values above 9 as letters. */
  lemma SolvedPuzzleComesBackEncoded(cube: Cube, g: seq<seq<int>>, n: nat, m: nat, diagonal: bool,
                                     solution: seq<seq<Token>>)
    requires Puzzle(g, n, m) && IsSolution(g, n, m) && n <= 35
    requires Satisfies(cube, Model(n, m, g, diagonal))
    requires |solution| == n && forall r :: 0 <= r < n ==> |solution[r]| == n
    requires forall r, c :: 0 <= r < n && 0 <= c < n ==> solution[r][c] == Encode(DecodeCube(cube, n)[r][c])
    ensures (forall r :: 0 <= r < n ==> Symbols(g[r])) && solution == EncodeGrid(g)
    ensures forall r, c :: 0 <= r < n && 0 <= c < n && g[r][c] <= 9 ==> solution[r][c] == IntTok(g[r][c])
  {
    SolvedPuzzleIsFixed(cube, g, n, m, diagonal);
    ExtractedIsEncoded(cube, n, solution);
  }

  /** Two equal clues in one row make the model infeasible: no assignment
      satisfies it, so the solver can only report that there is no
      solution. */
  lemma RepeatedClueInfeasible(cube: Cube, g: seq<seq<int>>, n: nat, m: nat, diagonal: bool,
                               r: nat, c1: nat, c2: nat)
    requires Puzzle(g, n, m)
    requires r < n && c1 < c2 < n && g[r][c1] == g[r][c2] != 0
    ensures !Satisfies(cube, Model(n, m, g, diagonal))
  {
    ModelExact(cube, g, n, m, diagonal);
  }
}
