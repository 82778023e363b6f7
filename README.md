# A verified model of `sudoku_solver.py`

`sudoku_solver.py` solves square Sudoku puzzles (4x4, 9x9, 16x16, ...) and
the "Sudoku X" variant by turning each puzzle into an exact-cover integer
linear program: one 0/1 variable per (row, column, value), and a list of
constraints that each say "exactly one of these variables is 1". An external
ILP solver (PuLP) finds an assignment, which is decoded back into a grid of
symbols. A batch driver reads puzzles from a text file and writes the
solutions to another.

This project models, in Dafny:

- the symbol codec: `convert_to_numeric` (letters to 10..35, everything
  else through `int`) and the encoder of `extract_solution` (values above 9
  become `chr(55 + v)`), with Python's `int`, `str`, `strip`, `split` and
  `' '.join` written out over strings (`Codec`, `Text`);
- `validate_sudoku_input`, as a method with the source's loops and early
  exits, whose result is characterised check by check (`Validator`);
- the constraint system of `setup_problem`, `create_sudoku_constraints` and
  `add_diagonal_sudoku_constraints`, as data (`Constraints`), its size and
  index bounds (`ConstraintFacts`), and a `Problem` class whose methods run
  the source's nested loops and append constraints (`Builder`);
- the solver's answer as an arbitrary assignment `Cube = Var -> bool`; the
  main theorem (`Exactness.ModelExact`) says an assignment satisfies every
  constraint exactly when each cell has one value set and the decoded grid
  is a complete Sudoku solution that keeps the clues (and both diagonals
  distinct when asked);
- `extract_solution`, as a triple loop filling the solution grid
  (`Extractor`);
- `read_sudokus_from_file`, as a parser over the file's lines with a line
  cursor, specified by prefix-state functions and implemented by loops
  (`Reader`, `ReaderFacts`);
- `write_sudoku_solutions_to_file`, as a loop appending blocks to an output
  file object (`Writer`, `WriterFacts`);
- the two text formats read back (`Formats`) and one solve cycle end to end
  (`Pipeline`).

`validate_sudoku_input` raises `ValueError` for every failed check (an
`IndexError` for an empty grid, and a `TypeError` from `ord` for an
alphabetic token of several letters). The model keeps the source's order of
checks and records which check failed in `ValidationError`; this is finer
than the source's single exception type but coarser than its messages.

## Model

| member | source | states |
|---|---|---|
| Codec.ParseInt | sudoku_solver.py:8 | on a string without surrounding whitespace, `int` accepts exactly an optional sign followed by at least one ASCII digit, and gives the signed decimal value |
| Codec.Decode | sudoku_solver.py:5-8 | an int passes through unchanged; a single ASCII letter decodes to a value in 10..35; any other string decodes as `int` parses it |
| Codec.DecodeLetter | sudoku_solver.py:6-7 | 'A' and 'a' decode to 10, ..., 'Z' and 'z' to 35, i.e. `ord(upper) - 55` |
| Codec.Encode | sudoku_solver.py:112 | values up to 9 stay ints; values 10..35 become one upper-case letter |
| Codec.NatToString | sudoku_solver.py:202 | `str` of a natural number is a digit string without leading zeros: one digit exactly below 10, and starting with 0 only for 0 |
| Codec.DigitsOfNatToString | sudoku_solver.py:202 | the digits `str` prints have the number's value |
| Codec.ParseIntOfNatToString | sudoku_solver.py:202 | `int(str(k)) == k` |
| Codec.RoundTrip | sudoku_solver.py:112 | decoding the encoder's symbol, or the text `str` prints for it, gives every value up to 35 back |
| Codec.EncodeBeyond35 | sudoku_solver.py:112 | past 35 the encoder leaves the alphabet: 36 prints '[' which does not decode, 42 prints 'a' which decodes as 10 |
| Text.Indent | sudoku_solver.py:154 | the run of whitespace `strip` removes at the front is maximal: every character before it is whitespace and the next one is not |
| Text.Trail | sudoku_solver.py:154 | the run of whitespace `strip` removes at the back is maximal: every character after it is whitespace and the one before is not |
| Text.Split | sudoku_solver.py:167 | `split()` yields only nonempty words without whitespace, and no words exactly when the text is all whitespace |
| Text.SplitAtSpace | sudoku_solver.py:167 | `split()` cuts at every whitespace character: the text before and after it are split separately (with `SplitWord` and the emptiness clause this fixes the words as the maximal non-whitespace runs, in order) |
| Text.Strip | sudoku_solver.py:154 | `strip` keeps exactly the text after the leading whitespace and before a whitespace suffix, and that text starts and ends with non-whitespace |
| Text.SplitJoin | sudoku_solver.py:202 | `split()` undoes `' '.join` on nonempty words without whitespace |
| Text.LinesUnlines | sudoku_solver.py:196-205 | text written as newline-terminated lines reads back as those lines |
| Rules.IntSqrt | sudoku_solver.py:26 | the integer square root is the floor of the square root |
| Rules.SqrtOfSquare | sudoku_solver.py:26-27 | the square-root check accepts n exactly when n = m * m, returning m |
| Counting.Pigeonhole | sudoku_solver.py:59-62 | n pairwise distinct values from 1..n contain every value of 1..n exactly once |
| Counting.ExactlyOnceIffDistinct | sudoku_solver.py:59-62 | n values from 1..n contain each value exactly once iff they are pairwise distinct |
| Validator.ValidateSudokuInput | sudoku_solver.py:11-39 | success iff rectangular, square, perfect-square size and every decoded cell in [0, n], returning (n, n, m) with m * m = n; each failure names the first check that fails, in the source's order, and the first offending row or cell |
| Validator.ValidIntGrid | sudoku_solver.py:11-39 | an integer grid passes validation iff it is nonempty, n x n, n a perfect square and every cell in [0, n] |
| Constraints.FlattenLength | sudoku_solver.py:59-62 | nested loops emit as many constraints as their blocks hold together |
| ConstraintFacts.ColFamilyMember | sudoku_solver.py:59-62 | the column family is exactly one constraint per (column, value) |
| ConstraintFacts.RowFamilyMember | sudoku_solver.py:65-68 | the row family is exactly one constraint per (row, value) |
| ConstraintFacts.CellFamilyMember | sudoku_solver.py:71-74 | the cell family is exactly one constraint per (row, column) |
| ConstraintFacts.BoxRowMember | sudoku_solver.py:78-83 | one band of boxes holds exactly one constraint per (box column, value) |
| ConstraintFacts.BoxFamilyMember | sudoku_solver.py:77-83 | the box family is exactly one constraint per (box row, box column, value) |
| ConstraintFacts.ClueFamilyMember | sudoku_solver.py:86-91 | the clue family is exactly one single-variable constraint per nonzero cell, on that cell's clue value |
| ConstraintFacts.DiagonalFamilyMember | sudoku_solver.py:94-102 | the diagonal family is one constraint per value on each of the two diagonals |
| ConstraintFacts.BoxUnitInRange | sudoku_solver.py:80-81 | every box cell `grid_row*m+row`, `grid_col*m+col` lies inside the grid |
| ConstraintFacts.ModelInRange | sudoku_solver.py:42-102 | every variable any constraint uses is one `setup_problem` declares, the anti-diagonal index `n-1-i` included |
| Constraints.ClueRowsLength | sudoku_solver.py:86-91 | the clue loops add one constraint per nonzero cell |
| Constraints.StructuralSize | sudoku_solver.py:59-83 | there are 4 * n * n column, row, cell and box constraints |
| Constraints.SudokuConstraints | sudoku_solver.py:57-91 | `create_sudoku_constraints` adds 4 * n * n constraints plus one per nonzero clue |
| Constraints.Model | sudoku_solver.py:57-102 | the model has 4 * n * n constraints, plus one per nonzero clue, plus 2n with the diagonal rule |
| ConstraintFacts.ConstraintWidths | sudoku_solver.py:59-102 | every structural constraint sums exactly n variables, every clue constraint one |
| ConstraintFacts.BoxCellAt | sudoku_solver.py:77-83 | each cell lies in the box of its row and column quotients by m |
| ConstraintFacts.BoxOfCell | sudoku_solver.py:77-83 | each cell of a box has that box's quotients |
| ConstraintFacts.BoxPartition | sudoku_solver.py:77-83 | a cell lies in a box iff the box is the one of its quotients: the m * m boxes partition the grid |
| Exactness.CountOneWitness | sudoku_solver.py:59-91 | an `lpSum == 1` constraint that holds has exactly one variable set |
| Exactness.CountOneOfWitness | sudoku_solver.py:59-91 | exactly one set variable makes an `lpSum == 1` constraint hold |
| Exactness.CountOne | sudoku_solver.py:59-91 | an `lpSum == 1` constraint holds iff exactly one of its variables is set |
| Exactness.CountCell | sudoku_solver.py:71-74 | on a grid's own assignment, a cell constraint counts one variable exactly when the cell holds a value in 1..n |
| Exactness.UnitExact | sudoku_solver.py:59-83 | on a grid's own assignment, a unit's constraints all hold iff the unit holds each value 1..n once |
| Exactness.CellsExact | sudoku_solver.py:71-74 | cell constraints hold on a grid's assignment iff every cell holds a value in 1..n |
| Exactness.ColumnsExact | sudoku_solver.py:59-62 | column constraints hold iff no column repeats a value |
| Exactness.RowsExact | sudoku_solver.py:65-68 | row constraints hold iff no row repeats a value |
| Exactness.BoxPairDistinct | sudoku_solver.py:77-83 | when every box unit holds distinct values, two distinct cells of one box hold different values |
| Exactness.BoxUnitDistinct | sudoku_solver.py:77-83 | when no box repeats a value, every box unit the loops list holds distinct values |
| Exactness.BoxesDistinctIff | sudoku_solver.py:77-83 | boxes listed by band are distinct iff no two cells with the same box quotients share a value |
| Exactness.BoxesExact | sudoku_solver.py:77-83 | box constraints hold iff no box repeats a value |
| Exactness.CluesExact | sudoku_solver.py:86-91 | clue constraints hold iff the grid keeps every nonzero clue |
| Exactness.DiagonalsExact | sudoku_solver.py:94-102 | the diagonal constraints hold iff neither diagonal repeats a value |
| Exactness.GridExact | sudoku_solver.py:57-102 | a grid's assignment satisfies the model iff the grid is a Sudoku solution keeping the clues (and diagonals distinct when asked) |
| Exactness.OneHotDecodes | sudoku_solver.py:105-113 | with one variable set per cell, the decoded grid's own assignment is the assignment itself |
| Exactness.CellsOneHot | sudoku_solver.py:71-74 | an assignment meets the cell constraints iff exactly one value is set per cell |
| Exactness.ModelExact | sudoku_solver.py:57-113 | any assignment satisfies the model iff one value is set per cell and the decoded grid is a solution keeping the clues (and diagonals distinct when asked) |
| Exactness.DecodeCubeOf | sudoku_solver.py:105-113 | decoding a solution's own assignment gives the solution back |
| Exactness.SolutionReachable | sudoku_solver.py:57-113 | every solution keeping the clues is the decoding of some satisfying assignment |
| Extractor.LastSet | sudoku_solver.py:109-112 | a cell decodes to the largest set value, or 0 when none is set |
| Extractor.DecodeCube | sudoku_solver.py:106 | the decoded grid is n x n |
| Extractor.DecodeCell | sudoku_solver.py:105-113 | a cell with exactly one set variable decodes to that value; with none it stays 0 |
| Extractor.ExtractSolution | sudoku_solver.py:105-113 | returns an n x n grid holding, in every cell, the symbol of the decoded value |
| Builder.Problem.constructor | sudoku_solver.py:42-54 | a fresh problem for side n has no constraints |
| Builder.Problem.AddConstraint | sudoku_solver.py:61 | `addConstraint` appends exactly that constraint |
| Builder.Problem.AddColumnBlock | sudoku_solver.py:60-62 | appends one column's constraints, value by value |
| Builder.Problem.AddColumnConstraints | sudoku_solver.py:59-62 | appends the column family in loop order |
| Builder.Problem.AddRowBlock | sudoku_solver.py:66-68 | appends one row's constraints, value by value |
| Builder.Problem.AddRowConstraints | sudoku_solver.py:65-68 | appends the row family in loop order |
| Builder.Problem.AddCellBlock | sudoku_solver.py:72-74 | appends the cell constraints of one row, column by column |
| Builder.Problem.AddCellConstraints | sudoku_solver.py:71-74 | appends the cell family in loop order |
| Builder.Problem.AddBoxRow | sudoku_solver.py:78-83 | appends the constraints of one band of boxes |
| Builder.Problem.AddBoxConstraints | sudoku_solver.py:77-83 | appends the box family in loop order |
| Builder.Problem.AddClueConstraints | sudoku_solver.py:86-91 | appends one constraint per nonzero clue, row by row |
| Builder.Problem.CreateSudokuConstraints | sudoku_solver.py:57-91 | appends column, row, cell, box and clue families, in that order |
| Builder.Problem.AddDiagonalSudokuConstraints | sudoku_solver.py:94-102 | appends the main-diagonal then the anti-diagonal constraints |
| Builder.BuildModel | sudoku_solver.py:116-129 | the problem built for a validated puzzle holds exactly the model's constraints |
| Reader.DecodeTokens | sudoku_solver.py:172 | a decoded row has one value per token |
| Reader.DecodeTokensIff | sudoku_solver.py:172 | a row decodes iff every token decodes, and then token by token |
| Reader.RowsLoop | sudoku_solver.py:166-177 | after k row iterations the loop holds k rows, or has failed with the cursor just after one of those k lines |
| Reader.ReadPuzzle | sudoku_solver.py:157-182 | one puzzle iteration always moves the cursor forward, and an accepted puzzle consumes its header, its rows and the separator line |
| Reader.Iterate | sudoku_solver.py:155-186 | after k puzzle iterations there are as many grids as flags, at most k |
| Reader.ReadSudokus | sudoku_solver.py:148-193 | `read_sudokus_from_file` returns as many grids as flags, none when the first line is not an integer and at most `num_sudokus` otherwise |
| Reader.LoopFailedStays | sudoku_solver.py:166-170 | once a row has failed, later iterations change nothing: the exception leaves the row loop |
| Reader.RowSucceeds | sudoku_solver.py:166-177 | a good row after good ones appends its decoded values to the rows read so far |
| Reader.RowFails | sudoku_solver.py:166-175 | a bad row after good ones ends the row loop with the cursor just after it |
| Reader.CheckRow | sudoku_solver.py:169-177 | the token-count check, the conversion and the range loop, in the source's order, yield exactly what one row iteration keeps |
| Reader.ReadRows | sudoku_solver.py:165-177 | the row loop yields the rows or the cursor after the first bad row |
| Reader.ReadOnePuzzle | sudoku_solver.py:157-182 | one iteration of the puzzle loop: outcome and cursor as the puzzle step defines |
| Reader.ReadPuzzles | sudoku_solver.py:155-186 | the puzzle loop collects the grids and flags of the accepted puzzles |
| Reader.ReadSudokusFromLines | sudoku_solver.py:148-193 | the reader returns what the prefix-state definition of the loop gives |
| ReaderFacts.RowsOkIff | sudoku_solver.py:166-177 | the rows are accepted iff every row has dim tokens that decode into [0, dim] |
| ReaderFacts.RowsOkRows | sudoku_solver.py:166-177 | accepted rows are the decoded token rows, in order |
| ReaderFacts.RowsFailedAt | sudoku_solver.py:166-186 | a failed row loop stops right after the first bad row, every earlier row being good |
| ReaderFacts.LoopOkIff | sudoku_solver.py:166-177 | the row loop succeeds iff every one of its iterations keeps its row |
| ReaderFacts.LoopRows | sudoku_solver.py:166-177 | a successful row loop holds one row per iteration, each the row that iteration kept |
| ReaderFacts.LoopAllOk | sudoku_solver.py:166-177 | when every iteration keeps a given row, the loop yields exactly those rows in order |
| ReaderFacts.LoopFailedAt | sudoku_solver.py:166-186 | a failed row loop stops right after the first iteration that keeps nothing, all earlier ones having kept their rows |
| ReaderFacts.AcceptedIff | sudoku_solver.py:157-177 | a puzzle is accepted iff its header parses to a perfect-square size and all its rows are good |
| ReaderFacts.HeaderAndRowsAccepted | sudoku_solver.py:157-182 | a header with a perfect-square size followed by good rows is accepted with those rows, its flag true iff the header flag is 1, and the cursor past the separator line |
| ReaderFacts.RowsWellFormed | sudoku_solver.py:166-177 | accepted rows form a dim x dim grid with values in [0, dim] |
| ReaderFacts.AcceptedPuzzle | sudoku_solver.py:157-182 | an accepted puzzle has the header's size, its flag is true iff the header flag is 1, and the cursor moves past the separator line |
| ReaderFacts.RejectedPuzzle | sudoku_solver.py:157-186 | a rejected puzzle consumes lines only up to the one that failed |
| ReaderFacts.IterateOfSteps | sudoku_solver.py:155-182 | when each iteration accepts a given puzzle and moves the cursor to where the next one starts, the loop collects exactly those puzzles and flags |
| ReaderFacts.IterateShape | sudoku_solver.py:155-186 | when every iteration advances the cursor and accepts only well-formed grids, the loop keeps grids and flags of equal length, at most one per iteration, all well-formed |
| ReaderFacts.ReadStateShape | sudoku_solver.py:155-186 | the loop keeps grids and flags of equal length, at most one per iteration, all well-formed |
| ReaderFacts.ReadSudokusShape | sudoku_solver.py:148-193 | equal-length results, at most `num_sudokus` of them, none for a non-integer first line, and every nonempty grid passes the validator |
| Writer.OutputFile.constructor | sudoku_solver.py:197 | a file opened for writing starts empty |
| Writer.OutputFile.Write | sudoku_solver.py:200 | `write` appends its text |
| Writer.Block | sudoku_solver.py:199-205 | the block of result i opens with "Solution for Sudoku i+1:" and ends with a blank line |
| Writer.Render | sudoku_solver.py:196-205 | the file is empty only without results; otherwise it opens with the heading of Sudoku 1 and ends with a blank line |
| Writer.WriteRows | sudoku_solver.py:201-202 | writes each row of a solution as its line, in order |
| Writer.WriteBlock | sudoku_solver.py:199-205 | writes exactly the block of one result |
| Writer.WriteSudokuSolutions | sudoku_solver.py:196-205 | the file ends up holding the blocks of all results in input order |
| WriterFacts.BlockIsLines | sudoku_solver.py:199-205 | each block's text is its lines, newline-terminated |
| WriterFacts.RenderIsLines | sudoku_solver.py:196-205 | the whole file is the output lines, newline-terminated |
| WriterFacts.OutputLineCount | sudoku_solver.py:198-205 | every result adds at least two lines |
| Formats.ShowWord | sudoku_solver.py:202 | a printed symbol is one word and decodes back to its value |
| Formats.RowReadsBack | sudoku_solver.py:202 | a printed row splits into its words and decodes back to its values |
| Formats.RowAccepted | sudoku_solver.py:166-175 | a printed row of an n-grid with values in [0, n] is a row the reader accepts |
| Formats.GridReadsBack | sudoku_solver.py:105-113 | for sides up to 35, every row of a grid with values in [0, n] prints as a line the reader accepts and decodes back to the row |
| Formats.OutputReadsBack | sudoku_solver.py:196-205 | read line by line, the written file gives back exactly the block lines |
| Formats.EncodedOneLine | sudoku_solver.py:112 | encoded symbols never contain a newline |
| Formats.HeaderReadsBack | sudoku_solver.py:157 | a header "N flag" parses back to N and the flag |
| Formats.RowsReadBack | sudoku_solver.py:165-177 | lines holding a grid's printed rows are read back as the grid's rows |
| Formats.LinesAt | sudoku_solver.py:157-167 | a puzzle laid out at a cursor has its header on that line and its rows on the lines after |
| Formats.PuzzleReadsBack | sudoku_solver.py:157-182 | a puzzle laid out in the input format is accepted as it was written and the cursor moves past it |
| Formats.CursorsStep | sudoku_solver.py:155-182 | the first puzzle starts on line 1, and each puzzle starts its size plus two lines after the previous one |
| Formats.InputLayout | sudoku_solver.py:154-182 | the input file written from a list of puzzles has the count on line 0 and each puzzle at its cursor |
| Formats.PuzzleSteps | sudoku_solver.py:157-182 | each puzzle laid out at its cursor is read back by one iteration, which moves the cursor past it |
| Formats.ReadStateReadsBack | sudoku_solver.py:155-186 | over lines laid out in the input format, the puzzle loop reads back every puzzle and flag, in order |
| Formats.InputReadsBack | sudoku_solver.py:148-193 | any lines laid out in the input format, the file the input format writes among them, read back into exactly its puzzles and flags |
| Pipeline.PrintedSolutionReadsBack | sudoku_solver.py:105-113 | for a satisfying assignment, the printed grid is a solution keeping the clues, and its rows read back through the reader's parser |
| Pipeline.ExtractedIsEncoded | sudoku_solver.py:105-113 | what `extract_solution` returns is the encoded decoded grid |
| Pipeline.SolvedPuzzleIsFixed | sudoku_solver.py:116-137 | every assignment satisfying the model of an already solved puzzle decodes to the puzzle itself |
| Pipeline.SolvedPuzzleComesBackEncoded | sudoku_solver.py:105-137 | for an already solved puzzle of side at most 35, `solver` returns the puzzle in the encoder's symbols: values up to 9 as the same integers, values above 9 as letters |
| Pipeline.RepeatedClueInfeasible | sudoku_solver.py:57-91 | two equal clues in a row leave no satisfying assignment |

## Left out

- `prob.solve()`, `plp.LpStatus` and the PuLP objects: the solver is an external search library. Its answer is an arbitrary assignment `Cube`, and properties are stated for assignments that satisfy the constraints. The objective (`lpSum(0)`) carries no information and is not modelled.
- `plp.value` returns a float; the model reads each variable as a boolean.
- `solver()` (catching every exception and returning `None`) and `main` are orchestration around the solve; the pieces they call are modelled, and `Builder.BuildModel` is the model part of `solver`.
- Opening, reading and writing files, `FileNotFoundError`, and all `print` diagnostics and error messages. The reader works on the file's lines, and the writer fills an in-memory `OutputFile`.
- The float `sqrt` of the perfect-square tests is an integer square root; float rounding for huge sizes is not modelled. A negative size, for which `math.sqrt` raises `ValueError`, is rejected like any other bad header.
- Codec.Decode: non-ASCII letters that `isalpha` accepts, and alphabetic tokens of several letters, for which `ord` raises a `TypeError` that escapes the reader, are modelled as tokens that do not decode.
- Codec.ParseInt: Python's `int` also accepts surrounding whitespace, underscores between digits and non-ASCII digits; the model accepts an optional sign and ASCII digits only. The reader strips and splits its lines, so it never passes such whitespace, but a hand-built grid with a token such as " 5" passes the source's validation and is `BadSymbol` in `Validator.ValidateSudokuInput`.
- Text.Split: whitespace is the ASCII whitespace of `str.isspace`; Unicode spaces are not modelled.
- Text.Strip: the same ASCII whitespace, for the count line, the header lines and the rows; Unicode spaces are not modelled.
- Codec.Encode and Extractor.ExtractSolution: require values below the surrogate range (n at most 55240), so that `chr(55 + v)` is a Dafny character.
- Validator.ValidateSudokuInput: an empty grid, where the source fails with `IndexError` on `input_sudoku[0]`, is the error `EmptyGrid`. The reader accepts a size-0 header and yields such an empty grid (`ReaderFacts.ReadSudokusShape`).
- The constraint names are structured data, not the source's formatted strings.
- `setup_problem` is called with the row and column counts, which validation has made equal; the model uses one size n.
- Builder.Problem.AddClueConstraints: the builder works on integer grids, as the reader produces. The source compares a cell with `!= 0` before decoding it, so a string '0' clue would index value 0; that path is not modelled.
- Pipeline.PrintedSolutionReadsBack: stated for sides up to 35, where every value has a one-character symbol; beyond that, `Codec.EncodeBeyond35` shows that symbols no longer read back.
