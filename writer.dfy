/** `write_sudoku_solutions_to_file` (sudoku_solver.py:196-205) as a text
    serialiser: the text the file holds once every block is written. */
module Writer {
  import opened Wrappers
  import opened Codec
  import opened Text

  /** A solver result: `None`, or a grid of symbols. */
  type Solution = Option<seq<seq<Token>>>

  /** Python's truth value of a result: `None` and `[]` are false. */
  predicate Truthy(solution: Solution)
  {
    solution.Some? && solution.value != []
  }

  /** `f"Solution for Sudoku {i + 1}:"` for the block at index `i`. */
  function Heading(i: nat): string
  {
    "Solution for Sudoku " + NatToString(i + 1) + ":"
  }

  /** `map(str, row)`. */
  function ShowRow(row: seq<Token>): (words: seq<string>)
    ensures |words| == |row| && forall j :: 0 <= j < |row| ==> words[j] == Show(row[j])
  {
    seq(|row|, j requires 0 <= j < |row| => Show(row[j]))
  }

  /** `' '.join(map(str, row))`. */
  function RowText(row: seq<Token>): string
  {
    Join(ShowRow(row))
  }

  /** The row lines of a solved block, each followed by a newline. */
  function RowsText(rows: seq<seq<Token>>): string
  {
    if rows == [] then ""
    else RowsText(rows[..|rows| - 1]) + RowText(rows[|rows| - 1]) + "\n"
  }

  /** The row lines of a solved block end with a newline. */
  lemma RowsTextEnds(rows: seq<seq<Token>>)
    requires rows != []
    ensures |RowsText(rows)| > 0 && RowsText(rows)[|RowsText(rows)| - 1] == '\n'
  {
  }

  /** The block written for the result at index `i`: it opens with the
      heading of Sudoku i + 1 and ends with a blank line. */
  function Block(i: nat, solution: Solution): (block: string)
    ensures Heading(i) <= block
    ensures |block| >= 2 && block[|block| - 2..] == "\n\n"
  {
    if Truthy(solution) then
      RowsTextEnds(solution.value);
      Heading(i) + "\n" + RowsText(solution.value) + "\n"
    else Heading(i) + " No solution found.\n\n"
  }

  /** The whole file: the blocks of all results, in order. It is empty
      only when there are no results, and otherwise opens with the heading
      of Sudoku 1 and ends with a blank line. */
  function Render(solutions: seq<Solution>): (text: string)
    ensures text == "" <==> solutions == []
    ensures solutions != [] ==> Heading(0) <= text && text[|text| - 2..] == "\n\n"
  {
    if solutions == [] then ""
    else Render(solutions[..|solutions| - 1]) + Block(|solutions| - 1, solutions[|solutions| - 1])
  }

  /** An output file opened with mode 'w': starts empty, `Write` appends. */
  class OutputFile {
    var text: string

    constructor ()
      ensures text == ""
    {
      text := "";
    }

    method Write(s: string)
      modifies this
      ensures text == old(text) + s
    {
      text := text + s;
    }
  }

  /** The row lines of a solved block, written one after another. */
  method WriteRows(file: OutputFile, rows: seq<seq<Token>>)
    modifies file
    ensures file.text == old(file.text) + RowsText(rows)
  {
    for r := 0 to |rows|
      invariant file.text == old(file.text) + RowsText(rows[..r])
    {
      assert rows[..r + 1][..r] == rows[..r];
      file.Write(RowText(rows[r]) + "\n");
    }
    assert rows[..|rows|] == rows;
  }

  /** The block of one result, written piece by piece. */
  method WriteBlock(file: OutputFile, i: nat, solution: Solution)
    modifies file
    ensures file.text == old(file.text) + Block(i, solution)
  {
    if Truthy(solution) {
      file.Write(Heading(i) + "\n");
      WriteRows(file, solution.value);
      file.Write("\n");
    } else {
      file.Write(Heading(i) + " No solution found.\n\n");
    }
  }

  /** `write_sudoku_solutions_to_file`: the file ends up holding the blocks
      of all results, in order. */
  method WriteSudokuSolutions(solutions: seq<Solution>) returns (file: OutputFile)
    ensures fresh(file) && file.text == Render(solutions)
  {
    file := new OutputFile();
    for i := 0 to |solutions|
      invariant file.text == Render(solutions[..i])
    {
      assert solutions[..i + 1][..i] == solutions[..i];
      WriteBlock(file, i, solutions[i]);
    }
    assert solutions[..|solutions|] == solutions;
  }
}

/** The output format line by line, and what the writer's text gives back
    when read. */
module WriterFacts {
  import opened Wrappers
  import opened Codec
  import opened Text
  import opened Writer

  /** The lines of the block for the result at index `i`: the heading, one
      line per row and a blank line; or the heading with the no-solution
      notice and a blank line. */
  function BlockLines(i: nat, solution: Solution): (lines: seq<string>)
    ensures Truthy(solution) ==> |lines| == |solution.value| + 2 && lines[0] == Heading(i) &&
                                  lines[|lines| - 1] == "" &&
                                  forall r :: 0 <= r < |solution.value| ==> lines[r + 1] == RowText(solution.value[r])
    ensures !Truthy(solution) ==> lines == [Heading(i) + " No solution found.", ""]
  {
    if Truthy(solution) then
      [Heading(i)] + seq(|solution.value|, r requires 0 <= r < |solution.value| => RowText(solution.value[r])) + [""]
    else [Heading(i) + " No solution found.", ""]
  }

  /** The lines of the whole file. */
  function OutputLines(solutions: seq<Solution>): seq<string>
  {
    if solutions == [] then []
    else OutputLines(solutions[..|solutions| - 1]) + BlockLines(|solutions| - 1, solutions[|solutions| - 1])
  }

  lemma {:induction false} RowsTextLines(rows: seq<seq<Token>>)
    ensures RowsText(rows) == Unlines(seq(|rows|, r requires 0 <= r < |rows| => RowText(rows[r])))
  {
    if rows != [] {
      var k := |rows| - 1;
      RowsTextLines(rows[..k]);
      var front := seq(k, r requires 0 <= r < k => RowText(rows[..k][r]));
      var all := seq(|rows|, r requires 0 <= r < |rows| => RowText(rows[r]));
      assert all == front + [RowText(rows[k])];
      UnlinesAppend(front, [RowText(rows[k])]);
    }
  }

  /** Each block is its lines, newline-terminated. */
  lemma BlockIsLines(i: nat, solution: Solution)
    ensures Block(i, solution) == Unlines(BlockLines(i, solution))
  {
    if Truthy(solution) {
      var rows := solution.value;
      var rowLines := seq(|rows|, r requires 0 <= r < |rows| => RowText(rows[r]));
      RowsTextLines(rows);
      UnlinesAppend([Heading(i)], rowLines + [""]);
      UnlinesAppend(rowLines, [""]);
      assert BlockLines(i, solution) == [Heading(i)] + (rowLines + [""]);
    } else {
      assert Unlines(BlockLines(i, solution)) == Heading(i) + " No solution found." + "\n" + ("" + "\n" + "");
    }
  }

  /** The writer's text is the output lines, each newline-terminated. */
  lemma {:induction false} RenderIsLines(solutions: seq<Solution>)
    ensures Render(solutions) == Unlines(OutputLines(solutions))
  {
    if solutions != [] {
      var k := |solutions| - 1;
      RenderIsLines(solutions[..k]);
      BlockIsLines(k, solutions[k]);
      UnlinesAppend(OutputLines(solutions[..k]), BlockLines(k, solutions[k]));
    }
  }

  /** Every result contributes a block of its own of at least two lines,
      so the blocks of later results come strictly after. */
  lemma {:induction false} OutputLineCount(solutions: seq<Solution>)
    ensures |OutputLines(solutions)| >= 2 * |solutions|
  {
    if solutions != [] {
      OutputLineCount(solutions[..|solutions| - 1]);
    }
  }
}
