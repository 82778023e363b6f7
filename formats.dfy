/** The text formats of the batch driver, read back: a solution row the
    writer prints parses back through the reader's row parser, the writer's
    file splits back into its block lines, and a file laid out as the input
    format prescribes is read back into the puzzles it describes. */
module Formats {
  import opened Wrappers
  import opened Codec
  import opened Text
  import opened Rules
  import opened Reader
  import opened ReaderFacts
  import opened Writer
  import opened WriterFacts

  /** Values the output alphabet covers: digits and the 26 letters. */
  predicate Symbols(values: seq<int>)
  {
    forall j :: 0 <= j < |values| ==> 0 <= values[j] <= 35
  }

  /** The symbols of a row of values, as the encoder of `extract_solution`
      writes them. */
  function EncodeRow(values: seq<int>): (row: seq<Token>)
    requires Symbols(values)
    ensures |row| == |values| && forall j :: 0 <= j < |values| ==> row[j] == Encode(values[j])
  {
    seq(|values|, j requires 0 <= j < |values| && values[j] <= 35 => Encode(values[j]))
  }

  /** The symbol grid `extract_solution` builds from a grid of values. */
  function EncodeGrid(grid: seq<seq<int>>): (t: seq<seq<Token>>)
    requires forall r :: 0 <= r < |grid| ==> Symbols(grid[r])
    ensures |t| == |grid| && forall r :: 0 <= r < |grid| ==> t[r] == EncodeRow(grid[r])
  {
    seq(|grid|, r requires 0 <= r < |grid| && Symbols(grid[r]) => EncodeRow(grid[r]))
  }

  /** A symbol is printed as one nonempty word. */
  lemma ShowWord(v: int)
    requires 0 <= v <= 35
    ensures Show(Encode(v)) != [] && NoSpace(Show(Encode(v)))
    ensures Decode(StrTok(Show(Encode(v)))) == Some(v)
  {
    RoundTrip(v);
    if v <= 9 {
      assert Show(Encode(v)) == NatToString(v);
    }
  }

  /** A printed row of symbols splits back into its words and decodes to
      the values it was printed from. */
  lemma RowReadsBack(values: seq<int>)
    requires Symbols(values)
    ensures Split(RowText(EncodeRow(values))) == ShowRow(EncodeRow(values))
    ensures DecodeTokens(Split(RowText(EncodeRow(values)))) == Some(values)
  {
    var words := ShowRow(EncodeRow(values));
    forall k | 0 <= k < |words|
      ensures words[k] != [] && NoSpace(words[k]) && Decode(StrTok(words[k])) == Some(values[k])
    {
      ShowWord(values[k]);
    }
    SplitJoin(words);
    DecodeTokensIff(words);
    var r := DecodeTokens(words);
    assert r.Some?;
    assert r.value == values;
  }

  /** A printed row of a grid of side `n` with values in [0, n] is a row
      the reader accepts. */
  lemma RowAccepted(values: seq<int>, n: nat)
    requires Symbols(values) && |values| == n
    requires forall j :: 0 <= j < n ==> values[j] <= n
    ensures RowOk(Split(RowText(EncodeRow(values))), n)
  {
    RowReadsBack(values);
  }

  /** Every printed row of a grid of side at most 35 with values in
      [0, side] is a row the reader accepts, and it decodes back to the
      grid's row. */
  lemma GridReadsBack(grid: seq<seq<int>>, n: nat)
    requires IsGrid(grid, n) && n <= 35
    requires forall r, c :: 0 <= r < n && 0 <= c < n ==> 0 <= grid[r][c] <= n
    ensures forall r :: 0 <= r < n ==> Symbols(grid[r])
    ensures forall r :: 0 <= r < n ==>
              RowOk(Split(RowText(EncodeGrid(grid)[r])), n) &&
              DecodeTokens(Split(RowText(EncodeGrid(grid)[r]))) == Some(grid[r])
  {
    forall r | 0 <= r < n
      ensures Symbols(grid[r])
    {
    }
    forall r | 0 <= r < n
      ensures RowOk(Split(RowText(EncodeGrid(grid)[r])), n) &&
              DecodeTokens(Split(RowText(EncodeGrid(grid)[r]))) == Some(grid[r])
    {
      assert EncodeGrid(grid)[r] == EncodeRow(grid[r]);
      RowAccepted(grid[r], n);
      RowReadsBack(grid[r]);
    }
  }

  /** A result whose printed symbols hold no newline. */
  predicate OneLineCells(solution: Solution)
  {
    solution.Some? ==>
      forall r, j :: 0 <= r < |solution.value| && 0 <= j < |solution.value[r]| ==>
        '\n' !in Show(solution.value[r][j])
  }

  lemma {:induction false} JoinOneLine(words: seq<string>)
    requires forall k :: 0 <= k < |words| ==> '\n' !in words[k]
    ensures '\n' !in Join(words)
  {
    if |words| > 1 {
      JoinOneLine(words[1..]);
    }
  }

  lemma HeadingOneLine(i: nat)
    ensures '\n' !in Heading(i)
    ensures '\n' !in Heading(i) + " No solution found."
  {
    var d := NatToString(i + 1);
    assert forall k :: 0 <= k < |d| ==> IsDigit(d[k]);
  }

  lemma {:induction false} OutputLinesOneLine(solutions: seq<Solution>)
    requires forall i :: 0 <= i < |solutions| ==> OneLineCells(solutions[i])
    ensures forall k :: 0 <= k < |OutputLines(solutions)| ==> '\n' !in OutputLines(solutions)[k]
  {
    if solutions != [] {
      var n := |solutions| - 1;
      OutputLinesOneLine(solutions[..n]);
      var block := BlockLines(n, solutions[n]);
      HeadingOneLine(n);
      if Truthy(solutions[n]) {
        var rows := solutions[n].value;
        forall r | 0 <= r < |rows|
          ensures '\n' !in RowText(rows[r])
        {
          JoinOneLine(ShowRow(rows[r]));
        }
      }
      assert forall k :: 0 <= k < |block| ==> '\n' !in block[k];
    }
  }

  /** Reading the written file line by line gives back exactly the block
      lines of the output format, in order. */
  lemma OutputReadsBack(solutions: seq<Solution>)
    requires forall i :: 0 <= i < |solutions| ==> OneLineCells(solutions[i])
    ensures Lines(Render(solutions)) == OutputLines(solutions)
  {
    RenderIsLines(solutions);
    OutputLinesOneLine(solutions);
    LinesUnlines(OutputLines(solutions));
  }

  /** Symbols from the encoder never hold a newline. */
  lemma EncodedOneLine(rows: seq<seq<int>>)
    requires forall r :: 0 <= r < |rows| ==> Symbols(rows[r])
    ensures OneLineCells(Some(EncodeGrid(rows)))
  {
    forall r, j | 0 <= r < |rows| && 0 <= j < |rows[r]|
      ensures '\n' !in Show(Encode(rows[r][j]))
    {
      ShowWord(rows[r][j]);
      var w := Show(Encode(rows[r][j]));
      assert forall k :: 0 <= k < |w| ==> !IsSpace(w[k]);
    }
  }

  // ---------------------------------------------------------------------
  // The input format.

  /** A puzzle of an input file: its grid and its diagonal flag. */
  datatype Entry = Entry(grid: seq<seq<int>>, diagonal: bool)

  /** A puzzle the input format can carry: a well-formed grid whose values
      all have a symbol. */
  predicate Writable(e: Entry)
  {
    WellFormed(e.grid) && forall r :: 0 <= r < |e.grid| ==> Symbols(e.grid[r])
  }

  /** `<N> <diagonal_flag>`. */
  function HeaderLine(n: nat, diagonal: bool): string
  {
    NatToString(n) + " " + (if diagonal then "1" else "0")
  }

  /** The lines of one puzzle: header, rows, blank separator. */
  function PuzzleLines(e: Entry): (lines: seq<string>)
    requires Writable(e)
    ensures |lines| == |e.grid| + 2
  {
    [HeaderLine(|e.grid|, e.diagonal)] +
    seq(|e.grid|, r requires 0 <= r < |e.grid| => RowText(EncodeRow(e.grid[r]))) +
    [""]
  }

  function PuzzlesLines(entries: seq<Entry>): seq<string>
    requires forall i :: 0 <= i < |entries| ==> Writable(entries[i])
  {
    if entries == [] then []
    else PuzzlesLines(entries[..|entries| - 1]) + PuzzleLines(entries[|entries| - 1])
  }

  /** An input file: the count, then every puzzle. */
  function InputLines(entries: seq<Entry>): seq<string>
    requires forall i :: 0 <= i < |entries| ==> Writable(entries[i])
  {
    [NatToString(|entries|)] + PuzzlesLines(entries)
  }

  lemma DigitsNoSpace(s: string)
    requires AllDigits(s)
    ensures NoSpace(s)
  {
    assert forall k :: 0 <= k < |s| ==> IsDigit(s[k]);
  }

  lemma HeaderReadsBack(n: nat, diagonal: bool)
    ensures ParseHeader(HeaderLine(n, diagonal)) == Some(Header(n, if diagonal then 1 else 0))
  {
    var flag: nat := if diagonal then 1 else 0;
    assert (if diagonal then "1" else "0") == NatToString(flag);
    var words := [NatToString(n), NatToString(flag)];
    DigitsNoSpace(NatToString(n));
    DigitsNoSpace(NatToString(flag));
    assert Join(words[1..]) == NatToString(flag);
    assert Join(words) == HeaderLine(n, diagonal);
    SplitJoin(words);
    ParseIntOfNatToString(n);
    ParseIntOfNatToString(flag);
  }

  /** The printed rows of `e` sit on the lines from `start` on. */
  predicate RowLines(lines: seq<string>, start: nat, e: Entry)
    requires Writable(e)
  {
    forall i :: 0 <= i < |e.grid| ==> Line(lines, start + i) == RowText(EncodeRow(e.grid[i]))
  }

  /** The rows of a laid-out puzzle are read back one by one. */
  lemma RowsReadBack(lines: seq<string>, start: nat, e: Entry)
    requires Writable(e)
    requires RowLines(lines, start, e)
    ensures RowsState(lines, start, |e.grid|, |e.grid|) == RowsOk(e.grid)
  {
    var n := |e.grid|;
    forall i: nat | i < n
      ensures RowStep(lines, start, n)(i) == Some(e.grid[i])
    {
      var row := e.grid[i];
      assert |row| == n && forall j :: 0 <= j < n ==> row[j] <= n;
      RowAccepted(row, n);
      RowReadsBack(row);
      assert RowTokens(lines, start, i) == Split(RowText(EncodeRow(row)));
    }
    LoopAllOk(RowStep(lines, start, n), start, e.grid, n);
    assert e.grid[..n] == e.grid;
  }

  /** The lines of a laid-out puzzle sit at line `at`. */
  predicate LaidOutAt(lines: seq<string>, at: nat, e: Entry)
  {
    Writable(e) && at + |e.grid| + 2 <= |lines| && lines[at..at + |e.grid| + 2] == PuzzleLines(e)
  }

  /** Line by line, a laid-out puzzle at `at` is its header and then its
      printed rows. */
  lemma LinesAt(lines: seq<string>, at: nat, e: Entry)
    requires LaidOutAt(lines, at, e)
    ensures Line(lines, at) == HeaderLine(|e.grid|, e.diagonal)
    ensures RowLines(lines, at + 1, e)
  {
    var n := |e.grid|;
    var p := PuzzleLines(e);
    assert Line(lines, at) == lines[at..at + n + 2][0];
    forall i | 0 <= i < n
      ensures Line(lines, at + 1 + i) == RowText(EncodeRow(e.grid[i]))
    {
      assert p[i + 1] == RowText(EncodeRow(e.grid[i]));
      assert Line(lines, at + 1 + i) == lines[at..at + n + 2][i + 1];
    }
  }

  /** A laid-out puzzle at line `at` is accepted as it was written, and the
      cursor moves just past its separator line. */
  lemma PuzzleReadsBack(lines: seq<string>, at: nat, e: Entry)
    requires LaidOutAt(lines, at, e)
    ensures ReadPuzzle(lines, at) == Step(Accepted(e.grid, e.diagonal), at + |e.grid| + 2)
  {
    var n := |e.grid|;
    assert ParseHeader(Line(lines, at)) == Some(Header(n, if e.diagonal then 1 else 0)) by {
      LinesAt(lines, at, e);
      HeaderReadsBack(n, e.diagonal);
    }
    assert RowsState(lines, at + 1, n, n) == RowsOk(e.grid) by {
      LinesAt(lines, at, e);
      RowsReadBack(lines, at + 1, e);
    }
    assert IntSqrt(n) * IntSqrt(n) == n by {
      assert WellFormed(e.grid);
    }
    HeaderAndRowsAccepted(lines, at, Header(n, if e.diagonal then 1 else 0), e.grid);
  }

  function Grids(entries: seq<Entry>): (gs: seq<seq<seq<int>>>)
    ensures |gs| == |entries| && forall i :: 0 <= i < |entries| ==> gs[i] == entries[i].grid
  {
    seq(|entries|, i requires 0 <= i < |entries| => entries[i].grid)
  }

  function Flags(entries: seq<Entry>): (fs: seq<bool>)
    ensures |fs| == |entries| && forall i :: 0 <= i < |entries| ==> fs[i] == entries[i].diagonal
  {
    seq(|entries|, i requires 0 <= i < |entries| => entries[i].diagonal)
  }

  lemma GridsSnoc(entries: seq<Entry>, k: nat)
    requires 0 < k <= |entries|
    ensures Grids(entries[..k]) == Grids(entries[..k - 1]) + [entries[k - 1].grid]
    ensures Flags(entries[..k]) == Flags(entries[..k - 1]) + [entries[k - 1].diagonal]
  {
    var a := Grids(entries[..k]);
    var b := Grids(entries[..k - 1]) + [entries[k - 1].grid];
    assert |a| == |b|;
    forall i | 0 <= i < k
      ensures a[i] == b[i]
    {
      assert entries[..k][i] == entries[i];
    }
    var f := Flags(entries[..k]);
    var g := Flags(entries[..k - 1]) + [entries[k - 1].diagonal];
    forall i | 0 <= i < k
      ensures f[i] == g[i]
    {
      assert entries[..k][i] == entries[i];
    }
  }

  lemma {:induction false} PuzzlesLinesPrefix(entries: seq<Entry>, k: nat)
    requires forall i :: 0 <= i < |entries| ==> Writable(entries[i])
    requires k <= |entries|
    ensures var front := PuzzlesLines(entries[..k]);
            |front| <= |PuzzlesLines(entries)| && PuzzlesLines(entries)[..|front|] == front
    decreases |entries| - k
  {
    if k == |entries| {
      assert entries[..k] == entries;
    } else {
      var last := |entries| - 1;
      PuzzlesLinesPrefix(entries[..last], k);
      assert entries[..last][..k] == entries[..k];
    }
  }

  lemma PuzzlesLinesSnoc(entries: seq<Entry>, k: nat)
    requires forall i :: 0 <= i < |entries| ==> Writable(entries[i])
    requires 0 < k <= |entries|
    ensures PuzzlesLines(entries[..k]) == PuzzlesLines(entries[..k - 1]) + PuzzleLines(entries[k - 1])
  {
    assert entries[..k][..k - 1] == entries[..k - 1];
  }

  /** A block that follows `before` at the front of `all` sits right after
      `before` once a header is put in front of `all`. */
  lemma SliceAfter<T>(head: seq<T>, all: seq<T>, before: seq<T>, block: seq<T>)
    requires |before| + |block| <= |all| && all[..|before| + |block|] == before + block
    ensures (head + all)[|head| + |before|..|head| + |before| + |block|] == block
  {
    forall j | 0 <= j < |block|
      ensures (head + all)[|head| + |before| + j] == block[j]
    {
      assert all[..|before| + |block|][|before| + j] == block[j];
    }
  }

  /** The lines of puzzle `k - 1` sit in a laid-out file right after
      the count line and the puzzles before it. */
  lemma LinesOfPuzzle(entries: seq<Entry>, k: nat)
    requires forall i :: 0 <= i < |entries| ==> Writable(entries[i])
    requires 0 < k <= |entries|
    ensures var c := 1 + |PuzzlesLines(entries[..k - 1])|;
            LaidOutAt(InputLines(entries), c, entries[k - 1]) &&
            1 + |PuzzlesLines(entries[..k])| == c + |entries[k - 1].grid| + 2
  {
    var before := PuzzlesLines(entries[..k - 1]);
    var p := PuzzleLines(entries[k - 1]);
    var all := PuzzlesLines(entries);
    PuzzlesLinesSnoc(entries, k);
    PuzzlesLinesPrefix(entries, k);
    SliceAfter([NatToString(|entries|)], all, before, p);
  }

  /** Where the reader's cursor stands before each puzzle of a laid-out
      file, and after the last one. */
  function Cursors(entries: seq<Entry>): (cursors: seq<nat>)
    requires forall i :: 0 <= i < |entries| ==> Writable(entries[i])
    ensures |cursors| == |entries| + 1
    ensures forall j :: 0 <= j <= |entries| ==> cursors[j] == 1 + |PuzzlesLines(entries[..j])|
  {
    seq(|entries| + 1, j requires 0 <= j <= |entries| => 1 + |PuzzlesLines(entries[..j])|)
  }

  /** Each puzzle of a laid-out file ends where the next one begins. */
  lemma CursorsStep(entries: seq<Entry>)
    requires forall i :: 0 <= i < |entries| ==> Writable(entries[i])
    ensures Cursors(entries)[0] == 1
    ensures forall i :: 0 <= i < |entries| ==> Cursors(entries)[i + 1] == Cursors(entries)[i] + |entries[i].grid| + 2
  {
    assert entries[..0] == [];
    forall i | 0 <= i < |entries|
      ensures Cursors(entries)[i + 1] == Cursors(entries)[i] + |entries[i].grid| + 2
    {
      PuzzlesLinesSnoc(entries, i + 1);
    }
  }

  /** Lines in the input layout: the count of puzzles on line 0, then each
      puzzle at its cursor. */
  predicate Layout(lines: seq<string>, entries: seq<Entry>)
    requires forall i :: 0 <= i < |entries| ==> Writable(entries[i])
  {
    Line(lines, 0) == NatToString(|entries|) &&
    forall i :: 0 <= i < |entries| ==> LaidOutAt(lines, Cursors(entries)[i], entries[i])
  }

  /** The file written from `entries` is in the input layout. */
  lemma InputLayout(entries: seq<Entry>)
    requires forall i :: 0 <= i < |entries| ==> Writable(entries[i])
    ensures Layout(InputLines(entries), entries)
  {
    forall i | 0 <= i < |entries|
      ensures LaidOutAt(InputLines(entries), Cursors(entries)[i], entries[i])
    {
      LinesOfPuzzle(entries, i + 1);
    }
  }

  /** Puzzles laid out at the given cursors are each accepted, and each
      leaves the cursor just past its separator line. */
  lemma PuzzleSteps(lines: seq<string>, entries: seq<Entry>, cursors: seq<nat>)
    requires |cursors| == |entries| + 1
    requires forall i :: 0 <= i < |entries| ==> LaidOutAt(lines, cursors[i], entries[i])
    ensures forall i :: 0 <= i < |entries| ==>
              PuzzleStep(lines)(cursors[i]) == Step(Accepted(entries[i].grid, entries[i].diagonal), cursors[i] + |entries[i].grid| + 2)
  {
    forall i | 0 <= i < |entries|
      ensures PuzzleStep(lines)(cursors[i]) == Step(Accepted(entries[i].grid, entries[i].diagonal), cursors[i] + |entries[i].grid| + 2)
    {
      PuzzleReadsBack(lines, cursors[i], entries[i]);
    }
  }

  /** Puzzle loop over lines in the input layout: the loop reads back
      every puzzle. */
  lemma ReadStateReadsBack(lines: seq<string>, entries: seq<Entry>)
    requires forall i :: 0 <= i < |entries| ==> Writable(entries[i])
    requires Layout(lines, entries)
    ensures ReadState(lines, |entries|) == State(Grids(entries), Flags(entries), Cursors(entries)[|entries|])
  {
    CursorsStep(entries);
    PuzzleSteps(lines, entries, Cursors(entries));
    IterateOfSteps(PuzzleStep(lines), Grids(entries), Flags(entries), Cursors(entries), |entries|);
  }

  /** `read_sudokus_from_file` on lines in the input layout returns exactly
      the puzzles and flags they were laid out from. */
  lemma InputReadsBack(lines: seq<string>, entries: seq<Entry>)
    requires forall i :: 0 <= i < |entries| ==> Writable(entries[i])
    requires Layout(lines, entries)
    ensures ReadSudokus(lines) == (Grids(entries), Flags(entries))
  {
    ReadStateReadsBack(lines, entries);
    assert NumSudokus(lines) == Some(|entries|) by {
      DigitsNoSpace(NatToString(|entries|));
      StripNoSpace(NatToString(|entries|));
      ParseIntOfNatToString(|entries|);
    }
  }
}
