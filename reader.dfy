/** `read_sudokus_from_file` (sudoku_solver.py:148-193) as a parser over the
    lines of the input, with a line cursor. `f.readline()` past the end of
    the file returns "", so the model reads "" there too. */
module Reader {
  import opened Wrappers
  import opened Codec
  import opened Text
  import opened Rules

  /** The line `f.readline()` returns when `i` lines have been read. */
  function Line(lines: seq<string>, i: nat): string
  {
    if i < |lines| then lines[i] else ""
  }

  /** The `<dim> <diagonal_flag>` line of a puzzle. */
  datatype Header = Header(dim: int, flag: int)

  /** `dim, diagonal_flag = map(int, line.strip().split())`: exactly two
      tokens, both integers. */
  function ParseHeader(line: string): (h: Option<Header>)
    ensures h.Some? <==> |Split(line)| == 2 && ParseInt(Split(line)[0]).Some? && ParseInt(Split(line)[1]).Some?
    ensures h.Some? ==> h.value == Header(ParseInt(Split(line)[0]).value, ParseInt(Split(line)[1]).value)
  {
    var tokens := Split(line);
    if |tokens| != 2 then None
    else match (ParseInt(tokens[0]), ParseInt(tokens[1]))
      case (Some(dim), Some(flag)) => Some(Header(dim, flag))
      case _ => None
  }

  /** `[convert_to_numeric(value) for value in row]`. */
  function DecodeTokens(tokens: seq<string>): (r: Option<seq<int>>)
    ensures r.Some? ==> |r.value| == |tokens|
  {
    if tokens == [] then Some([])
    else match (Decode(StrTok(tokens[0])), DecodeTokens(tokens[1..]))
      case (Some(v), Some(vs)) => Some([v] + vs)
      case _ => None
  }

  /** A row decodes exactly when each of its tokens does, and then token
      by token. */
  lemma {:induction false} DecodeTokensIff(tokens: seq<string>)
    ensures DecodeTokens(tokens).Some? <==> forall i :: 0 <= i < |tokens| ==> Decode(StrTok(tokens[i])).Some?
    ensures DecodeTokens(tokens).Some? ==>
              forall i :: 0 <= i < |tokens| ==> DecodeTokens(tokens).value[i] == Decode(StrTok(tokens[i])).value
  {
    if tokens != [] {
      DecodeTokensIff(tokens[1..]);
      assert forall i :: 1 <= i < |tokens| ==> tokens[1..][i - 1] == tokens[i];
    }
  }

  /** A row of exactly `dim` tokens whose decoded values all lie in
      [0, dim]. */
  predicate RowOk(tokens: seq<string>, dim: int)
  {
    |tokens| == dim && DecodeTokens(tokens).Some? &&
    forall i :: 0 <= i < |tokens| ==> 0 <= DecodeTokens(tokens).value[i] <= dim
  }

  /** Outcome of reading the rows of a puzzle: the rows, or the cursor just
      after the first row that failed. */
  datatype Rows = RowsOk(rows: seq<seq<int>>) | RowsFailed(next: nat)

  /** Row `i` of a puzzle whose rows start at line `start`, split into
      tokens. */
  function RowTokens(lines: seq<string>, start: nat, i: nat): seq<string>
  {
    Split(Line(lines, start + i))
  }

  /** One iteration of the row loop: the row's values, or nothing when the
      row fails a check. */
  function ReadRow(tokens: seq<string>, dim: int): (r: Option<seq<int>>)
    ensures r.Some? <==> RowOk(tokens, dim)
    ensures r.Some? ==> r == DecodeTokens(tokens)
  {
    if RowOk(tokens, dim) then DecodeTokens(tokens) else None
  }

  /** The row loop after `k` iterations of `row`, rows starting at line
      `start`; the loop stops at the first row that fails. */
  function RowsLoop(row: nat -> Option<seq<int>>, start: nat, k: nat): (r: Rows)
    ensures r.RowsOk? ==> |r.rows| == k
    ensures r.RowsFailed? ==> start < r.next <= start + k
  {
    if k == 0 then RowsOk([])
    else match RowsLoop(row, start, k - 1)
      case RowsFailed(c) => RowsFailed(c)
      case RowsOk(rows) =>
        match row(k - 1)
        case Some(values) => RowsOk(rows + [values])
        case None => RowsFailed(start + k)
  }

  /** One iteration of the row loop over `lines`. */
  function RowStep(lines: seq<string>, start: nat, dim: int): nat -> Option<seq<int>>
  {
    (i: nat) => ReadRow(RowTokens(lines, start, i), dim)
  }

  /** The state of the row loop after `k` iterations, rows starting at line
      `start`. */
  function RowsState(lines: seq<string>, start: nat, dim: nat, k: nat): Rows
  {
    RowsLoop(RowStep(lines, start, dim), start, k)
  }

  /** What one iteration of the puzzle loop produces. */
  datatype Outcome = Accepted(grid: seq<seq<int>>, diagonal: bool) | Rejected

  /** One puzzle read from line `at`: the outcome and where the cursor is
      afterwards. An accepted puzzle also consumes the separator line; a
      rejected one stops right after the line that failed. */
  function ReadPuzzle(lines: seq<string>, at: nat): (s: Step)
    ensures at < s.next
    ensures s.outcome.Accepted? ==> s.next == at + |s.outcome.grid| + 2
  {
    match ParseHeader(Line(lines, at))
    case None => Step(Rejected, at + 1)
    case Some(Header(dim, flag)) =>
      if dim < 0 || IntSqrt(dim) * IntSqrt(dim) != dim then Step(Rejected, at + 1)
      else match RowsState(lines, at + 1, dim, dim)
        case RowsFailed(next) => Step(Rejected, next)
        case RowsOk(rows) => Step(Accepted(rows, flag == 1), at + 1 + dim + 1)
  }

  /** An outcome and the cursor after it. */
  datatype Step = Step(outcome: Outcome, next: nat)

  /** The lists `sudokus`, `diagonal_flags` and the cursor. */
  datatype State = State(sudokus: seq<seq<seq<int>>>, flags: seq<bool>, cursor: nat)

  /** The puzzle loop after `k` iterations of `step`, which reads one
      puzzle from a cursor; the cursor starts on line 1, after the count. */
  function Iterate(step: nat -> Step, k: nat): (st: State)
    ensures |st.sudokus| == |st.flags| <= k
  {
    if k == 0 then State([], [], 1)
    else
      var st := Iterate(step, k - 1);
      var s := step(st.cursor);
      match s.outcome
      case Accepted(grid, diagonal) => State(st.sudokus + [grid], st.flags + [diagonal], s.next)
      case Rejected => State(st.sudokus, st.flags, s.next)
  }

  /** One iteration of the puzzle loop over `lines`. */
  function PuzzleStep(lines: seq<string>): nat -> Step
  {
    (at: nat) => ReadPuzzle(lines, at)
  }

  /** The state after `k` iterations of the puzzle loop. */
  function ReadState(lines: seq<string>, k: nat): State
  {
    Iterate(PuzzleStep(lines), k)
  }

  /** `num_sudokus = int(f.readline().strip())`. */
  function NumSudokus(lines: seq<string>): Option<int>
  {
    ParseInt(Strip(Line(lines, 0)))
  }

  /** The result of `read_sudokus_from_file`: two empty lists when the first
      line is not an integer. */
  function ReadSudokus(lines: seq<string>): (r: (seq<seq<seq<int>>>, seq<bool>))
    ensures |r.0| == |r.1|
    ensures NumSudokus(lines).None? ==> r.0 == []
    ensures NumSudokus(lines).Some? ==> |r.0| <= if NumSudokus(lines).value > 0 then NumSudokus(lines).value else 0
  {
    match NumSudokus(lines)
    case None => ([], [])
    case Some(num) =>
      var st := ReadState(lines, if num > 0 then num else 0);
      (st.sudokus, st.flags)
  }

  /** Once a row has failed, later iterations never run. */
  lemma {:induction false} LoopFailedStays(row: nat -> Option<seq<int>>, start: nat, k: nat, k': nat)
    requires k <= k' && RowsLoop(row, start, k).RowsFailed?
    ensures RowsLoop(row, start, k') == RowsLoop(row, start, k)
    decreases k' - k
  {
    if k < k' {
      LoopFailedStays(row, start, k, k' - 1);
    }
  }

  /** A good row after good ones is appended to the rows read so far. */
  lemma RowSucceeds(lines: seq<string>, start: nat, dim: nat, rowIndex: nat, rows: seq<seq<int>>)
    requires RowsState(lines, start, dim, rowIndex) == RowsOk(rows)
    requires RowOk(Split(Line(lines, start + rowIndex)), dim)
    ensures RowsState(lines, start, dim, rowIndex + 1) ==
            RowsOk(rows + [DecodeTokens(Split(Line(lines, start + rowIndex))).value])
  {
    assert RowStep(lines, start, dim)(rowIndex) == DecodeTokens(Split(Line(lines, start + rowIndex)));
  }

  /** A bad row after good ones fails the whole loop right after it. */
  lemma RowFails(lines: seq<string>, start: nat, dim: nat, rowIndex: nat)
    requires rowIndex < dim
    requires RowsState(lines, start, dim, rowIndex).RowsOk?
    requires !RowOk(Split(Line(lines, start + rowIndex)), dim)
    ensures RowsState(lines, start, dim, dim) == RowsFailed(start + rowIndex + 1)
  {
    LoopFailedStays(RowStep(lines, start, dim), start, rowIndex + 1, dim);
  }

  /** The checks on one row, in the order sudoku_solver.py:168-177 makes
      them: the token count, the conversion of every token, then the range
      of every value. */
  method CheckRow(row: seq<string>, dim: nat) returns (values: Option<seq<int>>)
    ensures values == ReadRow(row, dim)
  {
    if |row| != dim {
      return None;
    }
    var numericRow := DecodeTokens(row);
    if numericRow.None? {
      return None;
    }
    for colIndex := 0 to dim
      invariant forall c :: 0 <= c < colIndex ==> 0 <= numericRow.value[c] <= dim
    {
      if !(0 <= numericRow.value[colIndex] <= dim) {
        return None;
      }
    }
    return numericRow;
  }

  /** The `for _ in range(dim)` loop: rows are read until one fails. */
  method ReadRows(lines: seq<string>, start: nat, dim: nat) returns (r: Rows)
    ensures r == RowsState(lines, start, dim, dim)
  {
    var sudoku := [];
    var next := start;
    for rowIndex := 0 to dim
      invariant next == start + rowIndex
      invariant RowsState(lines, start, dim, rowIndex) == RowsOk(sudoku)
    {
      var row := Split(Line(lines, next));
      next := next + 1;
      var values := CheckRow(row, dim);
      if values.None? {
        RowFails(lines, start, dim, rowIndex);
        return RowsFailed(next);
      }
      RowSucceeds(lines, start, dim, rowIndex, sudoku);
      sudoku := sudoku + [values.value];
    }
    return RowsOk(sudoku);
  }

  /** The body of the `for sudoku_index` loop: the header, then the rows,
      then the separator line. */
  method ReadOnePuzzle(lines: seq<string>, at: nat) returns (outcome: Outcome, next: nat)
    ensures Step(outcome, next) == ReadPuzzle(lines, at)
  {
    var header := ParseHeader(Line(lines, at));
    if header.None? {
      return Rejected, at + 1;
    }
    var dim := header.value.dim;
    var diagonal := header.value.flag == 1;
    if dim < 0 {
      return Rejected, at + 1;
    }
    var m := IntSqrt(dim);
    if m * m != dim {
      return Rejected, at + 1;
    }
    var rows := ReadRows(lines, at + 1, dim);
    match rows
    case RowsFailed(c) =>
      return Rejected, c;
    case RowsOk(sudoku) =>
      return Accepted(sudoku, diagonal), at + 1 + dim + 1;
  }

  /** The `for sudoku_index` loop, run `count` times from line 1. */
  method ReadPuzzles(lines: seq<string>, count: nat) returns (sudokus: seq<seq<seq<int>>>, diagonalFlags: seq<bool>)
    ensures ReadState(lines, count).sudokus == sudokus
    ensures ReadState(lines, count).flags == diagonalFlags
  {
    sudokus, diagonalFlags := [], [];
    var cursor := 1;
    for sudokuIndex := 0 to count
      invariant ReadState(lines, sudokuIndex) == State(sudokus, diagonalFlags, cursor)
    {
      var outcome, next := ReadOnePuzzle(lines, cursor);
      cursor := next;
      if outcome.Accepted? {
        sudokus := sudokus + [outcome.grid];
        diagonalFlags := diagonalFlags + [outcome.diagonal];
      }
    }
  }

  /** `read_sudokus_from_file` over the lines of the file. */
  method ReadSudokusFromLines(lines: seq<string>) returns (sudokus: seq<seq<seq<int>>>, diagonalFlags: seq<bool>)
    ensures (sudokus, diagonalFlags) == ReadSudokus(lines)
  {
    var numSudokus := ParseInt(Strip(Line(lines, 0)));
    if numSudokus.None? {
      return [], [];
    }
    sudokus, diagonalFlags := ReadPuzzles(lines, if numSudokus.value > 0 then numSudokus.value else 0);
  }
}

/** What the batch reader guarantees about what it returns. */
module ReaderFacts {
  import opened Wrappers
  import opened Codec
  import opened Text
  import opened Rules
  import opened Reader
  import Validator

  /** The row loop succeeds exactly when every row step succeeds. */
  lemma {:induction false} LoopOkIff(row: nat -> Option<seq<int>>, start: nat, k: nat)
    ensures RowsLoop(row, start, k).RowsOk? <==> forall i: nat :: i < k ==> row(i).Some?
  {
    if k > 0 {
      LoopOkIff(row, start, k - 1);
    }
  }

  /** A successful row loop yields the values of every row step, in
      order. */
  lemma {:induction false} LoopRows(row: nat -> Option<seq<int>>, start: nat, k: nat)
    requires RowsLoop(row, start, k).RowsOk?
    ensures var rows := RowsLoop(row, start, k).rows;
            |rows| == k && forall i: nat :: i < k ==> row(i) == Some(rows[i])
  {
    if k > 0 {
      LoopRows(row, start, k - 1);
    }
  }

  /** Row steps that all succeed with the given values make the loop
      collect exactly those values. */
  lemma {:induction false} LoopAllOk(row: nat -> Option<seq<int>>, start: nat, values: seq<seq<int>>, k: nat)
    requires k <= |values|
    requires forall i: nat :: i < k ==> row(i) == Some(values[i])
    ensures RowsLoop(row, start, k) == RowsOk(values[..k])
  {
    if k > 0 {
      LoopAllOk(row, start, values, k - 1);
      assert values[..k] == values[..k - 1] + [values[k - 1]];
    }
  }

  /** A failed row loop stops right after the first row step that fails. */
  lemma {:induction false} LoopFailedAt(row: nat -> Option<seq<int>>, start: nat, k: nat)
    requires RowsLoop(row, start, k).RowsFailed?
    ensures var c := RowsLoop(row, start, k).next;
            start < c <= start + k && row(c - 1 - start).None? &&
            forall i: nat :: i < c - 1 - start ==> row(i).Some?
  {
    if RowsLoop(row, start, k - 1).RowsFailed? {
      LoopFailedAt(row, start, k - 1);
    } else {
      LoopOkIff(row, start, k - 1);
    }
  }

  /** The row step over `lines` succeeds exactly on good rows, with their
      decoded values. */
  lemma RowStepIs(lines: seq<string>, start: nat, dim: nat)
    ensures forall i: nat :: RowStep(lines, start, dim)(i).Some? <==> RowOk(RowTokens(lines, start, i), dim)
    ensures forall i: nat :: RowStep(lines, start, dim)(i).Some? ==>
              RowStep(lines, start, dim)(i) == DecodeTokens(RowTokens(lines, start, i))
  {
  }

  /** The row loop succeeds exactly when every row is good. */
  lemma RowsOkIff(lines: seq<string>, start: nat, dim: nat, k: nat)
    ensures RowsState(lines, start, dim, k).RowsOk? <==>
            forall i: nat :: i < k ==> RowOk(RowTokens(lines, start, i), dim)
  {
    LoopOkIff(RowStep(lines, start, dim), start, k);
    RowStepIs(lines, start, dim);
  }

  /** A successful row loop yields the decoded rows, in order. */
  lemma RowsOkRows(lines: seq<string>, start: nat, dim: nat, k: nat)
    requires RowsState(lines, start, dim, k).RowsOk?
    ensures var rows := RowsState(lines, start, dim, k).rows;
            |rows| == k &&
            forall i: nat :: i < k ==>
              RowOk(RowTokens(lines, start, i), dim) && rows[i] == DecodeTokens(RowTokens(lines, start, i)).value
  {
    LoopRows(RowStep(lines, start, dim), start, k);
    RowStepIs(lines, start, dim);
  }

  /** When the row loop fails, the cursor is just past the first bad row. */
  lemma RowsFailedAt(lines: seq<string>, start: nat, dim: nat, k: nat)
    requires RowsState(lines, start, dim, k).RowsFailed?
    ensures var c := RowsState(lines, start, dim, k).next;
            start < c <= start + k &&
            !RowOk(RowTokens(lines, start, c - 1 - start), dim) &&
            forall i: nat :: i < c - 1 - start ==> RowOk(RowTokens(lines, start, i), dim)
  {
    LoopFailedAt(RowStep(lines, start, dim), start, k);
    RowStepIs(lines, start, dim);
  }

  /** The header of the puzzle at `at` parses, and its size is a perfect
      square (`math.sqrt` of a negative size raises, which also rejects). */
  predicate GoodHeader(lines: seq<string>, at: nat)
  {
    var h := ParseHeader(Line(lines, at));
    h.Some? && h.value.dim >= 0 && IsPerfectSquare(h.value.dim)
  }

  /** A puzzle as the reader hands it on: a square grid whose side is a
      perfect square and whose values lie in [0, side]. */
  predicate WellFormed(g: seq<seq<int>>)
  {
    Puzzle(g, |g|, IntSqrt(|g|))
  }

  /** A puzzle is accepted exactly when its header is good and every one of
      its rows is good. */
  lemma AcceptedIff(lines: seq<string>, at: nat)
    ensures ReadPuzzle(lines, at).outcome.Accepted? <==>
            GoodHeader(lines, at) &&
            var dim := ParseHeader(Line(lines, at)).value.dim;
            var start := at + 1;
            forall i :: 0 <= i < dim ==> RowOk(RowTokens(lines, start, i), dim)
  {
    if GoodHeader(lines, at) {
      RowsOkIff(lines, at + 1, ParseHeader(Line(lines, at)).value.dim, ParseHeader(Line(lines, at)).value.dim);
    }
  }

  /** A good header followed by `dim` good rows is accepted, and the
      cursor moves past the separator line. */
  lemma HeaderAndRowsAccepted(lines: seq<string>, at: nat, h: Header, rows: seq<seq<int>>)
    requires ParseHeader(Line(lines, at)) == Some(h)
    requires 0 <= h.dim && IntSqrt(h.dim) * IntSqrt(h.dim) == h.dim
    requires RowsState(lines, at + 1, h.dim, h.dim) == RowsOk(rows)
    ensures ReadPuzzle(lines, at) == Step(Accepted(rows, h.flag == 1), at + h.dim + 2)
  {
  }

  /** The rows of a successful row loop form a well-formed grid. */
  lemma RowsWellFormed(lines: seq<string>, start: nat, dim: nat)
    requires RowsState(lines, start, dim, dim).RowsOk?
    ensures var g := RowsState(lines, start, dim, dim).rows;
            IsGrid(g, dim) && forall r, c :: 0 <= r < dim && 0 <= c < dim ==> 0 <= g[r][c] <= dim
  {
    RowsOkRows(lines, start, dim, dim);
    var g := RowsState(lines, start, dim, dim).rows;
    forall r | 0 <= r < dim
      ensures |g[r]| == dim && forall c :: 0 <= c < dim ==> 0 <= g[r][c] <= dim
    {
      assert RowOk(RowTokens(lines, start, r), dim);
    }
  }

  /** An accepted puzzle has the header's size, the header's diagonal flag
      (set only by the value 1), the decoded rows in order, a well-formed
      grid, and the cursor moves past header, rows and separator. */
  lemma AcceptedPuzzle(lines: seq<string>, at: nat)
    requires ReadPuzzle(lines, at).outcome.Accepted?
    ensures var h := ParseHeader(Line(lines, at)).value;
            var step := ReadPuzzle(lines, at);
            var g := step.outcome.grid;
            GoodHeader(lines, at) &&
            |g| == h.dim && step.outcome.diagonal == (h.flag == 1) &&
            step.next == at + |g| + 2 && WellFormed(g) &&
            var start := at + 1;
            forall i :: 0 <= i < |g| ==>
              RowOk(RowTokens(lines, start, i), |g|) && g[i] == DecodeTokens(RowTokens(lines, start, i)).value
  {
    var dim: nat := ParseHeader(Line(lines, at)).value.dim;
    RowsOkRows(lines, at + 1, dim, dim);
    RowsWellFormed(lines, at + 1, dim);
  }

  /** A rejected puzzle leaves the cursor right after the line that failed:
      the header, or the first bad row. */
  lemma RejectedPuzzle(lines: seq<string>, at: nat)
    requires ReadPuzzle(lines, at).outcome.Rejected?
    ensures var next := ReadPuzzle(lines, at).next;
            if !GoodHeader(lines, at) then next == at + 1
            else
              var dim := ParseHeader(Line(lines, at)).value.dim;
              var start := at + 1;
              start < next <= start + dim &&
              !RowOk(RowTokens(lines, start, next - start - 1), dim) &&
              forall i :: 0 <= i < next - start - 1 ==> RowOk(RowTokens(lines, start, i), dim)
  {
    if GoodHeader(lines, at) {
      var dim: nat := ParseHeader(Line(lines, at)).value.dim;
      RowsFailedAt(lines, at + 1, dim, dim);
    }
  }

  /** When the steps from `cursors[0] == 1`, `cursors[1]`, ... all accept,
      each ending where the next begins, the loop collects exactly their
      grids and flags. */
  lemma {:induction false} IterateOfSteps(step: nat -> Step, grids: seq<seq<seq<int>>>, flags: seq<bool>,
                                          cursors: seq<nat>, k: nat)
    requires |grids| == |flags| == k && |cursors| == k + 1 && cursors[0] == 1
    requires forall i :: 0 <= i < k ==> step(cursors[i]) == Step(Accepted(grids[i], flags[i]), cursors[i + 1])
    ensures Iterate(step, k) == State(grids, flags, cursors[k])
  {
    if k > 0 {
      IterateOfSteps(step, grids[..k - 1], flags[..k - 1], cursors[..k], k - 1);
      assert grids == grids[..k - 1] + [grids[k - 1]];
      assert flags == flags[..k - 1] + [flags[k - 1]];
    }
  }

  /** A step that only accepts well-formed grids and always moves the
      cursor forward yields, after `k` iterations, at most `k` well-formed
      grids, one flag per grid, and a cursor past line `k`. */
  lemma {:induction false} IterateShape(step: nat -> Step, k: nat)
    requires forall c: nat :: step(c).next >= c + 1 &&
                              (step(c).outcome.Accepted? ==> WellFormed(step(c).outcome.grid))
    ensures var st := Iterate(step, k);
            |st.sudokus| == |st.flags| <= k && st.cursor >= k + 1 &&
            forall j :: 0 <= j < |st.sudokus| ==> WellFormed(st.sudokus[j])
  {
    if k > 0 {
      IterateShape(step, k - 1);
    }
  }

  /** The puzzle loop over any file collects only well-formed grids, one
      flag per grid, at most one grid per iteration. */
  lemma ReadStateShape(lines: seq<string>, k: nat)
    ensures var st := ReadState(lines, k);
            |st.sudokus| == |st.flags| <= k && st.cursor >= k + 1 &&
            forall j :: 0 <= j < |st.sudokus| ==> WellFormed(st.sudokus[j])
  {
    var step := PuzzleStep(lines);
    forall c: nat
      ensures step(c).next >= c + 1 && (step(c).outcome.Accepted? ==> WellFormed(step(c).outcome.grid))
    {
      if step(c).outcome.Accepted? {
        AcceptedPuzzle(lines, c);
      } else {
        RejectedPuzzle(lines, c);
      }
    }
    IterateShape(step, k);
  }

  /** `read_sudokus_from_file` returns as many flags as grids, no more than
      the count on the first line, nothing when that line is not an
      integer, and only grids that `validate_sudoku_input` accepts, except
      the empty grid a size-0 header yields. */
  lemma ReadSudokusShape(lines: seq<string>)
    ensures var (sudokus, flags) := ReadSudokus(lines);
            |sudokus| == |flags| &&
            (NumSudokus(lines).None? ==> sudokus == []) &&
            (NumSudokus(lines).Some? ==> |sudokus| <= if NumSudokus(lines).value > 0 then NumSudokus(lines).value else 0) &&
            forall j :: 0 <= j < |sudokus| ==>
              WellFormed(sudokus[j]) &&
              (sudokus[j] != [] <==> Validator.ValidInput(Validator.IntGrid(sudokus[j])))
  {
    var (sudokus, flags) := ReadSudokus(lines);
    if NumSudokus(lines).Some? {
      var num := NumSudokus(lines).value;
      ReadStateShape(lines, if num > 0 then num else 0);
    }
    forall j | 0 <= j < |sudokus|
      ensures sudokus[j] != [] <==> Validator.ValidInput(Validator.IntGrid(sudokus[j]))
    {
      Validator.ValidIntGrid(sudokus[j]);
    }
  }
}
