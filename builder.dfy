/** `setup_problem`, `create_sudoku_constraints` and
    `add_diagonal_sudoku_constraints` (sudoku_solver.py:42-102): the problem
    object and the nested loops that append constraints to it. The decision
    variables are the triples of `Constraints.InCube`; the objective is the
    constant 0 and carries no state. */
module Builder {
  import opened Rules
  import opened Constraints
  import opened ConstraintFacts

  lemma FlattenStep<T>(ss: seq<seq<T>>, i: nat)
    requires i < |ss|
    ensures Flatten(ss[..i + 1]) == Flatten(ss[..i]) + ss[i]
  {
    assert ss[..i + 1][..i] == ss[..i];
  }

  lemma FlattenAll<T>(ss: seq<seq<T>>)
    ensures Flatten(ss[..|ss|]) == Flatten(ss)
  {
    assert ss[..|ss|] == ss;
  }

  lemma Associate<T>(a: seq<T>, b: seq<T>, c: seq<T>)
    ensures a + b + c == a + (b + c)
  {
  }

  /** The ILP problem: the grid size and the constraints added so far. */
  class Problem {
    const n: nat
    var constraints: seq<Constraint>

    /** `setup_problem(n, n)`: a problem over the n x n x n binary cube with
        no constraints yet. */
    constructor (size: nat)
      ensures n == size && constraints == []
    {
      n := size;
      constraints := [];
    }

    /** `prob.addConstraint`. */
    method AddConstraint(c: Constraint)
      modifies this
      ensures constraints == old(constraints) + [c]
    {
      constraints := constraints + [c];
    }

    /** sudoku_solver.py:60-62: the values of one column. */
    method AddColumnBlock(col: nat)
      modifies this
      ensures constraints == old(constraints) + ColBlock(n, col)
    {
      for value := 1 to n + 1
        invariant constraints == old(constraints) + ColBlock(n, col)[..value - 1]
      {
        AddConstraint(ColConstraint(n, col, value));
        assert ColBlock(n, col)[..value] == ColBlock(n, col)[..value - 1] + [ColConstraint(n, col, value)];
      }
      assert ColBlock(n, col)[..n] == ColBlock(n, col);
    }

    /** sudoku_solver.py:59-62: one constraint per (col, value). */
    method AddColumnConstraints()
      modifies this
      ensures constraints == old(constraints) + ColFamily(n)
    {
      ghost var blocks := seq(n, col => ColBlock(n, col));
      for col := 0 to n
        invariant constraints == old(constraints) + Flatten(blocks[..col])
      {
        AddColumnBlock(col);
        FlattenStep(blocks, col);
      }
      FlattenAll(blocks);
    }

    /** sudoku_solver.py:66-68: the values of one row. */
    method AddRowBlock(row: nat)
      modifies this
      ensures constraints == old(constraints) + RowBlock(n, row)
    {
      for value := 1 to n + 1
        invariant constraints == old(constraints) + RowBlock(n, row)[..value - 1]
      {
        AddConstraint(RowConstraint(n, row, value));
        assert RowBlock(n, row)[..value] == RowBlock(n, row)[..value - 1] + [RowConstraint(n, row, value)];
      }
      assert RowBlock(n, row)[..n] == RowBlock(n, row);
    }

    /** sudoku_solver.py:65-68: one constraint per (row, value). */
    method AddRowConstraints()
      modifies this
      ensures constraints == old(constraints) + RowFamily(n)
    {
      ghost var blocks := seq(n, row => RowBlock(n, row));
      for row := 0 to n
        invariant constraints == old(constraints) + Flatten(blocks[..row])
      {
        AddRowBlock(row);
        FlattenStep(blocks, row);
      }
      FlattenAll(blocks);
    }

    /** sudoku_solver.py:72-74: the cells of one row. */
    method AddCellBlock(row: nat)
      modifies this
      ensures constraints == old(constraints) + CellBlock(n, row)
    {
      for col := 0 to n
        invariant constraints == old(constraints) + CellBlock(n, row)[..col]
      {
        AddConstraint(CellConstraint(n, row, col));
        assert CellBlock(n, row)[..col + 1] == CellBlock(n, row)[..col] + [CellConstraint(n, row, col)];
      }
      assert CellBlock(n, row)[..n] == CellBlock(n, row);
    }

    /** sudoku_solver.py:71-74: one constraint per cell. */
    method AddCellConstraints()
      modifies this
      ensures constraints == old(constraints) + CellFamily(n)
    {
      ghost var blocks := seq(n, row => CellBlock(n, row));
      for row := 0 to n
        invariant constraints == old(constraints) + Flatten(blocks[..row])
      {
        AddCellBlock(row);
        FlattenStep(blocks, row);
      }
      FlattenAll(blocks);
    }

    /** sudoku_solver.py:78-83: the boxes of one band, for one `grid_row`. */
    method AddBoxRow(m: nat, gridRow: nat)
      modifies this
      ensures constraints == old(constraints) + BoxRow(n, m, gridRow)
    {
      ghost var blocks := seq(m, gc => BoxBlock(n, m, gridRow, gc));
      for gridCol := 0 to m
        invariant constraints == old(constraints) + Flatten(blocks[..gridCol])
      {
        ghost var block := BoxBlock(n, m, gridRow, gridCol);
        for value := 1 to n + 1
          invariant constraints == old(constraints) + Flatten(blocks[..gridCol]) + block[..value - 1]
        {
          AddConstraint(BoxConstraint(m, gridRow, gridCol, value));
          assert block[..value] == block[..value - 1] + [BoxConstraint(m, gridRow, gridCol, value)];
        }
        assert block[..n] == blocks[gridCol];
        FlattenStep(blocks, gridCol);
      }
      FlattenAll(blocks);
    }

    /** sudoku_solver.py:77-83: one constraint per (box row, box column,
        value). */
    method AddBoxConstraints(m: nat)
      modifies this
      ensures constraints == old(constraints) + BoxFamily(n, m)
    {
      ghost var rows := seq(m, gr => BoxRow(n, m, gr));
      for gridRow := 0 to m
        invariant constraints == old(constraints) + Flatten(rows[..gridRow])
      {
        AddBoxRow(m, gridRow);
        FlattenStep(rows, gridRow);
      }
      FlattenAll(rows);
    }

    /** sudoku_solver.py:86-91: one constraint per nonzero cell, fixing its
        variable to 1. */
    method AddClueConstraints(g: seq<seq<int>>)
      requires IsGrid(g, n)
      modifies this
      ensures constraints == old(constraints) + ClueFamily(g, n)
    {
      ghost var rows := seq(n, row requires 0 <= row < n => ClueRow(g, row, n));
      for row := 0 to n
        invariant constraints == old(constraints) + Flatten(rows[..row])
      {
        for col := 0 to n
          invariant constraints == old(constraints) + Flatten(rows[..row]) + ClueRow(g, row, col)
        {
          if g[row][col] != 0 {
            AddConstraint(ClueConstraint(row, col, g[row][col]));
          }
        }
        FlattenStep(rows, row);
      }
      FlattenAll(rows);
    }

    /** `create_sudoku_constraints` on a validated puzzle: the column, row,
        cell, box and clue families, in that order. */
    method CreateSudokuConstraints(m: nat, g: seq<seq<int>>)
      requires Puzzle(g, n, m)
      modifies this
      ensures constraints == old(constraints) + SudokuConstraints(n, m, g)
    {
      ghost var start := constraints;
      AddColumnConstraints();
      AddRowConstraints();
      Associate(start, ColFamily(n), RowFamily(n));
      AddCellConstraints();
      Associate(start, ColFamily(n) + RowFamily(n), CellFamily(n));
      AddBoxConstraints(m);
      Associate(start, ColFamily(n) + RowFamily(n) + CellFamily(n), BoxFamily(n, m));
      AddClueConstraints(g);
      Associate(start, ColFamily(n) + RowFamily(n) + CellFamily(n) + BoxFamily(n, m), ClueFamily(g, n));
    }

    /** `add_diagonal_sudoku_constraints`: one constraint per value on the
        main diagonal, then one per value on the anti-diagonal. */
    method AddDiagonalSudokuConstraints()
      modifies this
      ensures constraints == old(constraints) + DiagonalFamily(n)
    {
      for value := 1 to n + 1
        invariant constraints == old(constraints) + seq(value - 1, k => Diagonal1Constraint(n, k + 1))
      {
        AddConstraint(Diagonal1Constraint(n, value));
      }
      ghost var mid := constraints;
      for value := 1 to n + 1
        invariant constraints == mid + seq(value - 1, k => Diagonal2Constraint(n, k + 1))
      {
        AddConstraint(Diagonal2Constraint(n, value));
      }
    }
  }

  /** The model part of `solver`: set the problem up, add the standard
      constraints and, when asked, the diagonal ones. */
  method BuildModel(g: seq<seq<int>>, n: nat, m: nat, diagonal: bool) returns (p: Problem)
    requires Puzzle(g, n, m)
    ensures fresh(p) && p.n == n
    ensures p.constraints == Model(n, m, g, diagonal)
  {
    p := new Problem(n);
    p.CreateSudokuConstraints(m, g);
    if diagonal {
      p.AddDiagonalSudokuConstraints();
    }
  }
}
