/** The constraint system that `create_sudoku_constraints` and
    `add_diagonal_sudoku_constraints` hand to the ILP library, written as
    data: every constraint says that a list of 0/1 decision variables sums
    to exactly 1. */
module Constraints {
  import opened Rules
  import opened Arith
  import opened Counting

  /** The decision variable `grid_value[row][col][value]`. */
  datatype Var = Var(row: int, col: int, value: int)

  /** A cell of the grid. */
  datatype Pos = Pos(row: int, col: int)

  /** The constraint names of sudoku_solver.py, as structured data. */
  datatype Name =
    | ColValue(col: int, value: int)
    | RowValue(row: int, value: int)
    | Cell(row: int, col: int)
    | Subgrid(gridRow: int, gridCol: int, value: int)
    | Prefilled(row: int, col: int)
    | Diagonal1(value: int)
    | Diagonal2(value: int)

  /** `lpSum(vars) == 1`. */
  datatype Constraint = Constraint(name: Name, vars: seq<Var>)

  /** A 0/1 assignment of the decision variables, as returned by the solver. */
  type Cube = Var -> bool

  /** The variables that `setup_problem` declares for an n x n grid. */
  predicate InCube(x: Var, n: nat)
  {
    0 <= x.row < n && 0 <= x.col < n && 1 <= x.value <= n
  }

  /** The value of `lpSum` over `vs` under `cube`. */
  function Count(cube: Cube, vs: seq<Var>): (k: nat)
    ensures k <= |vs|
  {
    if vs == [] then 0 else (if cube(vs[0]) then 1 else 0) + Count(cube, vs[1..])
  }

  /** The cube meets every constraint of `cs`. */
  predicate Satisfies(cube: Cube, cs: seq<Constraint>)
  {
    forall c :: c in cs ==> Count(cube, c.vars) == 1
  }

  /** Concatenation of a list of lists, the order in which nested loops
      append. */
  function Flatten<T>(ss: seq<seq<T>>): seq<T>
  {
    if ss == [] then [] else Flatten(ss[..|ss| - 1]) + ss[|ss| - 1]
  }

  // ---------------------------------------------------------------------
  // The cells a constraint ranges over, in the order the source lists them.

  function ColUnit(n: nat, col: int): seq<Pos>
  {
    seq(n, row => Pos(row, col))
  }

  function RowUnit(n: nat, row: int): seq<Pos>
  {
    seq(n, col => Pos(row, col))
  }

  /** `grid_row*m+row, grid_col*m+col for row in range(m) for col in range(m)`. */
  function BoxUnit(m: nat, gridRow: int, gridCol: int): seq<Pos>
  {
    seq(m * m, k requires 0 <= k < m * m => Pos(gridRow * m + k / m, gridCol * m + k % m))
  }

  function Diagonal1Unit(n: nat): seq<Pos>
  {
    seq(n, i => Pos(i, i))
  }

  /** `grid_vars[i][len(rows)-i-1]`. */
  function Diagonal2Unit(n: nat): seq<Pos>
  {
    seq(n, i => Pos(i, n - i - 1))
  }

  /** The variables for `value` at the cells of a unit. */
  function VarsAt(u: seq<Pos>, value: int): seq<Var>
  {
    seq(|u|, i requires 0 <= i < |u| => Var(u[i].row, u[i].col, value))
  }

  // ---------------------------------------------------------------------
  // One constraint of each family.

  function ColConstraint(n: nat, col: int, value: int): Constraint
  {
    Constraint(ColValue(col, value), VarsAt(ColUnit(n, col), value))
  }

  function RowConstraint(n: nat, row: int, value: int): Constraint
  {
    Constraint(RowValue(row, value), VarsAt(RowUnit(n, row), value))
  }

  function CellConstraint(n: nat, row: int, col: int): Constraint
  {
    Constraint(Cell(row, col), seq(n, k => Var(row, col, k + 1)))
  }

  function BoxConstraint(m: nat, gridRow: int, gridCol: int, value: int): Constraint
  {
    Constraint(Subgrid(gridRow, gridCol, value), VarsAt(BoxUnit(m, gridRow, gridCol), value))
  }

  /** `grid_vars[row][col][value] == 1`: a sum over the single variable. */
  function ClueConstraint(row: int, col: int, value: int): Constraint
  {
    Constraint(Prefilled(row, col), [Var(row, col, value)])
  }

  function Diagonal1Constraint(n: nat, value: int): Constraint
  {
    Constraint(Diagonal1(value), VarsAt(Diagonal1Unit(n), value))
  }

  function Diagonal2Constraint(n: nat, value: int): Constraint
  {
    Constraint(Diagonal2(value), VarsAt(Diagonal2Unit(n), value))
  }

  // ---------------------------------------------------------------------
  // The families, in the order of the loops of sudoku_solver.py:59-102.

  /** Loop body of "for col in cols: for value in values". */
  function ColBlock(n: nat, col: int): seq<Constraint>
  {
    seq(n, k => ColConstraint(n, col, k + 1))
  }

  function ColFamily(n: nat): seq<Constraint>
  {
    Flatten(seq(n, col => ColBlock(n, col)))
  }

  function RowBlock(n: nat, row: int): seq<Constraint>
  {
    seq(n, k => RowConstraint(n, row, k + 1))
  }

  function RowFamily(n: nat): seq<Constraint>
  {
    Flatten(seq(n, row => RowBlock(n, row)))
  }

  function CellBlock(n: nat, row: int): seq<Constraint>
  {
    seq(n, col => CellConstraint(n, row, col))
  }

  function CellFamily(n: nat): seq<Constraint>
  {
    Flatten(seq(n, row => CellBlock(n, row)))
  }

  function BoxBlock(n: nat, m: nat, gridRow: int, gridCol: int): seq<Constraint>
  {
    seq(n, k => BoxConstraint(m, gridRow, gridCol, k + 1))
  }

  function BoxRow(n: nat, m: nat, gridRow: int): seq<Constraint>
  {
    Flatten(seq(m, gridCol => BoxBlock(n, m, gridRow, gridCol)))
  }

  function BoxFamily(n: nat, m: nat): seq<Constraint>
  {
    Flatten(seq(m, gridRow => BoxRow(n, m, gridRow)))
  }

  /** The clue constraints of the first `cols` columns of one row. */
  function ClueRow(g: seq<seq<int>>, row: nat, cols: nat): seq<Constraint>
    requires row < |g| && cols <= |g[row]|
  {
    if cols == 0 then []
    else
      ClueRow(g, row, cols - 1) +
      (if g[row][cols - 1] != 0 then [ClueConstraint(row, cols - 1, g[row][cols - 1])] else [])
  }

  function ClueFamily(g: seq<seq<int>>, n: nat): seq<Constraint>
    requires IsGrid(g, n)
  {
    Flatten(seq(n, row requires 0 <= row < n => ClueRow(g, row, n)))
  }

  /** Everything `create_sudoku_constraints` adds: for an m*m = n grid,
      4 * n * n column, row, cell and box constraints and one per clue. */
  function SudokuConstraints(n: nat, m: nat, g: seq<seq<int>>): (cs: seq<Constraint>)
    requires IsGrid(g, n)
    ensures m * m == n ==> |cs| == 4 * (n * n) + CluesIn(g)
  {
    var cs := ColFamily(n) + RowFamily(n) + CellFamily(n) + BoxFamily(n, m) + ClueFamily(g, n);
    if m * m == n then SudokuSize(n, m, g); cs else cs
  }

  /** Everything `add_diagonal_sudoku_constraints` adds. */
  function DiagonalFamily(n: nat): seq<Constraint>
  {
    seq(n, k => Diagonal1Constraint(n, k + 1)) + seq(n, k => Diagonal2Constraint(n, k + 1))
  }

  /** The whole constraint set of one puzzle, as `solver` assembles it:
      4 * n * n structural constraints, one per clue and, with the diagonal
      rule, 2 * n more. */
  function Model(n: nat, m: nat, g: seq<seq<int>>, diagonal: bool): (cs: seq<Constraint>)
    requires IsGrid(g, n)
    ensures m * m == n ==> |cs| == 4 * (n * n) + CluesIn(g) + (if diagonal then 2 * n else 0)
  {
    SudokuConstraints(n, m, g) + (if diagonal then DiagonalFamily(n) else [])
  }

  // ---------------------------------------------------------------------
  // Sizes.

  lemma {:induction false} FlattenLength<T>(ss: seq<seq<T>>, w: nat)
    requires forall i :: 0 <= i < |ss| ==> |ss[i]| == w
    ensures |Flatten(ss)| == |ss| * w
  {
    if ss != [] {
      var k := |ss| - 1;
      FlattenLength(ss[..k], w);
      assert |Flatten(ss)| == k * w + w;
    }
  }

  /** The number of nonzero cells (clues) of a grid. */
  function CluesIn(g: seq<seq<int>>): nat
  {
    if g == [] then 0 else CluesIn(g[..|g| - 1]) + (|g[|g| - 1]| - Occ(g[|g| - 1], 0))
  }

  lemma {:induction false} OccSnoc(s: seq<int>, x: int, v: int)
    ensures Occ(s + [x], v) == Occ(s, v) + (if x == v then 1 else 0)
  {
    if s != [] {
      assert (s + [x])[1..] == s[1..] + [x];
      OccSnoc(s[1..], x, v);
    }
  }

  lemma {:induction false} ClueRowLength(g: seq<seq<int>>, row: nat, cols: nat)
    requires row < |g| && cols <= |g[row]|
    ensures |ClueRow(g, row, cols)| == cols - Occ(g[row][..cols], 0)
  {
    if cols > 0 {
      ClueRowLength(g, row, cols - 1);
      assert g[row][..cols] == g[row][..cols - 1] + [g[row][cols - 1]];
      OccSnoc(g[row][..cols - 1], g[row][cols - 1], 0);
    }
  }

  lemma {:induction false} ClueRowsLength(g: seq<seq<int>>, n: nat, k: nat)
    requires IsGrid(g, n) && k <= n
    ensures |Flatten(seq(k, row requires 0 <= row < k => ClueRow(g, row, n)))| == CluesIn(g[..k])
  {
    if k > 0 {
      var rows := seq(k, row requires 0 <= row < k => ClueRow(g, row, n));
      ClueRowsLength(g, n, k - 1);
      assert rows[..k - 1] == seq(k - 1, row requires 0 <= row < k - 1 => ClueRow(g, row, n));
      assert g[..k][..k - 1] == g[..k - 1];
      ClueRowLength(g, k - 1, n);
      assert g[k - 1][..n] == g[k - 1];
    }
  }

  lemma BoxFamilyLength(n: nat, m: nat)
    ensures |BoxFamily(n, m)| == m * (m * n)
  {
    forall gr | 0 <= gr < m ensures |BoxRow(n, m, gr)| == m * n {
      FlattenLength(seq(m, gc => BoxBlock(n, m, gr, gc)), n);
    }
    FlattenLength(seq(m, gr => BoxRow(n, m, gr)), m * n);
  }

  /** The model has 4 * (n * n) structural constraints (column, row, cell and
      box), one clue constraint per nonzero cell, and 2 * n diagonal
      constraints when the diagonal variant is on. */
  lemma StructuralSize(n: nat, m: nat)
    requires m * m == n
    ensures |ColFamily(n)| == n * n && |RowFamily(n)| == n * n
    ensures |CellFamily(n)| == n * n && |BoxFamily(n, m)| == n * n
  {
    FlattenLength(seq(n, col => ColBlock(n, col)), n);
    FlattenLength(seq(n, row => RowBlock(n, row)), n);
    FlattenLength(seq(n, row => CellBlock(n, row)), n);
    BoxFamilyLength(n, m);
    assert m * (m * n) == (m * m) * n;
  }

  lemma SudokuSize(n: nat, m: nat, g: seq<seq<int>>)
    requires IsGrid(g, n) && m * m == n
    ensures |ColFamily(n) + RowFamily(n) + CellFamily(n) + BoxFamily(n, m) + ClueFamily(g, n)| ==
            4 * (n * n) + CluesIn(g)
  {
    StructuralSize(n, m);
    ClueRowsLength(g, n, n);
    assert g[..n] == g;
  }
}
