/** What the constraint families contain: which constraints, over which
    variables, and how many. */
module ConstraintFacts {
  import opened Rules
  import opened Arith
  import opened Counting
  import opened Constraints

  lemma {:induction false} FlattenMember<T>(ss: seq<seq<T>>, x: T)
    ensures x in Flatten(ss) <==> exists i, j :: 0 <= i < |ss| && 0 <= j < |ss[i]| && x == ss[i][j]
  {
    if ss != [] {
      var k := |ss| - 1;
      FlattenMember(ss[..k], x);
      assert forall i :: 0 <= i < k ==> ss[..k][i] == ss[i];
    }
  }

  // ---------------------------------------------------------------------
  // Membership in each family.

  lemma ColFamilyMember(n: nat, c: Constraint)
    ensures c in ColFamily(n) <==>
            exists col, v :: 0 <= col < n && 1 <= v <= n && c == ColConstraint(n, col, v)
  {
    FlattenMember(seq(n, col => ColBlock(n, col)), c);
    if c in ColFamily(n) {
      var i, j :| 0 <= i < n && 0 <= j < n && c == ColBlock(n, i)[j];
      assert c == ColConstraint(n, i, j + 1);
    }
    if exists col, v :: 0 <= col < n && 1 <= v <= n && c == ColConstraint(n, col, v) {
      var col, v :| 0 <= col < n && 1 <= v <= n && c == ColConstraint(n, col, v);
      assert c == seq(n, col => ColBlock(n, col))[col][v - 1];
    }
  }

  lemma RowFamilyMember(n: nat, c: Constraint)
    ensures c in RowFamily(n) <==>
            exists row, v :: 0 <= row < n && 1 <= v <= n && c == RowConstraint(n, row, v)
  {
    FlattenMember(seq(n, row => RowBlock(n, row)), c);
    if c in RowFamily(n) {
      var i, j :| 0 <= i < n && 0 <= j < n && c == RowBlock(n, i)[j];
      assert c == RowConstraint(n, i, j + 1);
    }
    if exists row, v :: 0 <= row < n && 1 <= v <= n && c == RowConstraint(n, row, v) {
      var row, v :| 0 <= row < n && 1 <= v <= n && c == RowConstraint(n, row, v);
      assert c == seq(n, row => RowBlock(n, row))[row][v - 1];
    }
  }

  lemma CellFamilyMember(n: nat, c: Constraint)
    ensures c in CellFamily(n) <==>
            exists row, col :: 0 <= row < n && 0 <= col < n && c == CellConstraint(n, row, col)
  {
    FlattenMember(seq(n, row => CellBlock(n, row)), c);
    if c in CellFamily(n) {
      var i, j :| 0 <= i < n && 0 <= j < n && c == CellBlock(n, i)[j];
      assert c == CellConstraint(n, i, j);
    }
    if exists row, col :: 0 <= row < n && 0 <= col < n && c == CellConstraint(n, row, col) {
      var row, col :| 0 <= row < n && 0 <= col < n && c == CellConstraint(n, row, col);
      assert c == seq(n, row => CellBlock(n, row))[row][col];
    }
  }

  lemma BoxRowMember(n: nat, m: nat, gr: int, c: Constraint)
    ensures c in BoxRow(n, m, gr) <==>
            exists gc, v :: 0 <= gc < m && 1 <= v <= n && c == BoxConstraint(m, gr, gc, v)
  {
    FlattenMember(seq(m, gc => BoxBlock(n, m, gr, gc)), c);
    if c in BoxRow(n, m, gr) {
      var i, j :| 0 <= i < m && 0 <= j < n && c == BoxBlock(n, m, gr, i)[j];
      assert c == BoxConstraint(m, gr, i, j + 1);
    }
    if exists gc, v :: 0 <= gc < m && 1 <= v <= n && c == BoxConstraint(m, gr, gc, v) {
      var gc, v :| 0 <= gc < m && 1 <= v <= n && c == BoxConstraint(m, gr, gc, v);
      assert c == seq(m, gc => BoxBlock(n, m, gr, gc))[gc][v - 1];
    }
  }

  lemma BoxFamilyMember(n: nat, m: nat, c: Constraint)
    ensures c in BoxFamily(n, m) <==>
            exists gr, gc, v :: 0 <= gr < m && 0 <= gc < m && 1 <= v <= n &&
                                c == BoxConstraint(m, gr, gc, v)
  {
    FlattenMember(seq(m, gr => BoxRow(n, m, gr)), c);
    if c in BoxFamily(n, m) {
      var i, j :| 0 <= i < m && 0 <= j < |BoxRow(n, m, i)| && c == BoxRow(n, m, i)[j];
      BoxRowMember(n, m, i, c);
    }
    if exists gr, gc, v :: 0 <= gr < m && 0 <= gc < m && 1 <= v <= n &&
                           c == BoxConstraint(m, gr, gc, v) {
      var gr, gc, v :| 0 <= gr < m && 0 <= gc < m && 1 <= v <= n &&
                       c == BoxConstraint(m, gr, gc, v);
      BoxRowMember(n, m, gr, c);
      var j :| 0 <= j < |BoxRow(n, m, gr)| && c == BoxRow(n, m, gr)[j];
      assert c == seq(m, gr => BoxRow(n, m, gr))[gr][j];
    }
  }

  lemma {:induction false} ClueRowMember(g: seq<seq<int>>, row: nat, cols: nat, c: Constraint)
    requires row < |g| && cols <= |g[row]|
    ensures c in ClueRow(g, row, cols) <==>
            exists col :: 0 <= col < cols && g[row][col] != 0 && c == ClueConstraint(row, col, g[row][col])
  {
    if cols > 0 {
      ClueRowMember(g, row, cols - 1, c);
    }
  }

  lemma ClueFamilyMember(g: seq<seq<int>>, n: nat, c: Constraint)
    requires IsGrid(g, n)
    ensures c in ClueFamily(g, n) <==>
            exists row, col :: 0 <= row < n && 0 <= col < n && g[row][col] != 0 &&
                               c == ClueConstraint(row, col, g[row][col])
  {
    var rows := seq(n, row requires 0 <= row < n => ClueRow(g, row, n));
    FlattenMember(rows, c);
    if c in ClueFamily(g, n) {
      var i, j :| 0 <= i < n && 0 <= j < |rows[i]| && c == rows[i][j];
      ClueRowMember(g, i, n, c);
    }
    if exists row, col :: 0 <= row < n && 0 <= col < n && g[row][col] != 0 &&
                          c == ClueConstraint(row, col, g[row][col]) {
      var row, col :| 0 <= row < n && 0 <= col < n && g[row][col] != 0 &&
                      c == ClueConstraint(row, col, g[row][col]);
      ClueRowMember(g, row, n, c);
      var j :| 0 <= j < |rows[row]| && c == rows[row][j];
    }
  }

  lemma DiagonalFamilyMember(n: nat, c: Constraint)
    ensures c in DiagonalFamily(n) <==>
            exists v :: 1 <= v <= n && (c == Diagonal1Constraint(n, v) || c == Diagonal2Constraint(n, v))
  {
    var d1 := seq(n, k => Diagonal1Constraint(n, k + 1));
    var d2 := seq(n, k => Diagonal2Constraint(n, k + 1));
    if exists v :: 1 <= v <= n && (c == Diagonal1Constraint(n, v) || c == Diagonal2Constraint(n, v)) {
      var v :| 1 <= v <= n && (c == Diagonal1Constraint(n, v) || c == Diagonal2Constraint(n, v));
      assert c == d1[v - 1] || c == d2[v - 1];
    }
  }

  // ---------------------------------------------------------------------
  // Index bounds.

  /** Every cell `(grid_row*m + row, grid_col*m + col)` of a box lies in
      the grid. */
  lemma BoxUnitInRange(m: nat, gr: int, gc: int, k: int)
    requires 0 <= gr < m && 0 <= gc < m && 0 <= k < m * m
    ensures 0 <= BoxUnit(m, gr, gc)[k].row < m * m
    ensures 0 <= BoxUnit(m, gr, gc)[k].col < m * m
  {
    SplitIndex(k, m);
    BoxOffsetBound(gr, k / m, m);
    BoxOffsetBound(gc, k % m, m);
  }

  /** The variables of a constraint all exist in the n x n x n cube. */
  predicate VarsInCube(c: Constraint, n: nat)
  {
    forall i :: 0 <= i < |c.vars| ==> InCube(c.vars[i], n)
  }

  /** Every variable that any constraint of the model uses lies in the cube:
      rows and columns in [0, n), values in [1, n]; this covers the box
      offsets and the anti-diagonal column `n - 1 - i`. */
  lemma ModelInRange(n: nat, m: nat, g: seq<seq<int>>, diagonal: bool)
    requires Puzzle(g, n, m)
    ensures forall c :: c in Model(n, m, g, diagonal) ==> VarsInCube(c, n)
  {
    forall c | c in Model(n, m, g, diagonal) ensures VarsInCube(c, n) {
      if c in ColFamily(n) {
        ColFamilyMember(n, c);
      } else if c in RowFamily(n) {
        RowFamilyMember(n, c);
      } else if c in CellFamily(n) {
        CellFamilyMember(n, c);
      } else if c in BoxFamily(n, m) {
        BoxInRange(n, m, c);
      } else if c in ClueFamily(g, n) {
        ClueFamilyMember(g, n, c);
      } else {
        DiagonalFamilyMember(n, c);
      }
    }
  }

  /** Every box constraint ranges over variables of the cube. */
  lemma BoxInRange(n: nat, m: nat, c: Constraint)
    requires m * m == n && c in BoxFamily(n, m)
    ensures VarsInCube(c, n)
  {
    BoxFamilyMember(n, m, c);
    var gr, gc, v :| 0 <= gr < m && 0 <= gc < m && 1 <= v <= n && c == BoxConstraint(m, gr, gc, v);
    forall k | 0 <= k < |c.vars| ensures InCube(c.vars[k], n) {
      BoxUnitInRange(m, gr, gc, k);
    }
  }

  /** Every column, row, cell, box and diagonal constraint sums exactly n
      variables; every clue constraint fixes one. */
  lemma ConstraintWidths(n: nat, m: nat, g: seq<seq<int>>, diagonal: bool, c: Constraint)
    requires Puzzle(g, n, m)
    requires c in Model(n, m, g, diagonal)
    ensures c.name.Prefilled? ==> |c.vars| == 1
    ensures !c.name.Prefilled? ==> |c.vars| == n
  {
    ColFamilyMember(n, c);
    RowFamilyMember(n, c);
    CellFamilyMember(n, c);
    BoxFamilyMember(n, m, c);
    ClueFamilyMember(g, n, c);
    DiagonalFamilyMember(n, c);
  }

  lemma BoxCellAt(m: nat, r: int, c: int)
    requires 0 <= r < m * m && 0 <= c < m * m
    ensures 0 <= (r % m) * m + c % m < m * m
    ensures BoxUnit(m, r / m, c / m)[(r % m) * m + c % m] == Pos(r, c)
  {
    assert m > 0;
    var k := (r % m) * m + c % m;
    BoxOffsetBound(r % m, c % m, m);
    DivModOf(r % m, m, c % m);
    assert k / m == r % m && k % m == c % m;
    assert (r / m) * m + r % m == r;
    assert (c / m) * m + c % m == c;
  }

  lemma BoxOfCell(m: nat, gr: int, gc: int, k: int)
    requires 0 <= gr < m && 0 <= gc < m && 0 <= k < m * m
    ensures BoxUnit(m, gr, gc)[k].row / m == gr
    ensures BoxUnit(m, gr, gc)[k].col / m == gc
  {
    SplitIndex(k, m);
    DivModOf(gr, m, k / m);
    DivModOf(gc, m, k % m);
  }

  /** The m * m boxes partition the grid: cell (r, c) lies in box
      (r / m, c / m), at position (r % m) * m + c % m, and in no other. */
  lemma BoxPartition(m: nat, r: int, c: int, gr: int, gc: int)
    requires 0 <= r < m * m && 0 <= c < m * m && 0 <= gr < m && 0 <= gc < m
    ensures Pos(r, c) in BoxUnit(m, gr, gc) <==> gr == r / m && gc == c / m
  {
    if gr == r / m && gc == c / m {
      BoxCellAt(m, r, c);
    }
    if Pos(r, c) in BoxUnit(m, gr, gc) {
      var k :| 0 <= k < m * m && BoxUnit(m, gr, gc)[k] == Pos(r, c);
      BoxOfCell(m, gr, gc, k);
    }
  }
}
