/** Soundness and completeness of the constraint model: a 0/1 assignment
    meets every constraint that `create_sudoku_constraints` (and, for
    Sudoku X, `add_diagonal_sudoku_constraints`) adds exactly when it puts
    one value in every cell and the grid it decodes to is a complete, valid
    Sudoku that keeps every clue. */
module Exactness {
  import opened Rules
  import opened Arith
  import opened Counting
  import opened Constraints
  import opened ConstraintFacts
  import opened Extractor

  /** The assignment that puts value `sol[r][c]` into cell (r, c). */
  function CubeOf(sol: seq<seq<int>>): Cube
  {
    (x: Var) => 0 <= x.row < |sol| && 0 <= x.col < |sol[x.row]| && sol[x.row][x.col] == x.value
  }

  predicate UnitInGrid(u: seq<Pos>, n: nat)
  {
    forall i :: 0 <= i < |u| ==> 0 <= u[i].row < n && 0 <= u[i].col < n
  }

  /** The value a grid holds at a cell (0 outside the grid). */
  function At(sol: seq<seq<int>>, p: Pos): int
  {
    if 0 <= p.row < |sol| && 0 <= p.col < |sol[p.row]| then sol[p.row][p.col] else 0
  }

  /** The values a grid holds at the cells of a unit. */
  function ValuesAt(sol: seq<seq<int>>, u: seq<Pos>): (vals: seq<int>)
    ensures |vals| == |u|
  {
    seq(|u|, i requires 0 <= i < |u| => At(sol, u[i]))
  }

  /** Every cell holds one of 1..n. */
  ghost predicate CellsInRange(sol: seq<seq<int>>, n: nat)
    requires IsGrid(sol, n)
  {
    forall r, c :: 0 <= r < n && 0 <= c < n ==> 1 <= sol[r][c] <= n
  }

  /** Exactly one value is set for cell (row, col). */
  ghost predicate OneValue(cube: Cube, n: nat, row: int, col: int)
  {
    (exists v :: 1 <= v <= n && cube(Var(row, col, v))) &&
    (forall v, w :: 1 <= v < w <= n ==> !cube(Var(row, col, v)) || !cube(Var(row, col, w)))
  }

  /** Every cell of the n x n grid has exactly one value set. */
  ghost predicate OneHot(cube: Cube, n: nat)
  {
    forall r, c :: 0 <= r < n && 0 <= c < n ==> OneValue(cube, n, r, c)
  }

  // ---------------------------------------------------------------------
  // Counting set variables.

  lemma {:induction false} CountAppend(cube: Cube, a: seq<Var>, b: seq<Var>)
    ensures Count(cube, a + b) == Count(cube, a) + Count(cube, b)
  {
    if a != [] {
      assert (a + b)[0] == a[0];
      assert (a + b)[1..] == a[1..] + b;
      CountAppend(cube, a[1..], b);
      assert Count(cube, a + b) == (if cube(a[0]) then 1 else 0) + Count(cube, a[1..] + b);
    } else {
      assert a + b == b;
    }
  }

  lemma {:induction false} CountAgree(c1: Cube, c2: Cube, vs: seq<Var>)
    requires forall i :: 0 <= i < |vs| ==> c1(vs[i]) == c2(vs[i])
    ensures Count(c1, vs) == Count(c2, vs)
  {
    if vs != [] {
      CountAgree(c1, c2, vs[1..]);
    }
  }

  lemma {:induction false} CountZero(cube: Cube, vs: seq<Var>)
    ensures Count(cube, vs) == 0 <==> forall i :: 0 <= i < |vs| ==> !cube(vs[i])
  {
    if vs != [] {
      CountZero(cube, vs[1..]);
      assert forall i :: 1 <= i < |vs| ==> vs[1..][i - 1] == vs[i];
    }
  }

  /** A sum of 1 comes from exactly one set variable. */
  lemma {:induction false} CountOneWitness(cube: Cube, vs: seq<Var>)
    requires Count(cube, vs) == 1
    ensures exists i :: 0 <= i < |vs| && cube(vs[i]) && forall j :: 0 <= j < |vs| && j != i ==> !cube(vs[j])
  {
    var rest := vs[1..];
    assert forall j :: 1 <= j < |vs| ==> rest[j - 1] == vs[j];
    if cube(vs[0]) {
      CountZero(cube, rest);
      assert forall j :: 0 <= j < |vs| && j != 0 ==> !cube(vs[j]);
    } else {
      CountOneWitness(cube, rest);
      var i :| 0 <= i < |rest| && cube(rest[i]) && forall j :: 0 <= j < |rest| && j != i ==> !cube(rest[j]);
      assert forall j :: 0 <= j < |vs| && j != i + 1 ==> !cube(vs[j]);
    }
  }

  /** Exactly one set variable makes the sum 1. */
  lemma {:induction false} CountOneOfWitness(cube: Cube, vs: seq<Var>, i: nat)
    requires i < |vs| && cube(vs[i]) && forall j :: 0 <= j < |vs| && j != i ==> !cube(vs[j])
    ensures Count(cube, vs) == 1
  {
    var rest := vs[1..];
    assert forall j :: 1 <= j < |vs| ==> rest[j - 1] == vs[j];
    if i == 0 {
      CountZero(cube, rest);
    } else {
      CountOneOfWitness(cube, rest, i - 1);
    }
  }

  /** The sum over `vs` is 1 exactly when one of them is set. */
  lemma CountOne(cube: Cube, vs: seq<Var>)
    ensures Count(cube, vs) == 1 <==>
            exists i :: 0 <= i < |vs| && cube(vs[i]) && forall j :: 0 <= j < |vs| && j != i ==> !cube(vs[j])
  {
    if Count(cube, vs) == 1 {
      CountOneWitness(cube, vs);
    }
    if exists i :: 0 <= i < |vs| && cube(vs[i]) && forall j :: 0 <= j < |vs| && j != i ==> !cube(vs[j]) {
      var i :| 0 <= i < |vs| && cube(vs[i]) && forall j :: 0 <= j < |vs| && j != i ==> !cube(vs[j]);
      CountOneOfWitness(cube, vs, i);
    }
  }

  /** On a grid's own assignment, the sum over a unit's variables for value
      v counts the unit's cells that hold v. */
  lemma {:induction false} CountUnit(sol: seq<seq<int>>, n: nat, u: seq<Pos>, v: int)
    requires IsGrid(sol, n) && UnitInGrid(u, n)
    ensures Count(CubeOf(sol), VarsAt(u, v)) == Occ(ValuesAt(sol, u), v)
  {
    if u != [] {
      assert VarsAt(u, v)[1..] == VarsAt(u[1..], v);
      assert ValuesAt(sol, u)[1..] == ValuesAt(sol, u[1..]);
      CountUnit(sol, n, u[1..], v);
    }
  }

  /** On a grid's own assignment, the cell constraint of (row, col) holds
      exactly when the cell holds one of 1..n. */
  lemma CountCell(sol: seq<seq<int>>, n: nat, row: nat, col: nat)
    requires IsGrid(sol, n) && row < n && col < n
    ensures Count(CubeOf(sol), CellConstraint(n, row, col).vars) == 1 <==> 1 <= sol[row][col] <= n
  {
    var vs := CellConstraint(n, row, col).vars;
    CountOne(CubeOf(sol), vs);
    if 1 <= sol[row][col] <= n {
      var i := sol[row][col] - 1;
      assert CubeOf(sol)(vs[i]);
      assert forall j :: 0 <= j < |vs| && j != i ==> !CubeOf(sol)(vs[j]);
    }
  }

  /** On a grid whose cells hold 1..n, the n constraints of a unit of n
      cells hold exactly when the unit repeats no value. */
  lemma UnitExact(sol: seq<seq<int>>, n: nat, u: seq<Pos>)
    requires IsGrid(sol, n) && UnitInGrid(u, n) && |u| == n && CellsInRange(sol, n)
    ensures (forall v :: 1 <= v <= n ==> Count(CubeOf(sol), VarsAt(u, v)) == 1) <==> Distinct(ValuesAt(sol, u))
  {
    var vals := ValuesAt(sol, u);
    assert AllIn(vals, 1, n) by {
      forall i | 0 <= i < n ensures 1 <= vals[i] <= n {
        assert vals[i] == sol[u[i].row][u[i].col];
      }
    }
    ExactlyOnceIffDistinct(vals, n);
    if forall v :: 1 <= v <= n ==> Count(CubeOf(sol), VarsAt(u, v)) == 1 {
      forall v | 1 <= v <= n ensures Occ(vals, v) == 1 {
        CountUnit(sol, n, u, v);
      }
    }
    if Distinct(vals) {
      forall v | 1 <= v <= n ensures Count(CubeOf(sol), VarsAt(u, v)) == 1 {
        CountUnit(sol, n, u, v);
      }
    }
  }

  lemma SatisfiesAppend(cube: Cube, a: seq<Constraint>, b: seq<Constraint>)
    ensures Satisfies(cube, a + b) <==> Satisfies(cube, a) && Satisfies(cube, b)
  {
  }

  // ---------------------------------------------------------------------
  // Family by family, on a grid's own assignment.

  lemma CellsExact(sol: seq<seq<int>>, n: nat)
    requires IsGrid(sol, n)
    ensures Satisfies(CubeOf(sol), CellFamily(n)) <==> CellsInRange(sol, n)
  {
    if Satisfies(CubeOf(sol), CellFamily(n)) {
      forall r, c | 0 <= r < n && 0 <= c < n ensures 1 <= sol[r][c] <= n {
        CellFamilyMember(n, CellConstraint(n, r, c));
        CountCell(sol, n, r, c);
      }
    }
    if CellsInRange(sol, n) {
      forall k | k in CellFamily(n) ensures Count(CubeOf(sol), k.vars) == 1 {
        CellFamilyMember(n, k);
        var r, c :| 0 <= r < n && 0 <= c < n && k == CellConstraint(n, r, c);
        CountCell(sol, n, r, c);
      }
    }
  }

  ghost predicate ColumnsDistinct(sol: seq<seq<int>>, n: nat)
    requires IsGrid(sol, n)
  {
    forall c, r1, r2 :: 0 <= c < n && 0 <= r1 < r2 < n ==> sol[r1][c] != sol[r2][c]
  }

  ghost predicate RowsDistinct(sol: seq<seq<int>>, n: nat)
    requires IsGrid(sol, n)
  {
    forall r, c1, c2 :: 0 <= r < n && 0 <= c1 < c2 < n ==> sol[r][c1] != sol[r][c2]
  }

  ghost predicate BoxesDistinct(sol: seq<seq<int>>, n: nat, m: nat)
    requires IsGrid(sol, n)
  {
    forall r1, c1, r2, c2 ::
      0 <= r1 < n && 0 <= c1 < n && 0 <= r2 < n && 0 <= c2 < n &&
      (r1 != r2 || c1 != c2) && SameBox(r1, c1, r2, c2, m)
      ==> sol[r1][c1] != sol[r2][c2]
  }

  lemma ColumnUnit(sol: seq<seq<int>>, n: nat, col: int)
    requires IsGrid(sol, n) && CellsInRange(sol, n) && 0 <= col < n
    ensures (forall v :: 1 <= v <= n ==> Count(CubeOf(sol), ColConstraint(n, col, v).vars) == 1)
            <==> (forall r1, r2 :: 0 <= r1 < r2 < n ==> sol[r1][col] != sol[r2][col])
  {
    var u := ColUnit(n, col);
    UnitExact(sol, n, u);
    assert forall v :: ColConstraint(n, col, v).vars == VarsAt(u, v);
    var vals := ValuesAt(sol, u);
    assert forall i :: 0 <= i < n ==> vals[i] == sol[i][col];
    assert Distinct(vals) <==> (forall r1, r2 :: 0 <= r1 < r2 < n ==> sol[r1][col] != sol[r2][col]);
  }

  lemma ColumnsExact(sol: seq<seq<int>>, n: nat)
    requires IsGrid(sol, n) && CellsInRange(sol, n)
    ensures Satisfies(CubeOf(sol), ColFamily(n)) <==> ColumnsDistinct(sol, n)
  {
    if Satisfies(CubeOf(sol), ColFamily(n)) {
      forall col, r1, r2 | 0 <= col < n && 0 <= r1 < r2 < n ensures sol[r1][col] != sol[r2][col] {
        forall v | 1 <= v <= n ensures Count(CubeOf(sol), ColConstraint(n, col, v).vars) == 1 {
          ColFamilyMember(n, ColConstraint(n, col, v));
        }
        ColumnUnit(sol, n, col);
      }
    }
    if ColumnsDistinct(sol, n) {
      forall k | k in ColFamily(n) ensures Count(CubeOf(sol), k.vars) == 1 {
        ColFamilyMember(n, k);
        var col, v :| 0 <= col < n && 1 <= v <= n && k == ColConstraint(n, col, v);
        ColumnUnit(sol, n, col);
      }
    }
  }

  lemma RowUnitExact(sol: seq<seq<int>>, n: nat, row: int)
    requires IsGrid(sol, n) && CellsInRange(sol, n) && 0 <= row < n
    ensures (forall v :: 1 <= v <= n ==> Count(CubeOf(sol), RowConstraint(n, row, v).vars) == 1)
            <==> (forall c1, c2 :: 0 <= c1 < c2 < n ==> sol[row][c1] != sol[row][c2])
  {
    var u := RowUnit(n, row);
    UnitExact(sol, n, u);
    assert forall v :: RowConstraint(n, row, v).vars == VarsAt(u, v);
    var vals := ValuesAt(sol, u);
    assert forall i :: 0 <= i < n ==> vals[i] == sol[row][i];
    assert Distinct(vals) <==> (forall c1, c2 :: 0 <= c1 < c2 < n ==> sol[row][c1] != sol[row][c2]);
  }

  lemma RowsExact(sol: seq<seq<int>>, n: nat)
    requires IsGrid(sol, n) && CellsInRange(sol, n)
    ensures Satisfies(CubeOf(sol), RowFamily(n)) <==> RowsDistinct(sol, n)
  {
    if Satisfies(CubeOf(sol), RowFamily(n)) {
      forall row, c1, c2 | 0 <= row < n && 0 <= c1 < c2 < n ensures sol[row][c1] != sol[row][c2] {
        forall v | 1 <= v <= n ensures Count(CubeOf(sol), RowConstraint(n, row, v).vars) == 1 {
          RowFamilyMember(n, RowConstraint(n, row, v));
        }
        RowUnitExact(sol, n, row);
      }
    }
    if RowsDistinct(sol, n) {
      forall k | k in RowFamily(n) ensures Count(CubeOf(sol), k.vars) == 1 {
        RowFamilyMember(n, k);
        var row, v :| 0 <= row < n && 1 <= v <= n && k == RowConstraint(n, row, v);
        RowUnitExact(sol, n, row);
      }
    }
  }

  lemma BoxUnitInGrid(n: nat, m: nat, gr: int, gc: int)
    requires m * m == n && 0 <= gr < m && 0 <= gc < m
    ensures UnitInGrid(BoxUnit(m, gr, gc), n) && |BoxUnit(m, gr, gc)| == n
  {
    forall k | 0 <= k < m * m
      ensures 0 <= BoxUnit(m, gr, gc)[k].row < n && 0 <= BoxUnit(m, gr, gc)[k].col < n
    {
      BoxUnitInRange(m, gr, gc, k);
    }
  }

  /** Distinct indices of a box name distinct cells. */
  lemma BoxUnitInjective(m: nat, gr: int, gc: int, k1: int, k2: int)
    requires 0 <= k1 < m * m && 0 <= k2 < m * m && k1 != k2
    ensures BoxUnit(m, gr, gc)[k1] != BoxUnit(m, gr, gc)[k2]
  {
    SplitIndex(k1, m);
    SplitIndex(k2, m);
  }

  /** Two distinct cells of one box lie at distinct positions of that box's
      unit, so a box whose unit holds distinct values separates them. */
  lemma BoxPairDistinct(sol: seq<seq<int>>, n: nat, m: nat, r1: int, c1: int, r2: int, c2: int)
    requires IsGrid(sol, n) && m * m == n
    requires forall gr, gc :: 0 <= gr < m && 0 <= gc < m ==> Distinct(ValuesAt(sol, BoxUnit(m, gr, gc)))
    requires 0 <= r1 < n && 0 <= c1 < n && 0 <= r2 < n && 0 <= c2 < n
    requires (r1 != r2 || c1 != c2) && SameBox(r1, c1, r2, c2, m)
    ensures sol[r1][c1] != sol[r2][c2]
  {
    var gr, gc := r1 / m, c1 / m;
    SplitIndex(r1, m);
    SplitIndex(c1, m);
    BoxCellAt(m, r1, c1);
    BoxCellAt(m, r2, c2);
    var k1, k2 := (r1 % m) * m + c1 % m, (r2 % m) * m + c2 % m;
    BoxUnitInGrid(n, m, gr, gc);
    var vals := ValuesAt(sol, BoxUnit(m, gr, gc));
    assert vals[k1] == sol[r1][c1] && vals[k2] == sol[r2][c2];
    assert k1 != k2;
  }

  /** A grid whose boxes repeat no value has distinct values along every
      box unit. */
  lemma BoxUnitDistinct(sol: seq<seq<int>>, n: nat, m: nat, gr: int, gc: int)
    requires IsGrid(sol, n) && m * m == n && BoxesDistinct(sol, n, m)
    requires 0 <= gr < m && 0 <= gc < m
    ensures Distinct(ValuesAt(sol, BoxUnit(m, gr, gc)))
  {
    BoxUnitInGrid(n, m, gr, gc);
    var u := BoxUnit(m, gr, gc);
    forall i, j | 0 <= i < j < n ensures ValuesAt(sol, u)[i] != ValuesAt(sol, u)[j] {
      BoxUnitInjective(m, gr, gc, i, j);
      BoxOfCell(m, gr, gc, i);
      BoxOfCell(m, gr, gc, j);
    }
  }

  /** "Box (gr, gc) repeats no value", for every box listed band by band,
      is the box rule stated with quotients by m. */
  lemma BoxesDistinctIff(sol: seq<seq<int>>, n: nat, m: nat)
    requires IsGrid(sol, n) && m * m == n
    ensures (forall gr, gc :: 0 <= gr < m && 0 <= gc < m ==>
               Distinct(ValuesAt(sol, BoxUnit(m, gr, gc))))
            <==> BoxesDistinct(sol, n, m)
  {
    if forall gr, gc :: 0 <= gr < m && 0 <= gc < m ==>
         Distinct(ValuesAt(sol, BoxUnit(m, gr, gc))) {
      forall r1, c1, r2, c2 |
        0 <= r1 < n && 0 <= c1 < n && 0 <= r2 < n && 0 <= c2 < n &&
        (r1 != r2 || c1 != c2) && SameBox(r1, c1, r2, c2, m)
        ensures sol[r1][c1] != sol[r2][c2]
      {
        BoxPairDistinct(sol, n, m, r1, c1, r2, c2);
      }
    }
    if BoxesDistinct(sol, n, m) {
      forall gr, gc | 0 <= gr < m && 0 <= gc < m
        ensures Distinct(ValuesAt(sol, BoxUnit(m, gr, gc)))
      {
        BoxUnitDistinct(sol, n, m, gr, gc);
      }
    }
  }

  lemma BoxUnitExact(sol: seq<seq<int>>, n: nat, m: nat, gr: int, gc: int)
    requires IsGrid(sol, n) && m * m == n && CellsInRange(sol, n) && 0 <= gr < m && 0 <= gc < m
    ensures (forall v :: 1 <= v <= n ==> Count(CubeOf(sol), BoxConstraint(m, gr, gc, v).vars) == 1)
            <==> Distinct(ValuesAt(sol, BoxUnit(m, gr, gc)))
  {
    BoxUnitInGrid(n, m, gr, gc);
    UnitExact(sol, n, BoxUnit(m, gr, gc));
    assert forall v :: BoxConstraint(m, gr, gc, v).vars == VarsAt(BoxUnit(m, gr, gc), v);
  }

  lemma BoxesExact(sol: seq<seq<int>>, n: nat, m: nat)
    requires IsGrid(sol, n) && m * m == n && CellsInRange(sol, n)
    ensures Satisfies(CubeOf(sol), BoxFamily(n, m)) <==> BoxesDistinct(sol, n, m)
  {
    BoxesDistinctIff(sol, n, m);
    if Satisfies(CubeOf(sol), BoxFamily(n, m)) {
      forall gr, gc | 0 <= gr < m && 0 <= gc < m ensures Distinct(ValuesAt(sol, BoxUnit(m, gr, gc))) {
        forall v | 1 <= v <= n ensures Count(CubeOf(sol), BoxConstraint(m, gr, gc, v).vars) == 1 {
          BoxFamilyMember(n, m, BoxConstraint(m, gr, gc, v));
        }
        BoxUnitExact(sol, n, m, gr, gc);
      }
    }
    if BoxesDistinct(sol, n, m) {
      forall k | k in BoxFamily(n, m) ensures Count(CubeOf(sol), k.vars) == 1 {
        BoxFamilyMember(n, m, k);
        var gr, gc, v :| 0 <= gr < m && 0 <= gc < m && 1 <= v <= n && k == BoxConstraint(m, gr, gc, v);
        BoxUnitExact(sol, n, m, gr, gc);
      }
    }
  }

  lemma CluesExact(sol: seq<seq<int>>, g: seq<seq<int>>, n: nat)
    requires IsGrid(sol, n) && IsGrid(g, n)
    ensures Satisfies(CubeOf(sol), ClueFamily(g, n)) <==> AgreesWithClues(sol, g, n)
  {
    if Satisfies(CubeOf(sol), ClueFamily(g, n)) {
      forall r, c | 0 <= r < n && 0 <= c < n && g[r][c] != 0 ensures sol[r][c] == g[r][c] {
        ClueFamilyMember(g, n, ClueConstraint(r, c, g[r][c]));
      }
    }
    if AgreesWithClues(sol, g, n) {
      forall k | k in ClueFamily(g, n) ensures Count(CubeOf(sol), k.vars) == 1 {
        ClueFamilyMember(g, n, k);
      }
    }
  }

  lemma Diagonal1Exact(sol: seq<seq<int>>, n: nat)
    requires IsGrid(sol, n) && CellsInRange(sol, n)
    ensures (forall v :: 1 <= v <= n ==> Count(CubeOf(sol), Diagonal1Constraint(n, v).vars) == 1)
            <==> (forall i, j :: 0 <= i < j < n ==> sol[i][i] != sol[j][j])
  {
    var u := Diagonal1Unit(n);
    UnitExact(sol, n, u);
    assert forall v :: Diagonal1Constraint(n, v).vars == VarsAt(u, v);
    var vals := ValuesAt(sol, u);
    assert forall i :: 0 <= i < n ==> vals[i] == sol[i][i];
    assert Distinct(vals) <==> (forall i, j :: 0 <= i < j < n ==> sol[i][i] != sol[j][j]);
  }

  lemma Diagonal2Exact(sol: seq<seq<int>>, n: nat)
    requires IsGrid(sol, n) && CellsInRange(sol, n)
    ensures (forall v :: 1 <= v <= n ==> Count(CubeOf(sol), Diagonal2Constraint(n, v).vars) == 1)
            <==> (forall i, j :: 0 <= i < j < n ==> sol[i][n - 1 - i] != sol[j][n - 1 - j])
  {
    var u := Diagonal2Unit(n);
    UnitExact(sol, n, u);
    assert forall v :: Diagonal2Constraint(n, v).vars == VarsAt(u, v);
    var vals := ValuesAt(sol, u);
    assert forall i :: 0 <= i < n ==> vals[i] == sol[i][n - 1 - i];
    assert Distinct(vals) <==> (forall i, j :: 0 <= i < j < n ==> sol[i][n - 1 - i] != sol[j][n - 1 - j]);
  }

  lemma DiagonalsExact(sol: seq<seq<int>>, n: nat)
    requires IsGrid(sol, n) && CellsInRange(sol, n)
    ensures Satisfies(CubeOf(sol), DiagonalFamily(n)) <==> DiagonalsDistinct(sol, n)
  {
    Diagonal1Exact(sol, n);
    Diagonal2Exact(sol, n);
    if Satisfies(CubeOf(sol), DiagonalFamily(n)) {
      forall v | 1 <= v <= n
        ensures Count(CubeOf(sol), Diagonal1Constraint(n, v).vars) == 1
        ensures Count(CubeOf(sol), Diagonal2Constraint(n, v).vars) == 1
      {
        DiagonalFamilyMember(n, Diagonal1Constraint(n, v));
        DiagonalFamilyMember(n, Diagonal2Constraint(n, v));
      }
    }
    if DiagonalsDistinct(sol, n) {
      forall k | k in DiagonalFamily(n) ensures Count(CubeOf(sol), k.vars) == 1 {
        DiagonalFamilyMember(n, k);
      }
    }
  }

  // ---------------------------------------------------------------------
  // The theorems.

  /** For a grid's own assignment: the model's constraints all hold exactly
      when the grid is a complete, valid Sudoku that keeps the clues (and,
      for Sudoku X, repeats no value on either diagonal). */
  lemma GridExact(sol: seq<seq<int>>, g: seq<seq<int>>, n: nat, m: nat, diagonal: bool)
    requires Puzzle(g, n, m) && IsGrid(sol, n)
    ensures Satisfies(CubeOf(sol), Model(n, m, g, diagonal)) <==>
            IsSolution(sol, n, m) && AgreesWithClues(sol, g, n) && (diagonal ==> DiagonalsDistinct(sol, n))
  {
    var cube := CubeOf(sol);
    var d := if diagonal then DiagonalFamily(n) else [];
    SatisfiesAppend(cube, SudokuConstraints(n, m, g), d);
    SatisfiesAppend(cube, ColFamily(n) + RowFamily(n) + CellFamily(n) + BoxFamily(n, m), ClueFamily(g, n));
    SatisfiesAppend(cube, ColFamily(n) + RowFamily(n) + CellFamily(n), BoxFamily(n, m));
    SatisfiesAppend(cube, ColFamily(n) + RowFamily(n), CellFamily(n));
    SatisfiesAppend(cube, ColFamily(n), RowFamily(n));
    CellsExact(sol, n);
    CluesExact(sol, g, n);
    if CellsInRange(sol, n) {
      ColumnsExact(sol, n);
      RowsExact(sol, n);
      BoxesExact(sol, n, m);
      DiagonalsExact(sol, n);
    }
  }

  /** A cube with one value per cell agrees, on every variable of the
      n x n x n cube, with the assignment of the grid it decodes to. */
  lemma OneHotDecodes(cube: Cube, n: nat, x: Var)
    requires OneHot(cube, n) && InCube(x, n)
    ensures cube(x) == CubeOf(DecodeCube(cube, n))(x)
  {
    assert OneValue(cube, n, x.row, x.col);
    var v :| 1 <= v <= n && cube(Var(x.row, x.col, v));
    forall w | 1 <= w <= n && w != v ensures !cube(Var(x.row, x.col, w)) {
      if w < v {
        assert !cube(Var(x.row, x.col, w)) || !cube(Var(x.row, x.col, v));
      } else {
        assert !cube(Var(x.row, x.col, v)) || !cube(Var(x.row, x.col, w));
      }
    }
    DecodeCell(cube, n, x.row, x.col);
  }

  /** The cell constraints hold exactly when every cell has one value set. */
  lemma CellsOneHot(cube: Cube, n: nat)
    ensures Satisfies(cube, CellFamily(n)) <==> OneHot(cube, n)
  {
    forall r, c | 0 <= r < n && 0 <= c < n
      ensures Count(cube, CellConstraint(n, r, c).vars) == 1 <==> OneValue(cube, n, r, c)
    {
      var vs := CellConstraint(n, r, c).vars;
      CountOne(cube, vs);
      if Count(cube, vs) == 1 {
        var i :| 0 <= i < |vs| && cube(vs[i]) && forall j :: 0 <= j < |vs| && j != i ==> !cube(vs[j]);
        assert cube(Var(r, c, i + 1));
        forall v, w | 1 <= v < w <= n ensures !cube(Var(r, c, v)) || !cube(Var(r, c, w)) {
          assert vs[v - 1] == Var(r, c, v) && vs[w - 1] == Var(r, c, w);
        }
      }
      if OneValue(cube, n, r, c) {
        var v :| 1 <= v <= n && cube(Var(r, c, v));
        forall j | 0 <= j < |vs| && j != v - 1 ensures !cube(vs[j]) {
          if j + 1 < v {
            assert !cube(Var(r, c, j + 1)) || !cube(Var(r, c, v));
          } else {
            assert !cube(Var(r, c, v)) || !cube(Var(r, c, j + 1));
          }
        }
        assert cube(vs[v - 1]);
      }
    }
    if Satisfies(cube, CellFamily(n)) {
      forall r, c | 0 <= r < n && 0 <= c < n ensures OneValue(cube, n, r, c) {
        CellFamilyMember(n, CellConstraint(n, r, c));
      }
    }
    if OneHot(cube, n) {
      forall k | k in CellFamily(n) ensures Count(cube, k.vars) == 1 {
        CellFamilyMember(n, k);
      }
    }
  }

  /** Soundness and completeness for any assignment the solver may return:
      it meets every constraint exactly when each cell has one value set and
      the decoded grid is a complete, valid Sudoku that keeps every clue
      (and, for Sudoku X, repeats no value on either diagonal). */
  lemma ModelExact(cube: Cube, g: seq<seq<int>>, n: nat, m: nat, diagonal: bool)
    requires Puzzle(g, n, m)
    ensures Satisfies(cube, Model(n, m, g, diagonal)) <==>
            OneHot(cube, n) && IsSolution(DecodeCube(cube, n), n, m) &&
            AgreesWithClues(DecodeCube(cube, n), g, n) &&
            (diagonal ==> DiagonalsDistinct(DecodeCube(cube, n), n))
  {
    var model := Model(n, m, g, diagonal);
    var sol := DecodeCube(cube, n);
    SatisfiesAppend(cube, SudokuConstraints(n, m, g), if diagonal then DiagonalFamily(n) else []);
    SatisfiesAppend(cube, ColFamily(n) + RowFamily(n) + CellFamily(n) + BoxFamily(n, m), ClueFamily(g, n));
    SatisfiesAppend(cube, ColFamily(n) + RowFamily(n) + CellFamily(n), BoxFamily(n, m));
    SatisfiesAppend(cube, ColFamily(n) + RowFamily(n), CellFamily(n));
    CellsOneHot(cube, n);
    GridExact(sol, g, n, m, diagonal);
    if OneHot(cube, n) {
      ModelInRange(n, m, g, diagonal);
      forall k | k in model ensures Count(cube, k.vars) == Count(CubeOf(sol), k.vars) {
        forall i | 0 <= i < |k.vars| ensures cube(k.vars[i]) == CubeOf(sol)(k.vars[i]) {
          OneHotDecodes(cube, n, k.vars[i]);
        }
        CountAgree(cube, CubeOf(sol), k.vars);
      }
    }
  }

  /** Decoding a grid's own assignment gives back the grid, when every cell
      holds one of 1..n. */
  lemma DecodeCubeOf(sol: seq<seq<int>>, n: nat)
    requires IsGrid(sol, n) && CellsInRange(sol, n)
    ensures DecodeCube(CubeOf(sol), n) == sol
  {
    var d := DecodeCube(CubeOf(sol), n);
    forall r | 0 <= r < n ensures d[r] == sol[r] {
      forall c | 0 <= c < n ensures d[r][c] == sol[r][c] {
        var v := sol[r][c];
        assert CubeOf(sol)(Var(r, c, v));
        assert forall w :: 1 <= w <= n && w != v ==> !CubeOf(sol)(Var(r, c, w));
        DecodeCell(CubeOf(sol), n, r, c);
      }
    }
  }

  /** Every complete, valid Sudoku that keeps the clues is a solution of
      the model, and the extractor decodes it back unchanged: the model
      excludes no answer. */
  lemma SolutionReachable(sol: seq<seq<int>>, g: seq<seq<int>>, n: nat, m: nat, diagonal: bool)
    requires Puzzle(g, n, m)
    requires IsSolution(sol, n, m) && AgreesWithClues(sol, g, n)
    requires diagonal ==> DiagonalsDistinct(sol, n)
    ensures Satisfies(CubeOf(sol), Model(n, m, g, diagonal))
    ensures DecodeCube(CubeOf(sol), n) == sol
  {
    GridExact(sol, g, n, m, diagonal);
    DecodeCubeOf(sol, n);
  }
}
