/** Inputs on which the simplex solver answers wrongly: `Ok` for literals no values satisfy, and, once a
    literal has been asserted over a basic variable, a conflict that some values satisfy. */
module SimplexLimits {
  import opened Lits
  import opened LinearRows
  import opened Tableaux
  import opened SimplexTheory
  import opened SimplexRuns

  // ---------- concrete tables ----------

  const NOTHING := Tab(map[], [], [], [], [], [], [])

  /** A row with two entries has the value of those two. */
  lemma TwoValue(row: seq<real>, i: nat, j: nat, a: Assignment)
    requires i < |row| && j < |row| && i != j && OnlyTwo(row, i, j) && |a| == |row|
    ensures RowValue(row, a) == DeltaRational(row[i] * a[i].c + row[j] * a[j].c, row[i] * a[i].k + row[j] * a[j].k)
  {
    hide Dot;
    DotOfTwo(row, i, j, Cs(a));
    DotOfTwo(row, i, j, Ks(a));
  }

  /** One step of the sweep. */
  lemma SweepStep(rows: Rows, basic: seq<bool>, a: Assignment, i: nat)
    requires Square(rows, basic) && |a| == |rows| && i < |rows|
    ensures Sweep(rows, basic, a, i) == Sweep(rows, basic, if basic[i] then a[i := RowValue(rows[i], a)] else a, i + 1)
  {
  }

  lemma SweepEnd(rows: Rows, basic: seq<bool>, a: Assignment)
    requires Square(rows, basic) && |a| == |rows|
    ensures Sweep(rows, basic, a, |rows|) == a
  {
  }

  /** The rows after one more variable, entry by entry. */
  lemma AddedRows(rows: Rows, row: seq<real>, rows': Rows)
    requires |rows'| == |rows| + 1 && rows'[|rows|] == row + [0.0]
    requires forall i :: 0 <= i < |rows| ==> rows'[i] == rows[i] + [0.0]
    ensures WithRow(rows, row) == rows'
  {
    assert forall i :: 0 <= i < |rows'| ==> WithRow(rows, row)[i] == rows'[i];
  }

  ghost function Start(s: Tab): Assignment
    requires TabOk(s)
  {
    StartOf(s.rows, s.basic, s.lower, s.upper, s.a)
  }

  // ---------- an answer Ok that is wrong ----------

  const X: nat := 1
  const Y: nat := 2
  const Z: nat := 3

  const FREE: Option<Bound> := None

  const A := Lit(0, false)
  const B := Lit(1, false)

  const X_ABOVE_Y := Atom(A, Gt, X, TermOf(Y))
  const X_AT_MOST_Y := Atom(B, Le, X, TermOf(Y))

  function Limit(c: real, k: real, lit: Lit): Option<Bound> { Some(Bound(DeltaRational(c, k), Some(lit))) }

  const ONE_DIFFERENCE := Tab(map[X := 0, Y := 1], [X, Y, 0], [false, false, true],
    [[0.0, 0.0, 0.0], [0.0, 0.0, 0.0], [1.0, -1.0, 0.0]], [ZERO, ZERO, ZERO],
    [FREE, FREE, Limit(0.0, 1.0, A)], [FREE, FREE, FREE])

  const BOTH_DIFFERENCES := Tab(map[X := 0, Y := 1], [X, Y, 0, 0], [false, false, true, true],
    [[0.0, 0.0, 0.0, 0.0], [0.0, 0.0, 0.0, 0.0], [1.0, -1.0, 0.0, 0.0], [1.0, -1.0, 0.0, 0.0]], [ZERO, ZERO, ZERO, ZERO],
    [FREE, FREE, Limit(0.0, 1.0, A), FREE], [FREE, FREE, FREE, Limit(0.0, 0.0, B)])

  lemma FirstAsserted()
    ensures TabOk(NOTHING) && Asserted(NOTHING, X_ABOVE_Y) == ONE_DIFFERENCE
  {
    hide WithRow;
    var s1 := Tab(map[X := 0], [X], [false], [[0.0]], [ZERO], [FREE], [FREE]);
    var s2 := Tab(map[X := 0, Y := 1], [X, Y], [false, false], [[0.0, 0.0], [0.0, 0.0]], [ZERO, ZERO], [FREE, FREE], [FREE, FREE]);
    assert Zeros(0) == [] && Zeros(1) == [0.0] && DiffRow(2, 0, 1) == [1.0, -1.0];
    AddedRows([], [], s1.rows);
    AddedRows(s1.rows, [0.0], s2.rows);
    AddedRows(s2.rows, [1.0, -1.0], ONE_DIFFERENCE.rows);
  }

  lemma SecondAsserted()
    ensures TabOk(ONE_DIFFERENCE) && Asserted(ONE_DIFFERENCE, X_AT_MOST_Y) == BOTH_DIFFERENCES
  {
    hide WithRow;
    assert DiffRow(3, 0, 1) == [1.0, -1.0, 0.0];
    AddedRows(ONE_DIFFERENCE.rows, [1.0, -1.0, 0.0], BOTH_DIFFERENCES.rows);
  }

  lemma BothStart()
    ensures TabOk(BOTH_DIFFERENCES) && FormOk(BOTH_DIFFERENCES.rows, BOTH_DIFFERENCES.basic)
    ensures Start(BOTH_DIFFERENCES) == BOTH_DIFFERENCES.a
  {
    var s := BOTH_DIFFERENCES;
    hide RowValue, Sweep;
    TwoValue(s.rows[2], 0, 1, s.a);
    TwoValue(s.rows[3], 0, 1, s.a);
    assert Clamped(s.basic, s.lower, s.upper, s.a) == s.a;
    assert s.a[2 := ZERO] == s.a && s.a[3 := ZERO] == s.a;
    SweepStep(s.rows, s.basic, s.a, 0);
    SweepStep(s.rows, s.basic, s.a, 1);
    SweepStep(s.rows, s.basic, s.a, 2);
    SweepStep(s.rows, s.basic, s.a, 3);
    SweepEnd(s.rows, s.basic, s.a);
  }

  lemma BothConsistent()
    ensures TabOk(BOTH_DIFFERENCES) && FormOk(BOTH_DIFFERENCES.rows, BOTH_DIFFERENCES.basic)
    ensures Started(BOTH_DIFFERENCES) == BOTH_DIFFERENCES
    ensures Consistent(BOTH_DIFFERENCES.rows, BOTH_DIFFERENCES.basic, BOTH_DIFFERENCES.a)
  {
    hide RowValue, Clamped, Sweep, Consistent, FormOk;
    BothStart();
    var s := BOTH_DIFFERENCES;
    SweepConsistent(s.rows, s.basic, Clamped(s.basic, s.lower, s.upper, s.a), 0);
  }

  lemma BothFitAfter(xj: nat)
    requires TabOk(BOTH_DIFFERENCES) && HasCandidate(BOTH_DIFFERENCES, 2, false, xj)
    ensures xj < 4 && BasicFit(BOTH_DIFFERENCES.basic[2 := false][xj := true], BOTH_DIFFERENCES.lower, BOTH_DIFFERENCES.upper, BOTH_DIFFERENCES.a)
    ensures BOTH_DIFFERENCES.basic[2]
  {
  }

  /** After one pivot on the first violated variable, whichever candidate it takes, nothing is violated. */
  lemma OnePivotOnly(next: Tab, xj: nat)
    requires TabOk(BOTH_DIFFERENCES) && HasCandidate(BOTH_DIFFERENCES, 2, false, xj) && Step(BOTH_DIFFERENCES, 2, xj, next)
    ensures NoneViolated(next)
  {
    BothConsistent();
    BothFitAfter(xj);
    hide Consistent, FormOk, SameSolutions, Pivoted, Sweep, RowValue, HasCandidate, BOTH_DIFFERENCES, BasicFit;
    var s := BOTH_DIFFERENCES;
    PivotedSquare(s.rows, s.basic, 2, xj, next.rows);
    if FormOk(next.rows, next.basic) { SweepConsistent(next.rows, next.basic, s.a, 0); }
    PivotSound(s.rows, s.basic, 2, xj, next.rows, s.a, next.a);
  }

  lemma BothSearched()
    ensures TabOk(BOTH_DIFFERENCES) && forall after, res :: Solved(BOTH_DIFFERENCES, after, res) ==> res.Ok?
  {
    BothStart();
    var s := BOTH_DIFFERENCES;
    hide StartOf, FormOk, Step, Searches;
    assert Started(s) == s && NoClash(s);
    assert FirstViolated(s, 2, false) && HasCandidate(s, 2, false, 0);
    NotFitting(s, 2, false);
    forall after, res | Solved(s, after, res) ensures res.Ok? { OutcomeIsOk(after, res); }
  }

  lemma OnlyOk(s: Tab, k: nat, after: Tab, res: Outcome)
    requires TabOk(s) && NoneViolated(s) && Searches(s, k, after, res)
    ensures res.Ok?
  {
  }

  lemma OutcomeIsOk(after: Tab, res: Outcome)
    requires TabOk(BOTH_DIFFERENCES) && Started(BOTH_DIFFERENCES) == BOTH_DIFFERENCES
    requires FirstViolated(BOTH_DIFFERENCES, 2, false) && HasCandidate(BOTH_DIFFERENCES, 2, false, 0)
    requires !NoneViolated(BOTH_DIFFERENCES) && Searches(BOTH_DIFFERENCES, MAX_ITERATIONS, after, res)
    ensures res.Ok?
  {
    hide Step, FirstViolated, HasCandidate, NoneViolated, TabOk;
    var xj, next := SearchUnrolled(BOTH_DIFFERENCES, MAX_ITERATIONS, 2, false, 0, after, res);
    OnePivotOnly(next, xj);
    OnlyOk(next, MAX_ITERATIONS - 1, after, res);
  }

  /** `x > y` and `x <= y` on a new solver. No values make both true, yet the search ends with `Ok`
      after one pivot: the first violated variable can only be exchanged with one that has no bounds,
      no value moves, and the other difference stands at its bound. */
  method OkThoughUnsatisfiable() returns (res: Outcome)
    ensures res.Ok?
    ensures forall rho: nat -> real :: !(AtomHolds(X_ABOVE_Y, rho) && AtomHolds(X_AT_MOST_Y, rho))
  {
    hide *;
    BothRun();
    NeverBoth();
    var solver := new SimplexSolver();
    solver.AssertTerm(A, Gt, X, TermOf(Y));
    solver.AssertTerm(B, Le, X, TermOf(Y));
    ghost var pivots;
    res, pivots := solver.SolveSimplex();
  }

  lemma NeverBoth()
    ensures forall rho: nat -> real :: !(AtomHolds(X_ABOVE_Y, rho) && AtomHolds(X_AT_MOST_Y, rho))
  {
    forall rho: nat -> real ensures !(AtomHolds(X_ABOVE_Y, rho) && AtomHolds(X_AT_MOST_Y, rho)) {
      assert AtomHolds(X_ABOVE_Y, rho) == (rho(X) > rho(Y));
    }
  }

  lemma BothRun()
    ensures var s := Tab(map[], [], [], [], [], [], []);
      && TabOk(s) && TabOk(Asserted(s, Atom(A, Gt, X, TermOf(Y)))) && TabOk(Asserted(Asserted(s, Atom(A, Gt, X, TermOf(Y))), Atom(B, Le, X, TermOf(Y))))
      && forall after, res :: Solved(Asserted(Asserted(s, Atom(A, Gt, X, TermOf(Y))), Atom(B, Le, X, TermOf(Y))), after, res) ==> res.Ok?
  {
    hide Asserted, Solved, TabOk;
    FirstAsserted();
    SecondAsserted();
    BothSearched();
  }

  // ---------- a conflict that is wrong ----------

  const C := Lit(2, false)
  const D := Lit(3, false)
  const E := Lit(4, false)
  const F := Lit(5, false)

  const Z_AT_MOST_100 := Atom(A, Le, Z, Const(100.0))
  const X_BELOW_Y := Atom(B, Lt, X, TermOf(Y))
  const Z_AT_MOST_X := Atom(C, Le, Z, TermOf(X))
  const Y_AT_LEAST_5 := Atom(D, Ge, Y, Const(5.0))
  const X_BELOW_5 := Atom(E, Lt, X, Const(5.0))
  const Z_AT_LEAST_4 := Atom(F, Ge, Z, Const(4.0))

  const VARS := map[Z := 0, X := 1, Y := 2]
  const NONE4 := [FREE, FREE, FREE, FREE]
  const NONE5 := [FREE, FREE, FREE, FREE, FREE]
  const ROW4 := [0.0, 0.0, 0.0, 0.0]
  const ROW5 := [0.0, 0.0, 0.0, 0.0, 0.0]
  const DOWN := DeltaRational(0.0, -1.0)
  const UP := DeltaRational(0.0, 1.0)

  /** After `z <= 100` and `x < y`. */
  const FIRST := Tab(VARS, [Z, X, Y, 0], [false, false, false, true],
    [ROW4, ROW4, ROW4, [0.0, 1.0, -1.0, 0.0]], [ZERO, ZERO, ZERO, ZERO],
    NONE4, [Limit(100.0, 0.0, A), FREE, FREE, Limit(0.0, -1.0, B)])

  /** After a search that exchanges the difference with `x`. */
  const SEARCHED := Tab(VARS, [Z, X, Y, 0], [false, true, false, false],
    [ROW4, [0.0, 0.0, 1.0, 1.0], ROW4, ROW4], [ZERO, ZERO, ZERO, ZERO],
    NONE4, [Limit(100.0, 0.0, A), FREE, FREE, Limit(0.0, -1.0, B)])

  /** After `z <= x`: the new row mentions the basic variable `x`. */
  const BROKEN := Tab(VARS, [Z, X, Y, 0, 0], [false, true, false, false, true],
    [ROW5, [0.0, 0.0, 1.0, 1.0, 0.0], ROW5, ROW5, [1.0, -1.0, 0.0, 0.0, 0.0]], [ZERO, ZERO, ZERO, ZERO, ZERO],
    NONE5, [Limit(100.0, 0.0, A), FREE, FREE, Limit(0.0, -1.0, B), Limit(0.0, 0.0, C)])

  /** After a search that exchanges the new difference with `z`. */
  const STALE := Tab(VARS, [Z, X, Y, 0, 0], [true, true, false, false, false],
    [[0.0, 1.0, 0.0, 0.0, 1.0], [0.0, 0.0, 1.0, 1.0, 0.0], ROW5, ROW5, ROW5], [ZERO, DOWN, ZERO, DOWN, UP],
    NONE5, [Limit(100.0, 0.0, A), FREE, FREE, Limit(0.0, -1.0, B), Limit(0.0, 0.0, C)])

  /** After `y >= 5`, `x < 5` and `z >= 4`. */
  const LAST := Tab(VARS, [Z, X, Y, 0, 0], [true, true, false, false, false],
    [[0.0, 1.0, 0.0, 0.0, 1.0], [0.0, 0.0, 1.0, 1.0, 0.0], ROW5, ROW5, ROW5], [ZERO, DOWN, ZERO, DOWN, UP],
    [Limit(4.0, 0.0, F), FREE, Limit(5.0, 0.0, D), FREE, FREE],
    [Limit(100.0, 0.0, A), Limit(5.0, -1.0, E), FREE, Limit(0.0, -1.0, B), Limit(0.0, 0.0, C)])

  /** The search exchanges one pair of variables, and then no basic variable is outside its bounds. */
  lemma OnePivot(s: Tab, xi: nat, above: bool, xj: nat, after: Tab)
    requires TabOk(s) && TabOk(after) && NoClash(s) && FirstViolated(Started(s), xi, above) && HasCandidate(Started(s), xi, above, xj)
    requires xi < |s.rows| && xj < |s.rows| && s.rows[xi][xj] != 0.0 && Pivoted(s.rows, s.basic, xi, xj, after.rows)
    requires after == Tab(s.vars, s.terms, s.basic[xi := false][xj := true], after.rows, after.a, s.lower, s.upper)
    requires after.a == Sweep(after.rows, after.basic, Start(s), 0) && NoneViolated(after)
    ensures Solved(s, after, Ok)
  {
    hide Pivoted, Sweep, StartOf, FirstViolated, HasCandidate, NoneViolated, Searches;
    SearchEnds(after, MAX_ITERATIONS - 1);
    assert Step(Started(s), xi, xj, after);
    SearchStep(Started(s), MAX_ITERATIONS, xi, above, xj, after, after, Ok);
  }

  const ROW3 := [0.0, 0.0, 0.0]

  const ONLY_Z := Tab(map[Z := 0], [Z], [false], [[0.0]], [ZERO], [FREE], [Limit(100.0, 0.0, A)])

  const Z_AND_X := Tab(map[Z := 0, X := 1], [Z, X], [false, false], [[0.0, 0.0], [0.0, 0.0]], [ZERO, ZERO],
    [FREE, FREE], [Limit(100.0, 0.0, A), FREE])

  const ALL_THREE := Tab(VARS, [Z, X, Y], [false, false, false], [ROW3, ROW3, ROW3], [ZERO, ZERO, ZERO],
    [FREE, FREE, FREE], [Limit(100.0, 0.0, A), FREE, FREE])

  lemma ConstantState()
    ensures TabOk(NOTHING) && Asserted(NOTHING, Z_AT_MOST_100) == ONLY_Z && TabOk(ONLY_Z)
  {
    hide WithRow;
    assert Zeros(0) == [];
    AddedRows([], [], [[0.0]]);
  }

  lemma ThreeTerms()
    ensures WithTerm(WithTerm(ONLY_Z, X), Y) == ALL_THREE && TabOk(ALL_THREE)
  {
    hide WithRow;
    assert Zeros(1) == [0.0] && Zeros(2) == [0.0, 0.0];
    AddedRows(ONLY_Z.rows, [0.0], Z_AND_X.rows);
    AddedRows(Z_AND_X.rows, [0.0, 0.0], ALL_THREE.rows);
    assert WithTerm(ONLY_Z, X) == Z_AND_X;
    assert VARS == Z_AND_X.vars[Y := 2];
  }

  lemma FirstSlack()
    ensures AddVar(ALL_THREE, 0, true, DiffRow(3, 1, 2)) == FIRST.(upper := ALL_THREE.upper + [FREE])
  {
    hide WithRow;
    assert DiffRow(3, 1, 2) == [0.0, 1.0, -1.0];
    AddedRows(ALL_THREE.rows, [0.0, 1.0, -1.0], FIRST.rows);
  }

  lemma FirstState()
    ensures TabOk(NOTHING) && TabOk(Asserted(NOTHING, Z_AT_MOST_100)) && TabOk(FIRST)
    ensures Asserted(Asserted(NOTHING, Z_AT_MOST_100), X_BELOW_Y) == FIRST
  {
    hide WithTerm, AddVar, DiffRow;
    ConstantState();
    ThreeTerms();
    FirstSlack();
    PairState(ONLY_Z, X_BELOW_Y);
  }

  lemma FirstStart()
    ensures TabOk(FIRST) && Start(FIRST) == FIRST.a
  {
    hide RowValue, Sweep;
    var s := FIRST;
    TwoValue(s.rows[3], 1, 2, s.a);
    assert Clamped(s.basic, s.lower, s.upper, s.a) == s.a && s.a[3 := ZERO] == s.a;
    SweepStep(s.rows, s.basic, s.a, 0);
    SweepStep(s.rows, s.basic, s.a, 1);
    SweepStep(s.rows, s.basic, s.a, 2);
    SweepStep(s.rows, s.basic, s.a, 3);
    SweepEnd(s.rows, s.basic, s.a);
  }

  lemma FirstSwept()
    ensures TabOk(SEARCHED) && Sweep(SEARCHED.rows, SEARCHED.basic, FIRST.a, 0) == SEARCHED.a
  {
    hide RowValue, Sweep;
    var s := SEARCHED;
    TwoValue(s.rows[1], 2, 3, s.a);
    assert s.a[1 := ZERO] == s.a;
    SweepStep(s.rows, s.basic, s.a, 0);
    SweepStep(s.rows, s.basic, s.a, 1);
    SweepStep(s.rows, s.basic, s.a, 2);
    SweepStep(s.rows, s.basic, s.a, 3);
    SweepEnd(s.rows, s.basic, s.a);
  }

  lemma FirstPivoted()
    ensures TabOk(FIRST) && Pivoted(FIRST.rows, FIRST.basic, 3, 1, SEARCHED.rows)
  {
    var rows := FIRST.rows;
    assert rows[3][1] == 1.0;
    assert SolvedFor(rows[3], 3, 1, SEARCHED.rows[1]);
    assert Zeros(4) == ROW4 by { FourZeros(); }
  }

  lemma FourZeros()
    ensures Zeros(4) == ROW4 && Zeros(5) == ROW5
  {
    assert Zeros(1) == [0.0] && Zeros(2) == [0.0, 0.0] && Zeros(3) == [0.0, 0.0, 0.0] && Zeros(4) == ROW4;
  }

  lemma FirstSearch()
    ensures TabOk(FIRST) && Solved(FIRST, SEARCHED, Ok)
  {
    hide RowValue, Sweep, StartOf, Pivoted;
    FirstStart();
    FirstSwept();
    FirstPivoted();
    assert SEARCHED.basic == FIRST.basic[3 := false][1 := true];
    assert Started(FIRST) == FIRST;
    OnePivot(FIRST, 3, true, 1, SEARCHED);
  }

  lemma BrokenState()
    ensures TabOk(SEARCHED) && Asserted(SEARCHED, Z_AT_MOST_X) == BROKEN && TabOk(BROKEN)
    ensures !FormOk(BROKEN.rows, BROKEN.basic)
  {
    hide WithRow;
    assert DiffRow(4, 0, 1) == [1.0, -1.0, 0.0, 0.0];
    AddedRows(SEARCHED.rows, [1.0, -1.0, 0.0, 0.0], BROKEN.rows);
    assert BROKEN.basic[4] && BROKEN.basic[1] && BROKEN.rows[4][1] != 0.0;
  }

  const AT_START := [ZERO, DOWN, ZERO, DOWN, UP]

  lemma BrokenStart()
    ensures TabOk(BROKEN) && Start(BROKEN) == AT_START
  {
    hide RowValue, Sweep;
    var s := BROKEN;
    var a0 := [ZERO, ZERO, ZERO, DOWN, ZERO];
    var a1 := [ZERO, DOWN, ZERO, DOWN, ZERO];
    assert Clamped(s.basic, s.lower, s.upper, s.a) == a0;
    TwoValue(s.rows[1], 2, 3, a0);
    TwoValue(s.rows[4], 0, 1, a1);
    assert a0[1 := DOWN] == a1 && a1[4 := UP] == AT_START;
    SweepStep(s.rows, s.basic, a0, 0);
    SweepStep(s.rows, s.basic, a0, 1);
    SweepStep(s.rows, s.basic, a1, 2);
    SweepStep(s.rows, s.basic, a1, 3);
    SweepStep(s.rows, s.basic, a1, 4);
    SweepEnd(s.rows, s.basic, AT_START);
  }

  lemma BrokenSwept()
    ensures TabOk(STALE) && Sweep(STALE.rows, STALE.basic, AT_START, 0) == STALE.a
  {
    hide RowValue, Sweep;
    var s, a := STALE, AT_START;
    TwoValue(s.rows[0], 1, 4, a);
    TwoValue(s.rows[1], 2, 3, a);
    assert a[0 := ZERO] == a && a[1 := DOWN] == a;
    SweepStep(s.rows, s.basic, a, 0);
    SweepStep(s.rows, s.basic, a, 1);
    SweepStep(s.rows, s.basic, a, 2);
    SweepStep(s.rows, s.basic, a, 3);
    SweepStep(s.rows, s.basic, a, 4);
    SweepEnd(s.rows, s.basic, a);
  }

  lemma BrokenPivoted()
    ensures TabOk(BROKEN) && Pivoted(BROKEN.rows, BROKEN.basic, 4, 0, STALE.rows)
  {
    var rows := BROKEN.rows;
    assert rows[4][0] == 1.0;
    assert SolvedFor(rows[4], 4, 0, STALE.rows[0]);
    assert rows[1][0 := 0.0] == rows[1];
    SubstituteNone(rows[1], 0, STALE.rows[0]);
    FourZeros();
  }

  lemma BrokenSearch()
    ensures TabOk(BROKEN) && Solved(BROKEN, STALE, Ok)
  {
    hide RowValue, Sweep, StartOf, Pivoted;
    BrokenStart();
    BrokenSwept();
    BrokenPivoted();
    assert STALE.basic == BROKEN.basic[4 := false][0 := true];
    assert Started(BROKEN) == BROKEN.(a := AT_START);
    OnePivot(BROKEN, 4, true, 0, STALE);
  }

  /** A constant bound on a term that has a variable. */
  lemma ConstantBound(s: Tab, atom: Atom, x: nat, w: Tab)
    requires TabOk(s) && atom.rhs.Const? && atom.lhs in s.vars && s.vars[atom.lhs] == x
    requires x < |s.terms| && |s.lower| == |s.upper| == |s.terms|
    requires w == WithBound(s, x, BoundOf(atom.op, atom.lit.neg, atom.rhs.val), atom.lit)
    ensures Asserted(s, atom) == w && TabOk(w)
  {
    hide WithBound, BoundOf;
    BoundKeepsShape(s, x, BoundOf(atom.op, atom.lit.neg, atom.rhs.val), atom.lit);
  }

  lemma LastState()
    ensures TabOk(STALE) && TabOk(Asserted(STALE, Y_AT_LEAST_5)) && TabOk(Asserted(Asserted(STALE, Y_AT_LEAST_5), X_BELOW_5))
    ensures Asserted(Asserted(Asserted(STALE, Y_AT_LEAST_5), X_BELOW_5), Z_AT_LEAST_4) == LAST && TabOk(LAST)
  {
    hide Asserted;
    var s1 := STALE.(lower := [FREE, FREE, Limit(5.0, 0.0, D), FREE, FREE]);
    var s2 := s1.(upper := LAST.upper);
    ConstantBound(STALE, Y_AT_LEAST_5, 2, s1);
    ConstantBound(s1, X_BELOW_5, 1, s2);
    ConstantBound(s2, Z_AT_LEAST_4, 0, LAST);
  }

  lemma LastClamped()
    ensures TabOk(LAST)
    ensures Clamped(LAST.basic, LAST.lower, LAST.upper, LAST.a) == [ZERO, DOWN, DeltaRational(5.0, 0.0), DOWN, ZERO]
  {
  }

  lemma LastStart()
    ensures TabOk(LAST) && Start(LAST) == [DOWN, DeltaRational(5.0, -1.0), DeltaRational(5.0, 0.0), DOWN, ZERO]
  {
    hide RowValue, Sweep, Clamped;
    var s, five, under := LAST, DeltaRational(5.0, 0.0), DeltaRational(5.0, -1.0);
    var a0 := [ZERO, DOWN, five, DOWN, ZERO];
    var a1 := [DOWN, DOWN, five, DOWN, ZERO];
    var a2 := [DOWN, under, five, DOWN, ZERO];
    LastClamped();
    TwoValue(s.rows[0], 1, 4, a0);
    TwoValue(s.rows[1], 2, 3, a1);
    assert a0[0 := DOWN] == a1 && a1[1 := under] == a2;
    SweepStep(s.rows, s.basic, a0, 0);
    SweepStep(s.rows, s.basic, a1, 1);
    SweepStep(s.rows, s.basic, a2, 2);
    SweepStep(s.rows, s.basic, a2, 3);
    SweepStep(s.rows, s.basic, a2, 4);
    SweepEnd(s.rows, s.basic, a2);
  }

  /** A run that ends in a wrong conflict. After the search over `z <= 100` and `x < y`, `x` is basic, and
      `z <= x` adds a row that mentions it. The next search makes `z` basic, in a row over `x`. When `y >= 5`,
      `x < 5` and `z >= 4` follow, the sweep evaluates that row before the one of `x`, so `z` gets a value
      below 4 although its row has no variable left to move: the search answers that `z >= 4`, `z <= x` and
      `x < 5` cannot hold together, and 5, 9/2 and 4 for `y`, `x` and `z` make all six literals true. */
  lemma ConflictThoughSatisfiable()
    ensures TabOk(NOTHING) && TabOk(Asserted(NOTHING, Z_AT_MOST_100))
    ensures Asserted(Asserted(NOTHING, Z_AT_MOST_100), X_BELOW_Y) == FIRST && TabOk(FIRST) && Solved(FIRST, SEARCHED, Ok)
    ensures TabOk(SEARCHED) && Asserted(SEARCHED, Z_AT_MOST_X) == BROKEN && TabOk(BROKEN) && !FormOk(BROKEN.rows, BROKEN.basic)
    ensures Solved(BROKEN, STALE, Ok)
    ensures TabOk(STALE) && TabOk(Asserted(STALE, Y_AT_LEAST_5)) && TabOk(Asserted(Asserted(STALE, Y_AT_LEAST_5), X_BELOW_5))
    ensures Asserted(Asserted(Asserted(STALE, Y_AT_LEAST_5), X_BELOW_5), Z_AT_LEAST_4) == LAST && TabOk(LAST)
    ensures Solved(LAST, Started(LAST), Err([F.Not(), E.Not(), C.Not()]))
    ensures
      var atoms := [Z_AT_MOST_100, X_BELOW_Y, Z_AT_MOST_X, Y_AT_LEAST_5, X_BELOW_5, Z_AT_LEAST_4];
      !ValidConflict(atoms, [F.Not(), E.Not(), C.Not()])
  {
    hide Asserted, Solved, StartOf, FormOk;
    FirstState();
    FirstSearch();
    BrokenState();
    BrokenSearch();
    LastState();
    LastSearch();
    AllSixHold();
  }

  /** The row of `z` has no candidate, and these are the bounds that stop its variables. */
  lemma LastSearch()
    ensures TabOk(LAST) && Solved(LAST, Started(LAST), Err([F.Not(), E.Not(), C.Not()]))
  {
    hide StartOf, Searches;
    LastStart();
    var s := Started(LAST);
    assert s == LAST.(a := [DOWN, DeltaRational(5.0, -1.0), DeltaRational(5.0, 0.0), DOWN, ZERO]);
    assert NoClash(LAST) && FirstViolated(s, 0, false);
    assert forall xj: nat :: !HasCandidate(s, 0, false, xj);
    LastClause();
    SearchStuck(s, MAX_ITERATIONS, 0, false);
  }

  lemma LastClause()
    ensures RowClause(LAST.rows[0], LAST.lower, LAST.upper, 0, false, 5) == [F.Not(), E.Not(), C.Not()]
  {
    var row := LAST.rows[0];
    var c0 := RowClause(row, LAST.lower, LAST.upper, 0, false, 0);
    assert c0 == [F.Not()];
    var c1 := RowClause(row, LAST.lower, LAST.upper, 0, false, 1);
    assert c1 == c0;
    var c2 := RowClause(row, LAST.lower, LAST.upper, 0, false, 2);
    assert c2 == c1 + [E.Not()];
    var c3 := RowClause(row, LAST.lower, LAST.upper, 0, false, 3);
    assert c3 == c2;
    var c4 := RowClause(row, LAST.lower, LAST.upper, 0, false, 4);
    assert c4 == c3;
  }

  lemma AllSixHold()
    ensures
      var atoms := [Z_AT_MOST_100, X_BELOW_Y, Z_AT_MOST_X, Y_AT_LEAST_5, X_BELOW_5, Z_AT_LEAST_4];
      !ValidConflict(atoms, [F.Not(), E.Not(), C.Not()])
  {
    var atoms := [Z_AT_MOST_100, X_BELOW_Y, Z_AT_MOST_X, Y_AT_LEAST_5, X_BELOW_5, Z_AT_LEAST_4];
    var rho: nat -> real := t => if t == Y then 5.0 else if t == X then 4.5 else 4.0;
    assert rho(X) == 4.5 && rho(Y) == 5.0 && rho(Z) == 4.0;
    assert forall k :: 0 <= k < 6 ==> AtomHolds(atoms[k], rho);
    assert !SomeNamedFalse(atoms, [F.Not(), E.Not(), C.Not()], rho);
  }

  // ---------- a term compared with itself ----------

  const SELF := Atom(A, Le, X, TermOf(X))
  const BELOW_ZERO := Atom(B, Le, X, Const(-1.0))

  /** After `x <= x`: the row of the slack variable is `-x`. */
  const SELF_ASSERTED := Tab(map[X := 0], [X, 0], [false, true], [[0.0, 0.0], [-1.0, 0.0]], [ZERO, ZERO],
    [FREE, FREE], [FREE, Limit(0.0, 0.0, A)])

  const SELF_BOUNDED := SELF_ASSERTED.(upper := [Limit(-1.0, 0.0, B), Limit(0.0, 0.0, A)])

  lemma SelfState()
    ensures TabOk(NOTHING) && Asserted(NOTHING, SELF) == SELF_ASSERTED && TabOk(SELF_ASSERTED)
    ensures Asserted(SELF_ASSERTED, BELOW_ZERO) == SELF_BOUNDED && TabOk(SELF_BOUNDED)
  {
    hide WithRow;
    assert Zeros(0) == [] && DiffRow(1, 0, 0) == [-1.0];
    AddedRows([], [], [[0.0]]);
    AddedRows([[0.0]], [-1.0], SELF_ASSERTED.rows);
    hide Asserted;
    ConstantBound(SELF_ASSERTED, BELOW_ZERO, 0, SELF_BOUNDED);
  }

  lemma TwoEntries(row: seq<real>, v: seq<real>)
    requires |row| == 2 == |v|
    ensures Dot(row, v) == row[0] * v[0] + row[1] * v[1]
  {
    assert |row[..1]| == 1 && row[..1][0] == row[0] && v[..1][0] == v[0];
    assert Dot(row[..1], v[..1]) == Dot(row[..1][..0], v[..1][..0]) + row[0] * v[0];
  }

  const SELF_START := [DeltaRational(-1.0, 0.0), DeltaRational(1.0, 0.0)]

  lemma SelfStart()
    ensures TabOk(SELF_BOUNDED) && Start(SELF_BOUNDED) == SELF_START
  {
    var s := SELF_BOUNDED;
    var a0 := [DeltaRational(-1.0, 0.0), ZERO];
    assert Clamped(s.basic, s.lower, s.upper, s.a) == a0;
    TwoEntries(s.rows[1], Cs(a0));
    TwoEntries(s.rows[1], Ks(a0));
    assert RowValue(s.rows[1], a0) == DeltaRational(1.0, 0.0);
    hide RowValue, Sweep, Clamped;
    assert a0[1 := DeltaRational(1.0, 0.0)] == SELF_START;
    SweepStep(s.rows, s.basic, a0, 0);
    SweepStep(s.rows, s.basic, a0, 1);
    SweepEnd(s.rows, s.basic, SELF_START);
  }

  lemma SelfSearched()
    ensures TabOk(SELF_BOUNDED) && forall after, res :: Solved(SELF_BOUNDED, after, res) ==> res == Err([A.Not(), B.Not()])
  {
    SelfStart();
    hide StartOf, Searches, RowClause;
    var s := Started(SELF_BOUNDED);
    assert s == SELF_BOUNDED.(a := SELF_START);
    assert NoClash(SELF_BOUNDED) && FirstViolated(s, 1, true);
    assert forall xj: nat :: !HasCandidate(s, 1, true, xj);
    SelfClause();
    forall after, res | Solved(SELF_BOUNDED, after, res) ensures res == Err([A.Not(), B.Not()]) {
      SearchOnlyStuck(s, MAX_ITERATIONS, 1, true, after, res);
    }
  }

  lemma SelfClause()
    ensures RowClause(SELF_BOUNDED.rows[1], SELF_BOUNDED.lower, SELF_BOUNDED.upper, 1, true, 2) == [A.Not(), B.Not()]
  {
    var s := SELF_BOUNDED;
    var c0 := RowClause(s.rows[1], s.lower, s.upper, 1, true, 0);
    assert c0 == [A.Not()];
    var c1 := RowClause(s.rows[1], s.lower, s.upper, 1, true, 1);
    assert c1 == c0 + [B.Not()];
  }

  /** `x <= x` and `x <= -1` on a new solver: the row says that x is not negative, and the search ends with
      a conflict between two literals that -1 makes true. */
  method SelfComparisonRefuted() returns (res: Outcome)
    ensures res == Err([A.Not(), B.Not()]) && !ValidConflict([SELF, BELOW_ZERO], [A.Not(), B.Not()])
  {
    hide *;
    SelfRun();
    SelfHolds();
    var solver := new SimplexSolver();
    solver.AssertTerm(A, Le, X, TermOf(X));
    solver.AssertTerm(B, Le, X, Const(-1.0));
    ghost var pivots;
    res, pivots := solver.SolveSimplex();
  }

  lemma SelfRun()
    ensures var s := Tab(map[], [], [], [], [], [], []);
      && TabOk(s) && TabOk(Asserted(s, Atom(A, Le, X, TermOf(X)))) && TabOk(Asserted(Asserted(s, Atom(A, Le, X, TermOf(X))), Atom(B, Le, X, Const(-1.0))))
      && forall after, res :: Solved(Asserted(Asserted(s, Atom(A, Le, X, TermOf(X))), Atom(B, Le, X, Const(-1.0))), after, res) ==>
           res == Err([A.Not(), B.Not()])
  {
    hide Asserted, Solved, TabOk;
    SelfState();
    SelfSearched();
  }

  lemma SelfHolds()
    ensures !ValidConflict([SELF, BELOW_ZERO], [A.Not(), B.Not()])
  {
    var rho: nat -> real := t => -1.0;
    assert AtomHolds(SELF, rho) && AtomHolds(BELOW_ZERO, rho);
    var atoms := [SELF, BELOW_ZERO];
    assert forall k :: 0 <= k < 2 ==> AtomHolds(atoms[k], rho);
    assert !SomeNamedFalse(atoms, [A.Not(), B.Not()], rho);
  }
}
