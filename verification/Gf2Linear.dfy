/** Matrices of truth values: row operations, row space, solutions and reduced echelon form. */
module Gf2Linear {

  type Row = seq<bool>

  type Matrix = seq<Row>

  ghost predicate Rectangular(m: Matrix, cols: nat) { forall r :: 0 <= r < |m| ==> |m[r]| == cols }

  function XorRow(a: Row, b: Row): (r: Row)
    requires |a| == |b|
    ensures |r| == |a| && forall i :: 0 <= i < |a| ==> r[i] == (a[i] != b[i])
  {
    seq(|a|, i requires 0 <= i < |a| => a[i] != b[i])
  }

  /** Sum of products modulo 2. */
  ghost function Dot(a: Row, x: Row): bool
    requires |a| == |x|
    decreases |a|
  {
    if |a| == 0 then false
    else
      var n := |a| - 1;
      Dot(a[..n], x[..n]) != (a[n] && x[n])
  }

  lemma {:induction false} DotUpdate(a: Row, i: nat, b: bool, x: Row)
    requires |a| == |x| && i < |a|
    ensures Dot(a[i := b], x) == (Dot(a, x) != ((a[i] != b) && x[i]))
    decreases |a|
  {
    var n := |a| - 1;
    var a' := a[i := b];
    if i < n {
      DotUpdate(a[..n], i, b, x[..n]);
      assert a'[..n] == a[..n][i := b];
    } else {
      assert a'[..n] == a[..n];
    }
  }

  lemma {:induction false} DotSym(a: Row, x: Row)
    requires |a| == |x|
    ensures Dot(a, x) == Dot(x, a)
    decreases |a|
  {
    if |a| > 0 { DotSym(a[..|a| - 1], x[..|a| - 1]); }
  }

  lemma {:induction false} DotXor(a: Row, b: Row, x: Row)
    requires |a| == |b| == |x|
    ensures Dot(XorRow(a, b), x) == (Dot(a, x) != Dot(b, x))
    decreases |a|
  {
    if |a| > 0 {
      var n := |a| - 1;
      DotXor(a[..n], b[..n], x[..n]);
      assert XorRow(a, b)[..n] == XorRow(a[..n], b[..n]);
    }
  }

  /** Only the entries where both are set matter. */
  lemma {:induction false} DotAgree(a: Row, x: Row, y: Row)
    requires |a| == |x| == |y| && forall i :: 0 <= i < |a| && a[i] ==> x[i] == y[i]
    ensures Dot(a, x) == Dot(a, y)
    decreases |a|
  {
    if |a| > 0 { DotAgree(a[..|a| - 1], x[..|a| - 1], y[..|a| - 1]); }
  }

  lemma {:induction false} DotFalse(a: Row, x: Row)
    requires |a| == |x| && forall i :: 0 <= i < |a| ==> !(a[i] && x[i])
    ensures !Dot(a, x)
    decreases |a|
  {
    if |a| > 0 { DotFalse(a[..|a| - 1], x[..|a| - 1]); }
  }

  // ---------- row space and solutions ----------

  ghost function Column(m: Matrix, cols: nat, j: nat): Row
    requires Rectangular(m, cols) && j < cols
  {
    seq(|m|, i requires 0 <= i < |m| => m[i][j])
  }

  /** The row is the sum of the rows that `c` picks. */
  ghost predicate Combines(m: Matrix, cols: nat, c: Row, v: Row)
    requires Rectangular(m, cols)
  {
    |c| == |m| && |v| == cols && forall j :: 0 <= j < cols ==> v[j] == Dot(c, Column(m, cols, j))
  }

  ghost predicate InRowSpace(m: Matrix, cols: nat, v: Row)
    requires Rectangular(m, cols)
  {
    exists c :: Combines(m, cols, c, v)
  }

  /** The homogeneous equations. */
  ghost predicate Solution(m: Matrix, cols: nat, x: Row)
    requires Rectangular(m, cols)
  {
    |x| == cols && forall r :: 0 <= r < |m| ==> !Dot(m[r], x)
  }

  /** Same shape, same row space, same solutions. */
  ghost predicate RowEquivalent(m: Matrix, k: Matrix, cols: nat) {
    && Rectangular(m, cols) && Rectangular(k, cols) && |m| == |k|
    && (forall v :: InRowSpace(m, cols, v) <==> InRowSpace(k, cols, v))
    && (forall x :: Solution(m, cols, x) <==> Solution(k, cols, x))
  }

  lemma RowEquivalentRefl(m: Matrix, cols: nat)
    requires Rectangular(m, cols)
    ensures RowEquivalent(m, m, cols)
  {
  }

  lemma RowEquivalentTrans(m: Matrix, k: Matrix, l: Matrix, cols: nat)
    requires RowEquivalent(m, k, cols) && RowEquivalent(k, l, cols)
    ensures RowEquivalent(m, l, cols)
  {
  }

  // ---------- adding a row ----------

  function AddRow(m: Matrix, target: nat, source: nat): Matrix
    requires target < |m| && source < |m| && |m[target]| == |m[source]|
  {
    m[target := XorRow(m[target], m[source])]
  }

  /** Picking the source once more makes up for the sum in the target. */
  lemma CombinesAfterAdd(m: Matrix, cols: nat, target: nat, source: nat, c: Row, v: Row)
    requires Rectangular(m, cols) && target < |m| && source < |m| && target != source
    requires Rectangular(AddRow(m, target, source), cols) && Combines(AddRow(m, target, source), cols, c, v)
    ensures Combines(m, cols, c[source := c[source] != c[target]], v)
  {
    var m' := AddRow(m, target, source);
    var c' := c[source := c[source] != c[target]];
    forall j | 0 <= j < cols ensures v[j] == Dot(c', Column(m, cols, j)) {
      var col, col' := Column(m, cols, j), Column(m', cols, j);
      assert col' == col[target := col[target] != col[source]];
      DotUpdate(c, source, c[source] != c[target], col);
      DotUpdate(col, target, col[target] != col[source], c);
      DotSym(col, c);
      DotSym(col', c);
    }
  }

  lemma SpaceAfterAdd(m: Matrix, cols: nat, target: nat, source: nat, v: Row)
    requires Rectangular(m, cols) && target < |m| && source < |m| && target != source
    requires Rectangular(AddRow(m, target, source), cols) && InRowSpace(AddRow(m, target, source), cols, v)
    ensures InRowSpace(m, cols, v)
  {
    var c :| Combines(AddRow(m, target, source), cols, c, v);
    CombinesAfterAdd(m, cols, target, source, c, v);
  }

  /** Adding one row to another keeps row space and solutions. */
  lemma AddKeeps(m: Matrix, cols: nat, target: nat, source: nat)
    requires Rectangular(m, cols) && target < |m| && source < |m| && target != source
    ensures RowEquivalent(m, AddRow(m, target, source), cols)
  {
    var m' := AddRow(m, target, source);
    assert AddRow(m', target, source) == m by {
      assert XorRow(m'[target], m'[source]) == m[target];
    }
    forall v ensures InRowSpace(m, cols, v) <==> InRowSpace(m', cols, v) {
      if InRowSpace(m', cols, v) { SpaceAfterAdd(m, cols, target, source, v); }
      if InRowSpace(m, cols, v) { SpaceAfterAdd(m', cols, target, source, v); }
    }
    forall x ensures Solution(m, cols, x) <==> Solution(m', cols, x) {
      if |x| == cols {
        DotXor(m[target], m[source], x);
        assert forall r :: 0 <= r < |m| && r != target ==> m'[r] == m[r];
      }
    }
  }

  // ---------- swapping rows ----------

  function SwapRows(m: Matrix, i: nat, j: nat): Matrix
    requires i < |m| && j < |m|
  {
    m[i := m[j]][j := m[i]]
  }

  lemma CombinesAfterSwap(m: Matrix, cols: nat, i: nat, k: nat, c: Row, v: Row)
    requires Rectangular(m, cols) && i < |m| && k < |m| && i != k && Combines(SwapRows(m, i, k), cols, c, v)
    ensures Combines(m, cols, c[i := c[k]][k := c[i]], v)
  {
    var m' := SwapRows(m, i, k);
    var c' := c[i := c[k]][k := c[i]];
    forall j | 0 <= j < cols ensures v[j] == Dot(c', Column(m, cols, j)) {
      var col, col' := Column(m, cols, j), Column(m', cols, j);
      assert col' == col[i := col[k]][k := col[i]];
      DotUpdate(c, i, c[k], col);
      DotUpdate(c[i := c[k]], k, c[i], col);
      DotUpdate(col, i, col[k], c);
      DotUpdate(col[i := col[k]], k, col[i], c);
      DotSym(col, c);
      DotSym(col', c);
    }
  }

  lemma SpaceAfterSwap(m: Matrix, cols: nat, i: nat, k: nat, v: Row)
    requires Rectangular(m, cols) && i < |m| && k < |m| && i != k && InRowSpace(SwapRows(m, i, k), cols, v)
    ensures InRowSpace(m, cols, v)
  {
    var c :| Combines(SwapRows(m, i, k), cols, c, v);
    CombinesAfterSwap(m, cols, i, k, c, v);
  }

  lemma SwapKeeps(m: Matrix, cols: nat, i: nat, k: nat)
    requires Rectangular(m, cols) && i < |m| && k < |m| && i != k
    ensures RowEquivalent(m, SwapRows(m, i, k), cols)
  {
    var m' := SwapRows(m, i, k);
    assert SwapRows(m', i, k) == m;
    forall v ensures InRowSpace(m, cols, v) <==> InRowSpace(m', cols, v) {
      if InRowSpace(m', cols, v) { SpaceAfterSwap(m, cols, i, k, v); }
      if InRowSpace(m, cols, v) { SpaceAfterSwap(m', cols, i, k, v); }
    }
    forall x ensures Solution(m, cols, x) <==> Solution(m', cols, x) {
      if Solution(m', cols, x) {
        forall r | 0 <= r < |m| ensures !Dot(m[r], x) {
          assert m[r] == m'[if r == i then k else if r == k then i else r];
        }
      }
    }
  }

  // ---------- reduced echelon form ----------

  ghost predicate Increasing(pivots: seq<nat>, bound: nat) {
    (forall i :: 0 <= i < |pivots| ==> pivots[i] < bound) && forall i, j :: 0 <= i < j < |pivots| ==> pivots[i] < pivots[j]
  }

  /** Row `i` starts with a 1 in column `p`, and no other row has one there. */
  ghost predicate LeadsAt(m: Matrix, cols: nat, i: nat, p: nat)
    requires Rectangular(m, cols)
  {
    && i < |m| && p < cols && m[i][p]
    && (forall c :: 0 <= c < p ==> !m[i][c])
    && (forall r :: 0 <= r < |m| && r != i ==> !m[r][p])
  }

  /** The columns before `col` are done: the first rows lead at the pivots, the others are zero there. */
  ghost predicate Reduced(m: Matrix, cols: nat, pivots: seq<nat>, col: nat)
    requires Rectangular(m, cols) && col <= cols
  {
    && |pivots| <= |m| && Increasing(pivots, col)
    && (forall i :: 0 <= i < |pivots| ==> LeadsAt(m, cols, i, pivots[i]))
    && (forall r, c :: |pivots| <= r < |m| && 0 <= c < col ==> !m[r][c])
  }

  ghost predicate IsRref(m: Matrix, cols: nat, pivots: seq<nat>)
    requires Rectangular(m, cols)
  {
    Reduced(m, cols, pivots, cols)
  }

  /** Once every row has its pivot, the remaining columns need no work. */
  lemma ReducedEarly(m: Matrix, cols: nat, pivots: seq<nat>, col: nat)
    requires Rectangular(m, cols) && col <= cols && Reduced(m, cols, pivots, col) && |pivots| == |m|
    ensures IsRref(m, cols, pivots)
  {
  }

  lemma ReducedSkip(m: Matrix, cols: nat, pivots: seq<nat>, col: nat)
    requires Rectangular(m, cols) && col < cols && Reduced(m, cols, pivots, col)
    requires forall r :: |pivots| <= r < |m| ==> !m[r][col]
    ensures Reduced(m, cols, pivots, col + 1)
  {
    forall i | 0 <= i < |pivots| ensures pivots[i] < col + 1 {}
  }

  /** The pivot row is in place and the rows before `upTo` have been cleared in the column. */
  ghost predicate Clearing(m: Matrix, cols: nat, pivots: seq<nat>, col: nat, upTo: nat)
    requires Rectangular(m, cols)
  {
    && col < cols && |pivots| < |m| && Reduced(m, cols, pivots, col) && m[|pivots|][col]
    && forall r :: 0 <= r < upTo && r < |m| && r != |pivots| ==> !m[r][col]
  }

  lemma ClearingStart(m: Matrix, cols: nat, pivots: seq<nat>, col: nat, r: nat)
    requires Rectangular(m, cols) && col < cols && Reduced(m, cols, pivots, col) && |pivots| <= r < |m| && m[r][col]
    ensures Rectangular(SwapRows(m, |pivots|, r), cols)
    ensures Clearing(SwapRows(m, |pivots|, r), cols, pivots, col, 0)
  {
    var m' := SwapRows(m, |pivots|, r);
    forall i | 0 <= i < |pivots| ensures LeadsAt(m', cols, i, pivots[i]) {
      assert LeadsAt(m, cols, i, pivots[i]);
      assert m'[i] == m[i];
    }
  }

  lemma ClearingAdd(m: Matrix, cols: nat, pivots: seq<nat>, col: nat, r: nat)
    requires Rectangular(m, cols) && Clearing(m, cols, pivots, col, r) && r < |m| && r != |pivots| && m[r][col]
    ensures Rectangular(AddRow(m, r, |pivots|), cols)
    ensures Clearing(AddRow(m, r, |pivots|), cols, pivots, col, r + 1)
  {
    var k := |pivots|;
    var m' := AddRow(m, r, k);
    assert forall c :: 0 <= c < col ==> !m[k][c];
    forall i | 0 <= i < k ensures LeadsAt(m', cols, i, pivots[i]) {
      assert LeadsAt(m, cols, i, pivots[i]);
      assert pivots[i] < col;
    }
  }

  lemma ClearingDone(m: Matrix, cols: nat, pivots: seq<nat>, col: nat)
    requires Rectangular(m, cols) && Clearing(m, cols, pivots, col, |m|)
    ensures Reduced(m, cols, pivots + [col], col + 1)
  {
    var pivots' := pivots + [col];
    forall i | 0 <= i < |pivots'| ensures LeadsAt(m, cols, i, pivots'[i]) {
      if i < |pivots| { assert LeadsAt(m, cols, i, pivots[i]); }
    }
  }

  // ---------- systems ----------

  ghost predicate Satisfies(m: Matrix, cols: nat, x: Row, b: Row)
    requires Rectangular(m, cols) && |b| == |m|
  {
    |x| == cols && forall r :: 0 <= r < |m| ==> Dot(m[r], x) == b[r]
  }

  function Augmented(m: Matrix, b: Row): Matrix
    requires |m| == |b|
  {
    seq(|m|, r requires 0 <= r < |m| => m[r] + [b[r]])
  }

  /** A system is the homogeneous one of its augmented matrix with a last variable that is 1. */
  lemma AugmentedSolution(m: Matrix, cols: nat, x: Row, b: Row)
    requires Rectangular(m, cols) && |b| == |m| && |x| == cols
    ensures Rectangular(Augmented(m, b), cols + 1)
    ensures Satisfies(m, cols, x, b) <==> Solution(Augmented(m, b), cols + 1, x + [true])
  {
    var g, y := Augmented(m, b), x + [true];
    forall r | 0 <= r < |m| ensures Dot(g[r], y) == (Dot(m[r], x) != b[r]) {
      assert g[r][..cols] == m[r] && y[..cols] == x;
    }
  }

  /** A row that is zero up to the last column, and 1 there: no solution. */
  lemma InconsistentRow(g: Matrix, cols: nat, r: nat, x: Row)
    requires Rectangular(g, cols + 1) && r < |g| && |x| == cols
    requires (forall c :: 0 <= c < cols ==> !g[r][c]) && g[r][cols]
    ensures !Solution(g, cols + 1, x + [true])
  {
    var y := x + [true];
    DotFalse(g[r][..cols], y[..cols]);
    assert Dot(g[r], y);
  }

  /** The solution read off: at the first 1 of each row, the row's right-hand side. */
  ghost predicate ReadOff(g: Matrix, cols: nat, rows: nat, x: Row)
    requires Rectangular(g, cols + 1) && rows <= |g|
  {
    && |x| == cols
    && (forall r, c :: 0 <= r < rows && FirstOne(g, cols, r, c) ==> x[c] == g[r][cols])
    && (forall c :: 0 <= c < cols && x[c] ==> exists r :: 0 <= r < rows && FirstOne(g, cols, r, c))
  }

  ghost predicate FirstOne(g: Matrix, cols: nat, r: int, c: int)
    requires Rectangular(g, cols + 1)
  {
    0 <= r < |g| && 0 <= c < cols && g[r][c] && forall d :: 0 <= d < c ==> !g[r][d]
  }

  /** In reduced form, what is read off is a solution. */
  lemma ReadOffSolves(g: Matrix, cols: nat, pivots: seq<nat>, x: Row)
    requires Rectangular(g, cols + 1) && IsRref(g, cols + 1, pivots) && ReadOff(g, cols, |g|, x)
    requires forall r :: 0 <= r < |g| && (forall c :: 0 <= c < cols ==> !g[r][c]) ==> !g[r][cols]
    ensures Solution(g, cols + 1, x + [true])
  {
    var y := x + [true];
    forall r | 0 <= r < |g| ensures !Dot(g[r], y) {
      if forall c :: 0 <= c < cols ==> !g[r][c] {
        DotFalse(g[r], y);
      } else {
        assert r < |pivots| && LeadsAt(g, cols + 1, r, pivots[r]);
        var p := pivots[r];
        assert p < cols && FirstOne(g, cols, r, p);
        // the only 1 of the row that meets a 1 of the solution is its own pivot
        forall c | 0 <= c < cols && g[r][c] && x[c] ensures c == p {
          var s :| 0 <= s < |g| && FirstOne(g, cols, s, c);
          assert s < |pivots| && LeadsAt(g, cols + 1, s, pivots[s]);
          assert pivots[s] == c;
        }
        var only := seq(cols, c requires 0 <= c < cols => c == p && x[p]);
        DotAgree(g[r][..cols], y[..cols], only);
        DotSingle(g[r][..cols], p, only);
      }
    }
  }

  lemma {:induction false} DotSingle(a: Row, p: nat, x: Row)
    requires |a| == |x| && p < |a| && forall i :: 0 <= i < |a| && i != p ==> !x[i]
    ensures Dot(a, x) == (a[p] && x[p])
    decreases |a|
  {
    var n := |a| - 1;
    if p < n { DotSingle(a[..n], p, x[..n]); } else { DotFalse(a[..n], x[..n]); }
  }
}
