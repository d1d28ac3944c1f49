/** Tableaux as values: the solutions of the rows, pivoting, and refutation by one row. */
module Tableaux {
  import opened Lits
  import opened LinearRows

  type Rows = seq<seq<real>>

  /** Square, and the row of a basic variable mentions non-basic variables only. */
  ghost predicate FormOk(rows: Rows, basic: seq<bool>) {
    && |rows| == |basic|
    && (forall i :: 0 <= i < |rows| ==> |rows[i]| == |rows|)
    && (forall i, j :: 0 <= i < |rows| && 0 <= j < |rows| && basic[i] && basic[j] ==> rows[i][j] == 0.0)
  }

  ghost predicate Square(rows: Rows, basic: seq<bool>) {
    |rows| == |basic| && forall i :: 0 <= i < |rows| ==> |rows[i]| == |rows|
  }

  /** The valuation satisfies the equation of every basic variable. */
  ghost predicate Solves(rows: Rows, basic: seq<bool>, v: seq<real>)
    requires Square(rows, basic) && |v| == |rows|
  {
    forall i :: 0 <= i < |rows| && basic[i] ==> v[i] == Dot(rows[i], v)
  }

  ghost predicate SameSolutions(rows: Rows, basic: seq<bool>, rows': Rows, basic': seq<bool>)
    requires Square(rows, basic) && Square(rows', basic') && |rows| == |rows'|
  {
    forall v: seq<real> :: |v| == |rows| ==> (Solves(rows, basic, v) <==> Solves(rows', basic', v))
  }

  // ---------- pivoting ----------

  /** The entry of the solved row: an entry that the row already has for `xi` wins over the new one. */
  function SolvedEntry(row: seq<real>, xi: nat, xj: nat, k: nat): real
    requires xi < |row| && xj < |row| && row[xj] != 0.0 && k < |row|
  {
    if k == xi && (k == xj || row[k] == 0.0) then 1.0 / row[xj]
    else if k == xj then 0.0
    else -row[k] * (1.0 / row[xj])
  }

  /** The row of `xi` solved for `xj`. */
  ghost predicate SolvedFor(row: seq<real>, xi: nat, xj: nat, solved: seq<real>)
    requires xi < |row| && xj < |row| && row[xj] != 0.0
  {
    |solved| == |row| && forall k :: 0 <= k < |row| ==> solved[k] == SolvedEntry(row, xi, xj, k)
  }

  /** The solved row is the old one scaled, plus unit entries at `xi` and `xj`. */
  lemma SolvedIsCombination(row: seq<real>, xi: nat, xj: nat, inv: real, solved: seq<real>, k: nat)
    requires xi < |row| && xj < |row| && xi != xj && row[xj] != 0.0 && row[xi] == 0.0 && inv == 1.0 / row[xj]
    requires SolvedFor(row, xi, xj, solved) && k < |row|
    ensures solved[k] == Zeros(|row|)[xi := inv][xj := 1.0][k] + (-inv) * row[k]
  {
    hide Zeros;
    ZerosAt(|row|, k);
    NegTimes(inv, row[k]);
    NegTimes(row[k], inv);
    InverseCancels(row[xj]);
  }

  lemma ZerosAt(n: nat, k: nat)
    requires k < n
    ensures |Zeros(n)| == n && Zeros(n)[k] == 0.0
  {
  }

  lemma InverseCancels(a: real)
    requires a != 0.0
    ensures (1.0 / a) * a == 1.0
  {
  }

  lemma UnitValue(n: nat, xi: nat, xj: nat, inv: real, v: seq<real>)
    requires xi < n && xj < n && xi != xj && |v| == n
    ensures Dot(Zeros(n)[xi := inv][xj := 1.0], v) == inv * v[xi] + v[xj]
  {
    DotZeros(Zeros(n), v);
    DotUpdate(Zeros(n), xi, inv, v);
    DotUpdate(Zeros(n)[xi := inv], xj, 1.0, v);
  }

  lemma SolveScalar(inv: real, a: real, vi: real, vj: real, d: real, e: real)
    requires inv * a == 1.0 && e == (inv * vi + vj) + (-inv) * d
    ensures vi == d <==> vj == e
  {
    NegTimes(inv, d);
    CancelInverse(inv, a, vi, d);
  }

  lemma SolvedRow(row: seq<real>, xi: nat, xj: nat, solved: seq<real>, v: seq<real>)
    requires xi < |row| && xj < |row| && xi != xj && row[xj] != 0.0 && row[xi] == 0.0 && |v| == |row|
    requires SolvedFor(row, xi, xj, solved)
    ensures v[xi] == Dot(row, v) <==> v[xj] == Dot(solved, v)
  {
    hide Dot, Zeros;
    var n, inv := |row|, 1.0 / row[xj];
    ZerosAt(n, xi);
    var unit := Zeros(n)[xi := inv][xj := 1.0];
    forall k | 0 <= k < n ensures solved[k] == unit[k] + (-inv) * row[k] {
      SolvedIsCombination(row, xi, xj, inv, solved, k);
    }
    assert |solved| == n by { assert SolvedFor(row, xi, xj, solved); }
    DotCombine(unit, -inv, row, solved, v);
    UnitValue(n, xi, xj, inv, v);
    InverseCancels(row[xj]);
    SolveScalar(inv, row[xj], v[xi], v[xj], Dot(row, v), Dot(solved, v));
  }

  lemma NegTimes(x: real, y: real)
    ensures (-x) * y == -(x * y)
    ensures x * y == y * x
  {
  }

  lemma CancelInverse(inv: real, a: real, x: real, y: real)
    requires inv * a == 1.0
    ensures inv * x == inv * y <==> x == y
  {
    if inv * x == inv * y {
      assert a * (inv * x) == (inv * a) * x;
      assert a * (inv * y) == (inv * a) * y;
    }
  }

  ghost predicate Combined(row: seq<real>, b: real, other: seq<real>, sum: seq<real>)
    requires |row| == |other| == |sum|
  {
    forall k :: 0 <= k < |row| ==> sum[k] == row[k] + b * other[k]
  }

  lemma DotCombined(row: seq<real>, b: real, other: seq<real>, sum: seq<real>, v: seq<real>)
    requires |row| == |other| == |sum| == |v| && Combined(row, b, other, sum)
    ensures Dot(sum, v) == Dot(row, v) + b * Dot(other, v)
  {
    DotCombine(row, b, other, sum, v);
  }

  lemma CombinedAt(row: seq<real>, b: real, other: seq<real>, sum: seq<real>, k: nat)
    requires |row| == |other| == |sum| && Combined(row, b, other, sum) && k < |row|
    ensures sum[k] == row[k] + b * other[k]
  {
  }

  /** Another row with `xj` replaced by the solved row. */
  ghost predicate Substituted(row: seq<real>, xj: nat, solved: seq<real>, row': seq<real>)
    requires xj < |row| == |solved|
  {
    |row'| == |row| && Combined(row[xj := 0.0], row[xj], solved, row')
  }

  lemma SubstituteScalar(d: real, b: real, x: real, e: real)
    requires x == e
    ensures (d + (0.0 - b) * x) + b * e == d
  {
  }

  lemma SubstitutedRow(row: seq<real>, xj: nat, solved: seq<real>, row': seq<real>, v: seq<real>)
    requires xj < |row| == |solved| == |v| && Substituted(row, xj, solved, row') && v[xj] == Dot(solved, v)
    ensures Dot(row', v) == Dot(row, v)
  {
    hide Dot, Combined;
    DotCombined(row[xj := 0.0], row[xj], solved, row', v);
    DotUpdate(row, xj, 0.0, v);
    SubstituteScalar(Dot(row, v), row[xj], v[xj], Dot(solved, v));
  }

  /** What `Pivot` makes of the rows. */
  ghost predicate Pivoted(rows: Rows, basic: seq<bool>, xi: nat, xj: nat, rows': Rows)
    requires Square(rows, basic) && xi < |rows| && xj < |rows| && rows[xi][xj] != 0.0
  {
    && |rows'| == |rows|
    && (xi != xj ==> rows'[xi] == Zeros(|rows|))
    && SolvedFor(rows[xi], xi, xj, rows'[xj])
    && forall r :: 0 <= r < |rows| && r != xi && r != xj ==>
        if basic[r] then Substituted(rows[r], xj, rows'[xj], rows'[r]) else rows'[r] == rows[r]
  }

  lemma PivotedSquare(rows: Rows, basic: seq<bool>, xi: nat, xj: nat, rows': Rows)
    requires Square(rows, basic) && xi < |rows| && xj < |rows| && rows[xi][xj] != 0.0 && Pivoted(rows, basic, xi, xj, rows')
    ensures Square(rows', basic[xi := false][xj := true])
  {
    forall i | 0 <= i < |rows| ensures |rows'[i]| == |rows| {
      if i != xi && i != xj {
        assert basic[i] ==> Substituted(rows[i], xj, rows'[xj], rows'[i]);
      } else if i != xj {
        ZerosAt(|rows|, i);
      }
    }
  }

  /** Pivoting keeps the form of the rows. */
  lemma PivotKeepsForm(rows: Rows, basic: seq<bool>, xi: nat, xj: nat, rows': Rows)
    requires FormOk(rows, basic) && xi < |rows| && xj < |rows| && basic[xi] && !basic[xj] && rows[xi][xj] != 0.0
    requires Pivoted(rows, basic, xi, xj, rows')
    ensures FormOk(rows', basic[xi := false][xj := true])
  {
    var basic' := basic[xi := false][xj := true];
    PivotedSquare(rows, basic, xi, xj, rows');
    forall i, k | 0 <= i < |rows| && 0 <= k < |rows| && basic'[i] && basic'[k] ensures rows'[i][k] == 0.0 {
      if i == xj {
        if k != xj { assert basic[k] && rows[xi][k] == 0.0; }
      } else {
        assert basic[i] && Substituted(rows[i], xj, rows'[xj], rows'[i]);
        CombinedAt(rows[i][xj := 0.0], rows[i][xj], rows'[xj], rows'[i], k);
        if k != xj {
          assert basic[k] && rows[xi][k] == 0.0 && rows[i][k] == 0.0;
          assert rows'[xj][k] == 0.0;
        }
        TimesZero(rows[i][xj]);
      }
    }
  }

  lemma TimesZero(x: real)
    ensures x * 0.0 == 0.0
  {
  }

  /** Pivoting keeps the solutions of the rows, exactly. */
  lemma PivotKeepsSolutions(rows: Rows, basic: seq<bool>, xi: nat, xj: nat, rows': Rows)
    requires FormOk(rows, basic) && xi < |rows| && xj < |rows| && basic[xi] && !basic[xj] && rows[xi][xj] != 0.0
    requires Pivoted(rows, basic, xi, xj, rows') && Square(rows', basic[xi := false][xj := true])
    ensures SameSolutions(rows, basic, rows', basic[xi := false][xj := true])
  {
    var basic' := basic[xi := false][xj := true];
    forall v: seq<real> | |v| == |rows| ensures Solves(rows, basic, v) <==> Solves(rows', basic', v) {
      SolvedRow(rows[xi], xi, xj, rows'[xj], v);
      if v[xj] == Dot(rows'[xj], v) {
        forall r | 0 <= r < |rows| && basic[r] && r != xi ensures Dot(rows'[r], v) == Dot(rows[r], v) {
          SubstitutedRow(rows[r], xj, rows'[xj], rows'[r], v);
        }
      }
    }
  }

  lemma SameSolutionsTrans(r0: Rows, b0: seq<bool>, r1: Rows, b1: seq<bool>, r2: Rows, b2: seq<bool>)
    requires Square(r0, b0) && Square(r1, b1) && Square(r2, b2) && |r0| == |r1| == |r2|
    requires SameSolutions(r0, b0, r1, b1) && SameSolutions(r1, b1, r2, b2)
    ensures SameSolutions(r0, b0, r2, b2)
  {
    forall v: seq<real> | |v| == |r0| ensures Solves(r0, b0, v) <==> Solves(r2, b2, v) {
      assert Solves(r0, b0, v) <==> Solves(r1, b1, v);
    }
  }

  // ---------- assignments ----------

  type Assignment = seq<DeltaRational>

  ghost function Cs(a: Assignment): seq<real> { seq(|a|, i requires 0 <= i < |a| => a[i].c) }

  ghost function Ks(a: Assignment): seq<real> { seq(|a|, i requires 0 <= i < |a| => a[i].k) }

  ghost function RowValue(row: seq<real>, a: Assignment): DeltaRational
    requires |row| == |a|
  {
    DeltaRational(Dot(row, Cs(a)), Dot(row, Ks(a)))
  }

  /** Every basic variable has the value of its row. */
  ghost predicate Consistent(rows: Rows, basic: seq<bool>, a: Assignment)
    requires Square(rows, basic) && |a| == |rows|
  {
    forall i :: 0 <= i < |rows| && basic[i] ==> a[i] == RowValue(rows[i], a)
  }

  lemma ConsistentIsSolution(rows: Rows, basic: seq<bool>, a: Assignment)
    requires Square(rows, basic) && |a| == |rows|
    ensures Consistent(rows, basic, a) <==> Solves(rows, basic, Cs(a)) && Solves(rows, basic, Ks(a))
  {
    if Consistent(rows, basic, a) {
      forall i | 0 <= i < |rows| && basic[i] ensures a[i].c == Dot(rows[i], Cs(a)) && a[i].k == Dot(rows[i], Ks(a)) {
        assert a[i] == RowValue(rows[i], a);
      }
    }
  }

  /** The values of the non-basic variables determine a consistent assignment. */
  lemma ConsistentUnique(rows: Rows, basic: seq<bool>, a: Assignment, b: Assignment)
    requires FormOk(rows, basic) && |a| == |b| == |rows| && Consistent(rows, basic, a) && Consistent(rows, basic, b)
    requires forall j :: 0 <= j < |rows| && !basic[j] ==> a[j] == b[j]
    ensures a == b
  {
    forall i | 0 <= i < |rows| ensures a[i] == b[i] {
      if basic[i] { RowValueAgree(rows, basic, i, a, b); }
    }
  }

  lemma RowValueAgree(rows: Rows, basic: seq<bool>, i: nat, a: Assignment, b: Assignment)
    requires FormOk(rows, basic) && |a| == |b| == |rows| && i < |rows| && basic[i]
    requires forall j :: 0 <= j < |rows| && !basic[j] ==> a[j] == b[j]
    ensures RowValue(rows[i], a) == RowValue(rows[i], b)
  {
    forall k | 0 <= k < |rows| && rows[i][k] != 0.0 ensures a[k] == b[k] { assert !basic[k]; }
    DotAgree(rows[i], Cs(a), Cs(b));
    DotAgree(rows[i], Ks(a), Ks(b));
  }

  /** The same solutions admit the same consistent assignments. */
  lemma SameConsistent(rows: Rows, basic: seq<bool>, rows': Rows, basic': seq<bool>, a: Assignment)
    requires Square(rows, basic) && Square(rows', basic') && |rows| == |rows'| == |a|
    requires SameSolutions(rows, basic, rows', basic')
    ensures Consistent(rows, basic, a) <==> Consistent(rows', basic', a)
  {
    ConsistentIsSolution(rows, basic, a);
    ConsistentIsSolution(rows', basic', a);
    assert Solves(rows, basic, Cs(a)) <==> Solves(rows', basic', Cs(a));
    assert Solves(rows, basic, Ks(a)) <==> Solves(rows', basic', Ks(a));
  }

  // ---------- refutation ----------

  /** If one sum is below another, some term is. */
  lemma {:induction false} SomeTermBelow(row: seq<real>, a: Assignment, b: Assignment) returns (j: nat)
    requires |row| == |a| == |b| && RowValue(row, a).Less(RowValue(row, b))
    ensures j < |row| && a[j].Times(row[j]).Less(b[j].Times(row[j]))
    decreases |row|
  {
    assert |row| > 0;
    var n := |row| - 1;
    PrefixValues(row, a);
    PrefixValues(row, b);
    TimesSwap(a[n], row[n]);
    TimesSwap(b[n], row[n]);
    if a[n].Times(row[n]).Less(b[n].Times(row[n])) {
      j := n;
    } else {
      j := SomeTermBelow(row[..n], a[..n], b[..n]);
    }
  }

  lemma TimesSwap(a: DeltaRational, x: real)
    ensures a.Times(x) == DeltaRational(x * a.c, x * a.k)
  {
  }

  lemma PrefixValues(row: seq<real>, a: Assignment)
    requires |row| == |a| > 0
    ensures var n := |row| - 1;
            RowValue(row, a) == RowValue(row[..n], a[..n]).Plus(DeltaRational(row[n] * a[n].c, row[n] * a[n].k))
  {
    var n := |row| - 1;
    assert Cs(a)[..n] == Cs(a[..n]) && Ks(a)[..n] == Ks(a[..n]);
  }

  /** Scaling keeps the order, or turns it round. */
  lemma ScaledBelow(a: DeltaRational, b: DeltaRational, x: real)
    requires a.Times(x).Less(b.Times(x))
    ensures (x > 0.0 && a.Less(b)) || (x < 0.0 && b.Less(a))
  {
    if x > 0.0 {
      MulAtMostIff(a.c, b.c, x);
      MulAtMostIff(a.k, b.k, x);
      MulAtMostIff(b.c, a.c, x);
    } else if x < 0.0 {
      MulAtMostIff(a.c, b.c, -x);
      MulAtMostIff(a.k, b.k, -x);
      MulAtMostIff(b.c, a.c, -x);
      MulAtMostIff(b.k, a.k, -x);
    } else {
      TimesZero(a.c); TimesZero(b.c); TimesZero(a.k); TimesZero(b.k);
    }
  }

  lemma MulAtMostIff(x: real, y: real, d: real)
    requires d > 0.0
    ensures x * d <= y * d <==> x <= y
    ensures x * -d == -(x * d) && y * -d == -(y * d)
  {
    if x > y { MulLess(y, x, d); }
    if x <= y { MulAtMost(x, y, d); }
  }

  type Bounds = seq<Option<Bound>>

  /** The bound carries no reason, or the clause holds the negation of its reason. */
  predicate Named(b: Option<Bound>, conflict: seq<Lit>) {
    b.Some? && (b.value.reason.None? || b.value.reason.value.Not() in conflict)
  }

  ghost predicate Violates(lower: Bounds, upper: Bounds, conflict: seq<Lit>, v: seq<real>, i: nat)
    requires |lower| == |upper| == |v|
  {
    i < |v| && ((Named(lower[i], conflict) && !Above(lower[i], v[i])) || (Named(upper[i], conflict) && !Below(upper[i], v[i])))
  }

  /** No real solution of the rows meets all the bounds that the clause names. */
  ghost predicate Refutes(rows: Rows, basic: seq<bool>, lower: Bounds, upper: Bounds, conflict: seq<Lit>)
    requires Square(rows, basic) && |lower| == |upper| == |rows|
  {
    forall v: seq<real> :: |v| == |rows| && Solves(rows, basic, v) ==> exists i :: Violates(lower, upper, conflict, v, i)
  }

  /** A bound that keeps the variable from moving: the upper one, or the lower one. */
  predicate AtUpper(upper: Bounds, a: Assignment, j: nat)
    requires j < |upper| == |a|
  {
    upper[j].Some? && upper[j].value.value.AtMost(a[j])
  }

  predicate AtLower(lower: Bounds, a: Assignment, j: nat)
    requires j < |lower| == |a|
  {
    lower[j].Some? && a[j].AtMost(lower[j].value.value)
  }

  ghost function Plain(v: seq<real>): Assignment { seq(|v|, i requires 0 <= i < |v| => DeltaRational(v[i], 0.0)) }

  lemma PlainValue(row: seq<real>, v: seq<real>)
    requires |row| == |v|
    ensures RowValue(row, Plain(v)) == DeltaRational(Dot(row, v), 0.0)
  {
    assert Cs(Plain(v)) == v;
    var ks := Ks(Plain(v));
    DotAgree(row, ks, Zeros(|v|));
    DotSwapZeros(row, Zeros(|v|));
  }

  lemma {:induction false} DotSwapZeros(row: seq<real>, v: seq<real>)
    requires |row| == |v| && forall k :: 0 <= k < |v| ==> v[k] == 0.0
    ensures Dot(row, v) == 0.0
    decreases |row|
  {
    if |row| > 0 {
      var n := |row| - 1;
      DotSwapZeros(row[..n], v[..n]);
      TimesZero(row[n]);
    }
  }

  /** Why no pivot means infeasible, below the lower bound: every variable of the row stands at the
      bound that keeps the row from growing. */
  lemma StuckBelow(rows: Rows, basic: seq<bool>, lower: Bounds, upper: Bounds, a: Assignment, i: nat, conflict: seq<Lit>)
    requires Square(rows, basic) && |lower| == |upper| == |a| == |rows| && i < |rows| && basic[i]
    requires Consistent(rows, basic, a) && lower[i].Some? && a[i].Less(lower[i].value.value) && Named(lower[i], conflict)
    requires forall j :: 0 <= j < |rows| && rows[i][j] > 0.0 ==> AtUpper(upper, a, j) && Named(upper[j], conflict)
    requires forall j :: 0 <= j < |rows| && rows[i][j] < 0.0 ==> AtLower(lower, a, j) && Named(lower[j], conflict)
    ensures Refutes(rows, basic, lower, upper, conflict)
  {
    forall v: seq<real> | |v| == |rows| && Solves(rows, basic, v) ensures exists k :: Violates(lower, upper, conflict, v, k) {
      if Above(lower[i], v[i]) {
        PlainValue(rows[i], v);
        assert v[i] == Dot(rows[i], v);
        var j := SomeTermBelow(rows[i], a, Plain(v));
        ScaledBelow(a[j], Plain(v)[j], rows[i][j]);
        assert Violates(lower, upper, conflict, v, j);
      } else {
        assert Violates(lower, upper, conflict, v, i);
      }
    }
  }

  lemma StuckAbove(rows: Rows, basic: seq<bool>, lower: Bounds, upper: Bounds, a: Assignment, i: nat, conflict: seq<Lit>)
    requires Square(rows, basic) && |lower| == |upper| == |a| == |rows| && i < |rows| && basic[i]
    requires Consistent(rows, basic, a) && upper[i].Some? && upper[i].value.value.Less(a[i]) && Named(upper[i], conflict)
    requires forall j :: 0 <= j < |rows| && rows[i][j] > 0.0 ==> AtLower(lower, a, j) && Named(lower[j], conflict)
    requires forall j :: 0 <= j < |rows| && rows[i][j] < 0.0 ==> AtUpper(upper, a, j) && Named(upper[j], conflict)
    ensures Refutes(rows, basic, lower, upper, conflict)
  {
    forall v: seq<real> | |v| == |rows| && Solves(rows, basic, v) ensures exists k :: Violates(lower, upper, conflict, v, k) {
      if Below(upper[i], v[i]) {
        PlainValue(rows[i], v);
        assert v[i] == Dot(rows[i], v);
        var j := SomeTermBelow(rows[i], Plain(v), a);
        ScaledBelow(Plain(v)[j], a[j], rows[i][j]);
        assert Violates(lower, upper, conflict, v, j);
      } else {
        assert Violates(lower, upper, conflict, v, i);
      }
    }
  }

  /** The rows the solver started from are refuted with those it ended with. */
  lemma RefutesSame(rows: Rows, basic: seq<bool>, rows': Rows, basic': seq<bool>, lower: Bounds, upper: Bounds, conflict: seq<Lit>)
    requires Square(rows, basic) && Square(rows', basic') && |rows| == |rows'| == |lower| == |upper|
    requires SameSolutions(rows, basic, rows', basic') && Refutes(rows', basic', lower, upper, conflict)
    ensures Refutes(rows, basic, lower, upper, conflict)
  {
    forall v: seq<real> | |v| == |rows| && Solves(rows, basic, v) ensures exists i :: Violates(lower, upper, conflict, v, i) {
      assert Solves(rows', basic', v);
    }
  }
}
