/** The simplex theory solver: variables, bounds with undo, pivoting and the feasibility search. */
module SimplexTheory {
  import opened Lits
  import opened LinearRows
  import opened Tableaux

  datatype SimplexUndo = SetLower(v: nat, prior: Option<Bound>) | SetUpper(v: nat, prior: Option<Bound>)

  datatype BoundPair = BoundPair(lower: Bounds, upper: Bounds)

  datatype Outcome = Ok | Err(conflict: seq<Lit>)

  const MAX_ITERATIONS := 10000

  // ---------- undo ----------

  function Undo(b: BoundPair, u: SimplexUndo): BoundPair {
    match u
    case SetLower(v, prior) => if v < |b.lower| then b.(lower := b.lower[v := prior]) else b
    case SetUpper(v, prior) => if v < |b.upper| then b.(upper := b.upper[v := prior]) else b
  }

  /** Undoes the actions, the last one first. */
  ghost function Rewind(b: BoundPair, undo: seq<SimplexUndo>): BoundPair
    decreases |undo|
  {
    if undo == [] then b else Rewind(Undo(b, undo[|undo| - 1]), undo[..|undo| - 1])
  }

  lemma {:induction false} RewindSplit(b: BoundPair, x: seq<SimplexUndo>, y: seq<SimplexUndo>)
    ensures Rewind(b, x + y) == Rewind(Rewind(b, y), x)
    decreases |y|
  {
    if y == [] {
      assert x + y == x;
    } else {
      var n := |y| - 1;
      assert (x + y)[..|x + y| - 1] == x + y[..n];
      RewindSplit(Undo(b, y[n]), x, y[..n]);
    }
  }

  function Wider(b: BoundPair): BoundPair { BoundPair(b.lower + [None], b.upper + [None]) }

  ghost predicate InRange(undo: seq<SimplexUndo>, n: nat) { forall i :: 0 <= i < |undo| ==> undo[i].v < n }

  lemma {:induction false} RewindWider(b: BoundPair, undo: seq<SimplexUndo>)
    requires |b.lower| == |b.upper| && InRange(undo, |b.lower|)
    ensures Rewind(Wider(b), undo) == Wider(Rewind(b, undo))
    decreases |undo|
  {
    if undo != [] {
      var n := |undo| - 1;
      RewindWider(Undo(b, undo[n]), undo[..n]);
      assert undo[n].v < |b.lower|;
      assert Undo(Wider(b), undo[n]) == Wider(Undo(b, undo[n]));
    }
  }

  /** The pair with no bounds for the variables made since. */
  ghost function Padded(b: BoundPair, n: nat): BoundPair
    requires |b.lower| == |b.upper| <= n
    decreases n
  {
    if |b.lower| == n then b else Wider(Padded(b, n - 1))
  }

  lemma {:induction false} PaddedAt(b: BoundPair, n: nat)
    requires |b.lower| == |b.upper| <= n
    ensures |Padded(b, n).lower| == |Padded(b, n).upper| == n
    ensures forall i :: 0 <= i < n ==> Padded(b, n).lower[i] == (if i < |b.lower| then b.lower[i] else None)
    ensures forall i :: 0 <= i < n ==> Padded(b, n).upper[i] == (if i < |b.lower| then b.upper[i] else None)
    decreases n
  {
    if |b.lower| < n { PaddedAt(b, n - 1); }
  }

  ghost predicate MarksOk(b: BoundPair, undo: seq<SimplexUndo>, scopes: seq<nat>, frames: seq<BoundPair>) {
    && |b.lower| == |b.upper| && InRange(undo, |b.lower|) && |scopes| == |frames|
    && (forall i, j :: 0 <= i <= j < |scopes| ==> scopes[i] <= scopes[j] <= |undo|)
    && (forall i :: 0 <= i < |frames| ==> MarkOk(b, undo, scopes, frames, i))
  }

  ghost predicate MarkOk(b: BoundPair, undo: seq<SimplexUndo>, scopes: seq<nat>, frames: seq<BoundPair>, i: nat)
    requires |b.lower| == |b.upper| && i < |frames| == |scopes|
  {
    && scopes[i] <= |undo| && |frames[i].lower| == |frames[i].upper| <= |b.lower|
    && Rewind(b, undo[scopes[i]..]) == Padded(frames[i], |b.lower|)
  }

  lemma MarksAfterSet(b: BoundPair, b': BoundPair, undo: seq<SimplexUndo>, u: SimplexUndo, scopes: seq<nat>, frames: seq<BoundPair>)
    requires MarksOk(b, undo, scopes, frames) && Undo(b', u) == b && u.v < |b.lower|
    requires |b'.lower| == |b'.upper| == |b.lower|
    ensures MarksOk(b', undo + [u], scopes, frames)
  {
    forall i | 0 <= i < |frames| ensures MarkOk(b', undo + [u], scopes, frames, i) {
      assert MarkOk(b, undo, scopes, frames, i);
      assert (undo + [u])[scopes[i]..] == undo[scopes[i]..] + [u];
      assert (undo[scopes[i]..] + [u])[..|undo[scopes[i]..]|] == undo[scopes[i]..];
    }
  }

  lemma MarksAfterWider(b: BoundPair, undo: seq<SimplexUndo>, scopes: seq<nat>, frames: seq<BoundPair>)
    requires MarksOk(b, undo, scopes, frames)
    ensures MarksOk(Wider(b), undo, scopes, frames)
  {
    forall i | 0 <= i < |frames| ensures MarkOk(Wider(b), undo, scopes, frames, i) {
      assert MarkOk(b, undo, scopes, frames, i);
      RewindWider(b, undo[scopes[i]..]);
    }
  }

  lemma MarksAfterPush(b: BoundPair, undo: seq<SimplexUndo>, scopes: seq<nat>, frames: seq<BoundPair>)
    requires MarksOk(b, undo, scopes, frames)
    ensures MarksOk(b, undo, scopes + [|undo|], frames + [b])
  {
    var scopes', frames' := scopes + [|undo|], frames + [b];
    forall i | 0 <= i < |frames'| ensures MarkOk(b, undo, scopes', frames', i) {
      if i < |frames| { assert MarkOk(b, undo, scopes, frames, i); } else { assert undo[|undo|..] == []; }
    }
  }

  lemma MarksAfterPop(b: BoundPair, undo: seq<SimplexUndo>, scopes: seq<nat>, frames: seq<BoundPair>)
    requires MarksOk(b, undo, scopes, frames) && |scopes| > 0
    ensures var n := |scopes| - 1;
            && scopes[n] <= |undo| && |frames[n].lower| == |frames[n].upper| <= |b.lower|
            && Rewind(b, undo[scopes[n]..]) == Padded(frames[n], |b.lower|)
            && MarksOk(Padded(frames[n], |b.lower|), undo[..scopes[n]], scopes[..n], frames[..n])
  {
    var n := |scopes| - 1;
    assert MarkOk(b, undo, scopes, frames, n);
    var b', undo' := Padded(frames[n], |b.lower|), undo[..scopes[n]];
    PaddedAt(frames[n], |b.lower|);
    forall i | 0 <= i < n ensures MarkOk(b', undo', scopes[..n], frames[..n], i) {
      assert MarkOk(b, undo, scopes, frames, i);
      assert scopes[i] <= scopes[n];
      assert undo[scopes[i]..] == undo'[scopes[i]..] + undo[scopes[n]..];
      RewindSplit(b, undo'[scopes[i]..], undo[scopes[n]..]);
    }
  }

  // ---------- single steps ----------

  /** The value of a row, summed entry by entry. */
  method RowSum(row: seq<real>, a: Assignment) returns (sum: DeltaRational)
    requires |row| == |a|
    ensures sum == RowValue(row, a)
  {
    sum := ZERO;
    var j := 0;
    while j < |row|
      invariant j <= |row| && sum == RowValue(row[..j], a[..j])
    {
      sum := sum.Plus(a[j].Times(row[j]));
      assert row[..j + 1][..j] == row[..j] && a[..j + 1][..j] == a[..j];
      PrefixValues(row[..j + 1], a[..j + 1]);
      TimesSwap(a[j], row[j]);
      j := j + 1;
    }
    assert row[..j] == row && a[..j] == a;
  }

  /** The equation of `xi` solved for `xj`. */
  method SolveRow(row: seq<real>, xi: nat, xj: nat) returns (solved: seq<real>)
    requires xi < |row| && xj < |row| && row[xj] != 0.0
    ensures SolvedFor(row, xi, xj, solved)
  {
    var inv := 1.0 / row[xj];
    solved := [];
    var k := 0;
    while k < |row|
      invariant k <= |row| && |solved| == k
      invariant forall m :: 0 <= m < k ==> solved[m] == SolvedEntry(row, xi, xj, m)
    {
      solved := solved + [if k == xi && (k == xj || row[k] == 0.0) then inv else if k == xj then 0.0 else -row[k] * inv];
      k := k + 1;
    }
  }

  /** Puts the solved row in for `xj`. */
  method SubstituteRow(row: seq<real>, xj: nat, solved: seq<real>) returns (row': seq<real>)
    requires xj < |row| == |solved|
    ensures Substituted(row, xj, solved, row')
  {
    var coeff := row[xj];
    var base := row[xj := 0.0];
    row' := base;
    var k := 0;
    while k < |row|
      invariant k <= |row| == |row'|
      invariant forall m :: 0 <= m < k ==> row'[m] == base[m] + coeff * solved[m]
      invariant forall m :: k <= m < |row| ==> row'[m] == base[m]
    {
      row' := row'[k := row'[k] + coeff * solved[k]];
      k := k + 1;
    }
  }

  lemma SubstituteNone(row: seq<real>, xj: nat, solved: seq<real>)
    requires xj < |row| == |solved| && row[xj] == 0.0
    ensures Substituted(row, xj, solved, row)
  {
    forall k | 0 <= k < |row| ensures row[k] == row[xj := 0.0][k] + row[xj] * solved[k] { ZeroTimes(solved[k]); }
  }

  /** Moving the variable could repair the row: it is not yet at the bound that stops it. */
  predicate Candidate(row: seq<real>, above: bool, lower: Bounds, upper: Bounds, a: Assignment, j: nat)
    requires |row| == |lower| == |upper| == |a| && j < |row|
  {
    || ((if above then row[j] < 0.0 else row[j] > 0.0) && !AtUpper(upper, a, j))
    || ((if above then row[j] > 0.0 else row[j] < 0.0) && !AtLower(lower, a, j))
  }

  predicate UnderLower(lower: Bounds, a: Assignment, i: nat)
    requires i < |lower| == |a|
  {
    lower[i].Some? && a[i].Less(lower[i].value.value)
  }

  predicate OverUpper(upper: Bounds, a: Assignment, i: nat)
    requires i < |upper| == |a|
  {
    upper[i].Some? && upper[i].value.value.Less(a[i])
  }

  ghost predicate Fits(lower: Bounds, upper: Bounds, a: Assignment, i: nat)
    requires i < |lower| == |upper| == |a|
  {
    !UnderLower(lower, a, i) && !OverUpper(upper, a, i)
  }

  /** Every literal negates the reason of a bound. */
  ghost predicate FromBounds(lower: Bounds, upper: Bounds, conflict: seq<Lit>) {
    forall l :: l in conflict ==> IsReason(lower, l) || IsReason(upper, l)
  }

  ghost predicate IsReason(bounds: Bounds, l: Lit) {
    exists i :: 0 <= i < |bounds| && bounds[i].Some? && bounds[i].value.reason == Some(l.Not())
  }

  function WithReason(conflict: seq<Lit>, b: Option<Bound>): seq<Lit> {
    if b.Some? && b.value.reason.Some? then conflict + [b.value.reason.value.Not()] else conflict
  }

  lemma WithReasonFacts(lower: Bounds, upper: Bounds, conflict: seq<Lit>, i: nat)
    requires |lower| == |upper| && i < |lower| && FromBounds(lower, upper, conflict)
    ensures FromBounds(lower, upper, WithReason(conflict, lower[i])) && FromBounds(lower, upper, WithReason(conflict, upper[i]))
    ensures lower[i].Some? ==> Named(lower[i], WithReason(conflict, lower[i]))
    ensures upper[i].Some? ==> Named(upper[i], WithReason(conflict, upper[i]))
  {
    if lower[i].Some? && lower[i].value.reason.Some? {
      var l := lower[i].value.reason.value.Not();
      assert IsReason(lower, l);
    }
    if upper[i].Some? && upper[i].value.reason.Some? {
      var l := upper[i].value.reason.value.Not();
      assert IsReason(upper, l);
    }
  }

  lemma NamedMore(b: Option<Bound>, c: seq<Lit>, d: seq<Lit>)
    requires Named(b, c) && c <= d
    ensures Named(b, d)
  {
  }

  /** Clauses only grow when reasons are added. */
  lemma WithReasonGrows(c: seq<Lit>, b: Option<Bound>)
    ensures c <= WithReason(c, b)
  {
  }

  /** Two clashing bounds on one variable refute by themselves. */
  lemma ClashRefutes(rows: Rows, basic: seq<bool>, lower: Bounds, upper: Bounds, i: nat, conflict: seq<Lit>)
    requires Square(rows, basic) && |lower| == |upper| == |rows| && i < |rows|
    requires Named(lower[i], conflict) && Named(upper[i], conflict) && upper[i].value.value.Less(lower[i].value.value)
    ensures Refutes(rows, basic, lower, upper, conflict)
  {
    forall v: seq<real> | |v| == |rows| && Solves(rows, basic, v) ensures exists k :: Violates(lower, upper, conflict, v, k) {
      assert Violates(lower, upper, conflict, v, i);
    }
  }

  /** A violated basic variable whose row has no candidate. */
  ghost predicate Stuck(rows: Rows, basic: seq<bool>, lower: Bounds, upper: Bounds, a: Assignment, xi: nat, above: bool)
    requires Square(rows, basic) && |lower| == |upper| == |a| == |rows|
  {
    && xi < |rows| && basic[xi] && Consistent(rows, basic, a)
    && (if above then OverUpper(upper, a, xi) else UnderLower(lower, a, xi))
    && forall j :: 0 <= j < |rows| ==> !Candidate(rows[xi], above, lower, upper, a, j)
  }

  /** The reason of the bound that stops the variable. */
  function StoppedBy(coeff: real, above: bool, l: Option<Bound>, u: Option<Bound>): Option<Bound> {
    if coeff == 0.0 then None else if (coeff > 0.0 && above) || (coeff < 0.0 && !above) then l else u
  }

  /** The clause of a row: the violated bound, then the bounds that stop the first `n` variables of the row. */
  function RowClause(row: seq<real>, lower: Bounds, upper: Bounds, xi: nat, above: bool, n: nat): seq<Lit>
    requires |row| == |lower| == |upper| && xi < |row| && n <= |row|
  {
    if n == 0 then WithReason([], if above then upper[xi] else lower[xi])
    else WithReason(RowClause(row, lower, upper, xi, above, n - 1), StoppedBy(row[n - 1], above, lower[n - 1], upper[n - 1]))
  }

  lemma {:induction false} RowClauseFacts(row: seq<real>, lower: Bounds, upper: Bounds, xi: nat, above: bool, n: nat)
    requires |row| == |lower| == |upper| && xi < |row| && n <= |row|
    ensures FromBounds(lower, upper, RowClause(row, lower, upper, xi, above, n))
    ensures RowClause(row, lower, upper, xi, above, 0) <= RowClause(row, lower, upper, xi, above, n)
    ensures forall k :: 0 <= k < n && (if above then row[k] > 0.0 else row[k] < 0.0) && lower[k].Some? ==>
      Named(lower[k], RowClause(row, lower, upper, xi, above, n))
    ensures forall k :: 0 <= k < n && (if above then row[k] < 0.0 else row[k] > 0.0) && upper[k].Some? ==>
      Named(upper[k], RowClause(row, lower, upper, xi, above, n))
  {
    hide FromBounds, WithReason, Named;
    FromNone(lower, upper);
    WithReasonFacts(lower, upper, [], xi);
    NoReason(lower, upper, []);
    if n > 0 {
      RowClauseFacts(row, lower, upper, xi, above, n - 1);
      var c, d := RowClause(row, lower, upper, xi, above, n - 1), RowClause(row, lower, upper, xi, above, n);
      var j := n - 1;
      WithReasonFacts(lower, upper, c, j);
      NoReason(lower, upper, c);
      WithReasonGrows(c, StoppedBy(row[j], above, lower[j], upper[j]));
      forall k | 0 <= k < j && Named(lower[k], c) ensures Named(lower[k], d) { NamedMore(lower[k], c, d); }
      forall k | 0 <= k < j && Named(upper[k], c) ensures Named(upper[k], d) { NamedMore(upper[k], c, d); }
    }
  }

  lemma NoReason(lower: Bounds, upper: Bounds, c: seq<Lit>)
    requires FromBounds(lower, upper, c)
    ensures WithReason(c, None) == c && FromBounds(lower, upper, WithReason(c, None))
  {
  }

  /** The clause of a violated row without a candidate. */
  method RowConflict(row: seq<real>, lower: Bounds, upper: Bounds, xi: nat, above: bool) returns (conflict: seq<Lit>)
    requires |row| == |lower| == |upper| && xi < |row|
    ensures conflict == RowClause(row, lower, upper, xi, above, |row|) && FromBounds(lower, upper, conflict)
  {
    hide FromBounds, WithReason;
    conflict := WithReason([], if above then upper[xi] else lower[xi]);
    for j := 0 to |row|
      invariant conflict == RowClause(row, lower, upper, xi, above, j)
    {
      if row[j] != 0.0 {
        if (row[j] > 0.0 && above) || (row[j] < 0.0 && !above) {
          conflict := WithReason(conflict, lower[j]);
        } else {
          conflict := WithReason(conflict, upper[j]);
        }
      } else {
        NothingAdded(conflict);
      }
    }
    RowClauseFacts(row, lower, upper, xi, above, |row|);
  }

  lemma NothingAdded(c: seq<Lit>)
    ensures WithReason(c, None) == c
  {
  }

  /** When the assignment satisfies the rows, the clause of a stuck row refutes rows and bounds. */
  lemma StuckRefutes(rows: Rows, basic: seq<bool>, lower: Bounds, upper: Bounds, a: Assignment, xi: nat, above: bool)
    requires Square(rows, basic) && |lower| == |upper| == |a| == |rows|
    requires Stuck(rows, basic, lower, upper, a, xi, above)
    ensures Refutes(rows, basic, lower, upper, RowClause(rows[xi], lower, upper, xi, above, |rows|))
  {
    hide Refutes, Consistent, Solves, FromBounds, WithReason, Named;
    var row := rows[xi];
    var conflict, first := RowClause(row, lower, upper, xi, above, |rows|), RowClause(row, lower, upper, xi, above, 0);
    FromNone(lower, upper);
    WithReasonFacts(lower, upper, [], xi);
    RowClauseFacts(row, lower, upper, xi, above, |rows|);
    forall k | 0 <= k < |rows|
      ensures (if above then rows[xi][k] > 0.0 else rows[xi][k] < 0.0) ==> AtLower(lower, a, k) && Named(lower[k], conflict)
      ensures (if above then rows[xi][k] < 0.0 else rows[xi][k] > 0.0) ==> AtUpper(upper, a, k) && Named(upper[k], conflict)
    {
      assert !Candidate(row, above, lower, upper, a, k);
      assert row[k] == rows[xi][k];
    }
    if above {
      NamedMore(upper[xi], first, conflict);
      StuckAbove(rows, basic, lower, upper, a, xi, conflict);
    } else {
      NamedMore(lower[xi], first, conflict);
      StuckBelow(rows, basic, lower, upper, a, xi, conflict);
    }
  }

  lemma FromNone(lower: Bounds, upper: Bounds)
    ensures FromBounds(lower, upper, [])
  {
  }

  // ---------- where the search starts ----------

  /** The value moved within the bounds, the lower one first. */
  function Clamp(l: Option<Bound>, u: Option<Bound>, x: DeltaRational): DeltaRational {
    var y := if l.Some? && x.Less(l.value.value) then l.value.value else x;
    if u.Some? && u.value.value.Less(y) then u.value.value else y
  }

  /** The assignment with every non-basic variable moved within its bounds. */
  ghost function Clamped(basic: seq<bool>, lower: Bounds, upper: Bounds, a: Assignment): (r: Assignment)
    requires |basic| == |lower| == |upper| == |a|
    ensures |r| == |a|
  {
    seq(|a|, j requires 0 <= j < |a| => if basic[j] then a[j] else Clamp(lower[j], upper[j], a[j]))
  }

  /** The rows evaluated one after the other from row `i` on, each with the values there are then. */
  ghost function Sweep(rows: Rows, basic: seq<bool>, a: Assignment, i: nat): (r: Assignment)
    requires Square(rows, basic) && |a| == |rows| && i <= |rows|
    ensures |r| == |a| && forall j :: 0 <= j < |a| && (!basic[j] || j < i) ==> r[j] == a[j]
    decreases |rows| - i
  {
    if i == |rows| then a
    else Sweep(rows, basic, if basic[i] then a[i := RowValue(rows[i], a)] else a, i + 1)
  }

  /** One sweep is enough when rows mention non-basic variables only. */
  lemma {:induction false} SweepConsistent(rows: Rows, basic: seq<bool>, a: Assignment, i: nat)
    requires FormOk(rows, basic) && |a| == |rows| && i <= |rows|
    requires forall k :: 0 <= k < i && basic[k] ==> a[k] == RowValue(rows[k], a)
    ensures Consistent(rows, basic, Sweep(rows, basic, a, i))
    decreases |rows| - i
  {
    hide RowValue;
    if i < |rows| {
      var b := if basic[i] then a[i := RowValue(rows[i], a)] else a;
      forall k | 0 <= k <= i && basic[k] ensures b[k] == RowValue(rows[k], b) {
        RowValueAgree(rows, basic, k, a, b);
      }
      SweepConsistent(rows, basic, b, i + 1);
    }
  }

  /** The assignment with which the search begins. */
  ghost function StartOf(rows: Rows, basic: seq<bool>, lower: Bounds, upper: Bounds, a: Assignment): (r: Assignment)
    requires Square(rows, basic) && |lower| == |upper| == |a| == |rows|
    ensures |r| == |a|
  {
    Sweep(rows, basic, Clamped(basic, lower, upper, a), 0)
  }

  /** No basic variable of the assignment is outside its bounds. */
  ghost predicate BasicFit(basic: seq<bool>, lower: Bounds, upper: Bounds, a: Assignment)
    requires |basic| == |lower| == |upper| == |a|
  {
    forall i :: 0 <= i < |a| && basic[i] ==> Fits(lower, upper, a, i)
  }

  // ---------- more variables ----------

  function Widen(rows: Rows): Rows { seq(|rows|, i requires 0 <= i < |rows| => rows[i] + [0.0]) }

  lemma DotWiden(row: seq<real>, v: seq<real>)
    requires |v| == |row| + 1
    ensures Dot(row + [0.0], v) == Dot(row, v[..|row|])
  {
    assert (row + [0.0])[..|row|] == row;
    ZeroTimes(v[|row|]);
  }

  function WithRow(rows: Rows, row: seq<real>): Rows { Widen(rows) + [row + [0.0]] }

  lemma WithRowAt(rows: Rows, basic: seq<bool>, row: seq<real>)
    requires Square(rows, basic) && |row| == |rows|
    ensures |WithRow(rows, row)| == |rows| + 1 && WithRow(rows, row)[|rows|] == row + [0.0]
    ensures forall i :: 0 <= i < |rows| ==> WithRow(rows, row)[i] == rows[i] + [0.0]
    ensures forall i :: 0 <= i <= |rows| ==> |WithRow(rows, row)[i]| == |rows| + 1
  {
  }

  lemma FreshForm(rows: Rows, basic: seq<bool>, row: seq<real>, b: bool)
    requires Square(rows, basic) && |row| == |rows|
    ensures FormOk(WithRow(rows, row), basic + [b]) <==>
      FormOk(rows, basic) && (b ==> forall j :: 0 <= j < |row| && basic[j] ==> row[j] == 0.0)
  {
    hide WithRow;
    WithRowAt(rows, basic, row);
    var n, rows', basic' := |rows|, WithRow(rows, row), basic + [b];
    if FormOk(rows', basic') {
      forall i, j | 0 <= i < n && 0 <= j < n && basic[i] && basic[j] ensures rows[i][j] == 0.0 {
        assert basic'[i] && basic'[j] && rows'[i][j] == 0.0;
      }
      forall j | 0 <= j < n && basic[j] && b ensures row[j] == 0.0 { assert basic'[n] && basic'[j] && rows'[n][j] == 0.0; }
    }
    if FormOk(rows, basic) && (b ==> forall j :: 0 <= j < |row| && basic[j] ==> row[j] == 0.0) {
      forall i, j | 0 <= i <= n && 0 <= j <= n && basic'[i] && basic'[j] ensures rows'[i][j] == 0.0 {
        if i < n && j < n { assert basic[i] && basic[j] && rows[i][j] == 0.0; }
      }
    }
  }

  lemma FreshSolves(rows: Rows, basic: seq<bool>, row: seq<real>, b: bool, v: seq<real>)
    requires Square(rows, basic) && |row| == |rows| && |v| == |rows| + 1
    ensures Square(WithRow(rows, row), basic + [b])
    ensures Solves(WithRow(rows, row), basic + [b], v) <==>
        Solves(rows, basic, v[..|rows|]) && (b ==> v[|rows|] == Dot(row, v[..|rows|]))
  {
    hide WithRow, Dot;
    WithRowAt(rows, basic, row);
    var n, rows', basic', w := |rows|, WithRow(rows, row), basic + [b], v[..|rows|];
    DotWiden(row, v);
    forall i | 0 <= i < n ensures Dot(rows'[i], v) == Dot(rows[i], w) && basic'[i] == basic[i] && w[i] == v[i] { DotWiden(rows[i], v); }
    if Solves(rows', basic', v) {
      forall i | 0 <= i < n && basic[i] ensures w[i] == Dot(rows[i], w) { assert basic'[i]; }
      assert basic'[n] == b;
    }
    if Solves(rows, basic, w) && (b ==> v[n] == Dot(row, w)) {
      forall i | 0 <= i <= n && basic'[i] ensures v[i] == Dot(rows'[i], v) {
        if i < n { assert basic[i] && w[i] == Dot(rows[i], w); }
      }
    }
  }

  /** A fresh variable: unconstrained when it is not basic, else equal to its row. */
  lemma FreshVariable(rows: Rows, basic: seq<bool>, row: seq<real>, b: bool)
    requires Square(rows, basic) && |row| == |rows|
    ensures Square(WithRow(rows, row), basic + [b])
    ensures FormOk(WithRow(rows, row), basic + [b]) <==>
      FormOk(rows, basic) && (b ==> forall j :: 0 <= j < |row| && basic[j] ==> row[j] == 0.0)
    ensures forall v: seq<real> :: |v| == |rows| + 1 ==>
      (Solves(WithRow(rows, row), basic + [b], v) <==>
        Solves(rows, basic, v[..|rows|]) && (b ==> v[|rows|] == Dot(row, v[..|rows|])))
  {
    hide WithRow, Solves, FormOk, Dot;
    WithRowAt(rows, basic, row);
    FreshForm(rows, basic, row, b);
    forall v: seq<real> | |v| == |rows| + 1
      ensures Solves(WithRow(rows, row), basic + [b], v) <==>
        Solves(rows, basic, v[..|rows|]) && (b ==> v[|rows|] == Dot(row, v[..|rows|]))
    {
      FreshSolves(rows, basic, row, b, v);
    }
  }

  // ---------- all bounds together ----------

  ghost predicate AllWithin(lower: Bounds, upper: Bounds, v: seq<real>)
    requires |lower| == |upper| == |v|
  {
    forall i :: 0 <= i < |v| ==> Above(lower[i], v[i]) && Below(upper[i], v[i])
  }

  /** The tighter of two lower bounds says what both say. */
  lemma TighterLower(lower: Bounds, upper: Bounds, x: nat, b: Bound, v: seq<real>)
    requires |lower| == |upper| == |v| && x < |v|
    ensures var lower' := if lower[x].None? || lower[x].value.value.Less(b.value) then lower[x := Some(b)] else lower;
            AllWithin(lower', upper, v) <==> AllWithin(lower, upper, v) && Above(Some(b), v[x])
  {
    var lower' := if lower[x].None? || lower[x].value.value.Less(b.value) then lower[x := Some(b)] else lower;
    assert Above(lower'[x], v[x]) <==> Above(lower[x], v[x]) && Above(Some(b), v[x]);
    assert forall i :: 0 <= i < |v| && i != x ==> lower'[i] == lower[i];
  }

  lemma TighterUpper(lower: Bounds, upper: Bounds, x: nat, b: Bound, v: seq<real>)
    requires |lower| == |upper| == |v| && x < |v|
    ensures var upper' := if upper[x].None? || b.value.Less(upper[x].value.value) then upper[x := Some(b)] else upper;
            AllWithin(lower, upper', v) <==> AllWithin(lower, upper, v) && Below(Some(b), v[x])
  {
    var upper' := if upper[x].None? || b.value.Less(upper[x].value.value) then upper[x := Some(b)] else upper;
    assert Below(upper'[x], v[x]) <==> Below(upper[x], v[x]) && Below(Some(b), v[x]);
    assert forall i :: 0 <= i < |v| && i != x ==> upper'[i] == upper[i];
  }

  lemma WiderWithin(lower: Bounds, upper: Bounds, v: seq<real>)
    requires |lower| == |upper| && |v| == |lower| + 1
    ensures AllWithin(lower + [None], upper + [None], v) <==> AllWithin(lower, upper, v[..|lower|])
  {
    var n := |lower|;
    assert forall i :: 0 <= i < n ==> (lower + [None])[i] == lower[i] && (upper + [None])[i] == upper[i] && v[..n][i] == v[i];
  }

  datatype Operand = Const(val: real) | TermOf(t: nat)

  // ---------- what asserting a literal makes of the state ----------

  /** The variables with their terms, the rows, the values and the bounds. */
  datatype Tab = Tab(vars: map<nat, nat>, terms: seq<nat>, basic: seq<bool>, rows: Rows, a: Assignment, lower: Bounds, upper: Bounds)

  ghost predicate TabOk(s: Tab) {
    && |s.terms| == |s.basic| == |s.rows| == |s.a| == |s.lower| == |s.upper|
    && Square(s.rows, s.basic)
    && forall t :: t in s.vars ==> s.vars[t] < |s.terms| && s.terms[s.vars[t]] == t
  }

  /** One more variable, basic with a row or not. */
  function AddVar(s: Tab, term: nat, b: bool, row: seq<real>): Tab {
    Tab(s.vars, s.terms + [term], s.basic + [b], WithRow(s.rows, row), s.a + [ZERO], s.lower + [None], s.upper + [None])
  }

  /** The state in which the term has a variable. */
  function WithTerm(s: Tab, term: nat): Tab {
    if term in s.vars then s else AddVar(s, term, false, Zeros(|s.terms|)).(vars := s.vars[term := |s.terms|])
  }

  /** A bound, if it is tighter than the one there is. */
  function WithBound(s: Tab, x: nat, at: AtomBound, lit: Lit): Tab
    requires x < |s.lower| && x < |s.upper|
  {
    match at
    case LowerAt(v) =>
      if s.lower[x].None? || s.lower[x].value.value.Less(v) then s.(lower := s.lower[x := Some(Bound(v, Some(lit)))]) else s
    case UpperAt(v) =>
      if s.upper[x].None? || v.Less(s.upper[x].value.value) then s.(upper := s.upper[x := Some(Bound(v, Some(lit)))]) else s
  }

  lemma WithTermOk(s: Tab, term: nat)
    requires TabOk(s)
    ensures TabOk(WithTerm(s, term)) && term in WithTerm(s, term).vars && |s.terms| <= |WithTerm(s, term).terms|
    ensures forall t :: t in s.vars ==> t in WithTerm(s, term).vars && WithTerm(s, term).vars[t] == s.vars[t]
  {
    hide WithRow;
    if term !in s.vars { FreshVariable(s.rows, s.basic, Zeros(|s.terms|), false); }
  }

  /** An order literal, over two terms or a term and a constant. */
  datatype Atom = Atom(lit: Lit, op: Cmp, lhs: nat, rhs: Operand)

  /** The state with the variables of both sides. */
  function WithTerms(s: Tab, atom: Atom): Tab {
    match atom.rhs
    case Const(_) => WithTerm(s, atom.lhs)
    case TermOf(t) => WithTerm(WithTerm(s, atom.lhs), t)
  }

  lemma WithTermsOk(s: Tab, atom: Atom)
    requires TabOk(s)
    ensures TabOk(WithTerms(s, atom)) && atom.lhs in WithTerms(s, atom).vars && |s.terms| <= |WithTerms(s, atom).terms|
    ensures atom.rhs.TermOf? ==> atom.rhs.t in WithTerms(s, atom).vars
  {
    hide WithTerm, TabOk;
    WithTermOk(s, atom.lhs);
    if atom.rhs.TermOf? { WithTermOk(WithTerm(s, atom.lhs), atom.rhs.t); }
  }

  /** The state after the literal: a bound on the variable, or on a slack variable for the difference. */
  ghost function Asserted(s: Tab, atom: Atom): Tab
    requires TabOk(s)
  {
    WithTermsOk(s, atom);
    var u := WithTerms(s, atom);
    match atom.rhs
    case Const(val) => WithBound(u, u.vars[atom.lhs], BoundOf(atom.op, atom.lit.neg, val), atom.lit)
    case TermOf(t) =>
      WithBound(AddVar(u, 0, true, DiffRow(|u.terms|, u.vars[atom.lhs], u.vars[t])), |u.terms|, BoundOf(atom.op, atom.lit.neg, 0.0), atom.lit)
  }

  /** The term has a variable, and it is basic. */
  ghost predicate BasicTerm(s: Tab, t: nat)
    requires TabOk(s)
  {
    t in s.vars && s.basic[s.vars[t]]
  }

  lemma WithTermForm(s: Tab, term: nat)
    requires TabOk(s)
    ensures TabOk(WithTerm(s, term))
    ensures FormOk(WithTerm(s, term).rows, WithTerm(s, term).basic) <==> FormOk(s.rows, s.basic)
    ensures forall t :: BasicTerm(WithTerm(s, term), t) <==> BasicTerm(s, t)
  {
    hide WithRow, FormOk;
    WithTermOk(s, term);
    if term !in s.vars { FreshVariable(s.rows, s.basic, Zeros(|s.terms|), false); }
  }

  lemma DiffRowEntries(n: nat, l: nat, r: nat)
    requires l < n && r < n
    ensures |DiffRow(n, l, r)| == n && forall j :: 0 <= j < n ==> (DiffRow(n, l, r)[j] != 0.0 <==> j == l || j == r)
  {
  }

  lemma SlackForm(u: Tab, l: nat, r: nat)
    requires TabOk(u) && l < |u.terms| && r < |u.terms|
    ensures
      var w := AddVar(u, 0, true, DiffRow(|u.terms|, l, r));
      FormOk(w.rows, w.basic) <==> FormOk(u.rows, u.basic) && !u.basic[l] && !u.basic[r]
  {
    hide WithRow, FormOk, DiffRow;
    DiffRowEntries(|u.terms|, l, r);
    FreshVariable(u.rows, u.basic, DiffRow(|u.terms|, l, r), true);
  }

  lemma BoundKeepsRows(s: Tab, x: nat, at: AtomBound, lit: Lit)
    requires x < |s.lower| && x < |s.upper|
    ensures var w := WithBound(s, x, at, lit);
      w.rows == s.rows && w.basic == s.basic && w.vars == s.vars && w.terms == s.terms && w.a == s.a
  {
  }

  /** Asserting keeps rows over non-basic variables exactly when no variable of the two terms is basic. */
  lemma AssertedForm(s: Tab, atom: Atom)
    requires TabOk(s)
    ensures FormOk(Asserted(s, atom).rows, Asserted(s, atom).basic) <==>
      FormOk(s.rows, s.basic) && (atom.rhs.TermOf? ==> !BasicTerm(s, atom.lhs) && !BasicTerm(s, atom.rhs.t))
  {
    hide WithTerm, WithBound, AddVar, FormOk, DiffRow;
    WithTermsOk(s, atom);
    WithTermForm(s, atom.lhs);
    match atom.rhs
    case Const(val) =>
      var u := WithTerm(s, atom.lhs);
      BoundKeepsRows(u, u.vars[atom.lhs], BoundOf(atom.op, atom.lit.neg, val), atom.lit);
    case TermOf(t) =>
      var u1 := WithTerm(s, atom.lhs);
      var u := WithTerm(u1, t);
      WithTermForm(u1, t);
      PairState(s, atom);
      var n := |u.terms|;
      SlackForm(u, u.vars[atom.lhs], u.vars[t]);
      assert BasicTerm(u, atom.lhs) <==> u.basic[u.vars[atom.lhs]];
      assert BasicTerm(u, t) <==> u.basic[u.vars[t]];
      var w := AddVar(u, 0, true, DiffRow(n, u.vars[atom.lhs], u.vars[t]));
      SlackSize(u, DiffRow(n, u.vars[atom.lhs], u.vars[t]));
      BoundKeepsRows(w, n, BoundOf(atom.op, atom.lit.neg, 0.0), atom.lit);
  }

  lemma SlackSize(u: Tab, row: seq<real>)
    requires TabOk(u)
    ensures |AddVar(u, 0, true, row).lower| == |u.terms| + 1 == |AddVar(u, 0, true, row).upper|
  {
  }

  // ---------- the search, state by state ----------

  /** The variable is basic and outside its bounds, and no basic variable before it is. */
  ghost predicate FirstViolated(s: Tab, xi: nat, above: bool)
    requires TabOk(s)
  {
    && xi < |s.a| && s.basic[xi]
    && (if above then OverUpper(s.upper, s.a, xi) && !UnderLower(s.lower, s.a, xi) else UnderLower(s.lower, s.a, xi))
    && forall i :: 0 <= i < xi && s.basic[i] ==> Fits(s.lower, s.upper, s.a, i)
  }

  ghost predicate HasCandidate(s: Tab, xi: nat, above: bool, xj: nat)
    requires TabOk(s) && xi < |s.rows|
  {
    xj < |s.rows| && Candidate(s.rows[xi], above, s.lower, s.upper, s.a, xj)
  }

  /** What `Pivot` makes of the state: the two variables are exchanged, and one sweep evaluates the rows. */
  ghost predicate Step(s: Tab, xi: nat, xj: nat, next: Tab)
    requires TabOk(s)
  {
    && xi < |s.rows| && xj < |s.rows| && s.rows[xi][xj] != 0.0 && TabOk(next)
    && next == Tab(s.vars, s.terms, s.basic[xi := false][xj := true], next.rows, next.a, s.lower, s.upper)
    && Pivoted(s.rows, s.basic, xi, xj, next.rows) && next.a == Sweep(next.rows, next.basic, s.a, 0)
  }

  ghost predicate NoneViolated(s: Tab)
    requires TabOk(s)
  {
    BasicFit(s.basic, s.lower, s.upper, s.a)
  }

  /** Some choice of pivots takes the search, with `k` iterations left, to the state and the outcome. */
  ghost predicate Searches(s: Tab, k: nat, after: Tab, res: Outcome)
    requires TabOk(s)
    decreases k
  {
    if k == 0 || NoneViolated(s) then after == s && res.Ok?
    else exists xi: nat, above: bool :: FirstViolated(s, xi, above) && Continues(s, k, xi, above, after, res)
  }

  ghost predicate Continues(s: Tab, k: nat, xi: nat, above: bool, after: Tab, res: Outcome)
    requires TabOk(s) && k > 0 && xi < |s.rows|
    decreases k, 0
  {
    if forall xj: nat :: !HasCandidate(s, xi, above, xj) then
      after == s && res == Err(RowClause(s.rows[xi], s.lower, s.upper, xi, above, |s.rows|))
    else exists xj: nat, next: Tab :: HasCandidate(s, xi, above, xj) && Step(s, xi, xj, next) && Searches(next, k - 1, after, res)
  }

  /** The first variable whose bounds clash. */
  ghost predicate FirstClash(s: Tab, i: nat)
    requires TabOk(s)
  {
    i < |s.lower| && Clash(s.lower[i], s.upper[i]) && forall j :: 0 <= j < i ==> !Clash(s.lower[j], s.upper[j])
  }

  ghost predicate NoClash(s: Tab)
    requires TabOk(s)
  {
    forall i :: 0 <= i < |s.lower| ==> !Clash(s.lower[i], s.upper[i])
  }

  /** The state in which the search begins. */
  ghost function Started(s: Tab): (r: Tab)
    requires TabOk(s)
    ensures TabOk(r)
  {
    s.(a := StartOf(s.rows, s.basic, s.lower, s.upper, s.a))
  }

  /** Some run of `solve_simplex` takes the state to the other one and the outcome. */
  ghost predicate Solved(s: Tab, after: Tab, res: Outcome)
    requires TabOk(s)
  {
    && (NoClash(s) ==> Searches(Started(s), MAX_ITERATIONS, after, res))
    && forall i: nat :: FirstClash(s, i) ==> after == s && res == Err(WithReason(WithReason([], s.lower[i]), s.upper[i]))
  }

  /** A step of the search, read backwards. */
  lemma SearchStep(s: Tab, k: nat, xi: nat, above: bool, xj: nat, next: Tab, after: Tab, res: Outcome)
    requires TabOk(s) && k > 0 && FirstViolated(s, xi, above) && HasCandidate(s, xi, above, xj) && Step(s, xi, xj, next)
    requires Searches(next, k - 1, after, res)
    ensures Searches(s, k, after, res)
  {
    hide Candidate, Step, Fits, UnderLower, OverUpper;
    assert !NoneViolated(s) by { NotFitting(s, xi, above); }
    assert Continues(s, k, xi, above, after, res);
  }

  /** What a search does first when a row is violated and has a candidate. */
  lemma SearchUnrolled(s: Tab, k: nat, xi: nat, above: bool, xj: nat, after: Tab, res: Outcome) returns (yj: nat, next: Tab)
    requires TabOk(s) && k > 0 && FirstViolated(s, xi, above) && HasCandidate(s, xi, above, xj) && Searches(s, k, after, res)
    ensures HasCandidate(s, xi, above, yj) && Step(s, xi, yj, next) && TabOk(next) && Searches(next, k - 1, after, res)
  {
    hide Candidate, Fits, UnderLower, OverUpper, Pivoted, Sweep, RowClause;
    NotFitting(s, xi, above);
    var zi: nat, bbove: bool :| FirstViolated(s, zi, bbove) && Continues(s, k, zi, bbove, after, res);
    SameViolated(s, xi, above, zi, bbove);
    yj, next :| HasCandidate(s, xi, above, yj) && Step(s, xi, yj, next) && Searches(next, k - 1, after, res);
  }

  /** A violated row without a candidate ends the search. */
  lemma SearchOnlyStuck(s: Tab, k: nat, xi: nat, above: bool, after: Tab, res: Outcome)
    requires TabOk(s) && k > 0 && FirstViolated(s, xi, above) && (forall xj: nat :: !HasCandidate(s, xi, above, xj)) && Searches(s, k, after, res)
    ensures after == s && res == Err(RowClause(s.rows[xi], s.lower, s.upper, xi, above, |s.rows|))
  {
    hide HasCandidate, Fits, UnderLower, OverUpper, Pivoted, Sweep, RowClause;
    NotFitting(s, xi, above);
    var zi: nat, bbove: bool :| FirstViolated(s, zi, bbove) && Continues(s, k, zi, bbove, after, res);
    SameViolated(s, xi, above, zi, bbove);
  }

  lemma SameViolated(s: Tab, xi: nat, above: bool, yi: nat, bbove: bool)
    requires TabOk(s) && FirstViolated(s, xi, above) && FirstViolated(s, yi, bbove)
    ensures xi == yi && above == bbove
  {
    assert !Fits(s.lower, s.upper, s.a, xi) && !Fits(s.lower, s.upper, s.a, yi);
  }

  lemma NotFitting(s: Tab, xi: nat, above: bool)
    requires TabOk(s) && FirstViolated(s, xi, above)
    ensures !NoneViolated(s)
  {
    assert !Fits(s.lower, s.upper, s.a, xi);
  }

  lemma SearchStuck(s: Tab, k: nat, xi: nat, above: bool)
    requires TabOk(s) && k > 0 && FirstViolated(s, xi, above) && forall xj: nat :: !HasCandidate(s, xi, above, xj)
    ensures Searches(s, k, s, Err(RowClause(s.rows[xi], s.lower, s.upper, xi, above, |s.rows|)))
  {
    hide HasCandidate, RowClause;
    NotFitting(s, xi, above);
    assert Continues(s, k, xi, above, s, Err(RowClause(s.rows[xi], s.lower, s.upper, xi, above, |s.rows|)));
  }

  class SimplexSolver {
    var termToVar: map<nat, nat>
    var varToTerm: seq<nat>
    var isBasic: seq<bool>
    var tableau: Rows
    var assignment: Assignment
    var lower: Bounds
    var upper: Bounds
    var undoStack: seq<SimplexUndo>
    var scopes: seq<nat>
    ghost var frames: seq<BoundPair>

    constructor ()
      ensures Valid() && varToTerm == [] && FormOk(tableau, isBasic) && frames == []
      ensures State() == Tab(map[], [], [], [], [], [], [])
    {
      termToVar, varToTerm, isBasic, tableau, assignment := map[], [], [], [], [];
      lower, upper, undoStack, scopes, frames := [], [], [], [], [];
    }

    ghost predicate Shape()
      reads this
    {
      && |varToTerm| == |isBasic| == |tableau| == |assignment| == |lower| == |upper|
      && Square(tableau, isBasic)
      && forall t :: t in termToVar ==> termToVar[t] < |varToTerm| && varToTerm[termToVar[t]] == t
    }

    ghost function State(): Tab
      reads this
    {
      Tab(termToVar, varToTerm, isBasic, tableau, assignment, lower, upper)
    }

    ghost predicate Valid()
      reads this
    {
      Shape() && MarksOk(BoundPair(lower, upper), undoStack, scopes, frames)
    }

    /** The real valuations of the variables that satisfy rows and bounds. */
    ghost function Models(): iset<seq<real>>
      requires Shape()
      reads this
    {
      iset v: seq<real> | |v| == |varToTerm| && Solves(tableau, isBasic, v) && AllWithin(lower, upper, v) :: v
    }

    // ---------- variables ----------

    method AddVariable(term: nat, b: bool, row: seq<real>) returns (x: nat)
      requires Valid() && |row| == |varToTerm|
      modifies this`varToTerm, this`isBasic, this`tableau, this`assignment, this`lower, this`upper
      ensures Valid() && x == old(|varToTerm|) && varToTerm == old(varToTerm) + [term] && isBasic == old(isBasic) + [b]
      ensures State() == AddVar(old(State()), term, b, row)
      ensures FormOk(tableau, isBasic) <==>
        old(FormOk(tableau, isBasic)) && (b ==> forall j :: 0 <= j < |row| && isBasic[j] ==> row[j] == 0.0)
      ensures forall v: seq<real> :: |v| == x + 1 ==>
        (v in Models() <==> v[..x] in old(Models()) && (b ==> v[x] == Dot(row, v[..x])))
    {
      hide Solves, AllWithin, FormOk, WithRow, MarksOk, Square, Dot;
      x := |varToTerm|;
      FreshVariable(tableau, isBasic, row, b);
      SquareSize(tableau, isBasic);
      MarksAfterWider(BoundPair(lower, upper), undoStack, scopes, frames);
      ghost var lower0, upper0 := lower, upper;
      varToTerm := varToTerm + [term];
      isBasic := isBasic + [b];
      tableau := WithRow(tableau, row);
      assignment := assignment + [ZERO];
      lower := lower + [None];
      upper := upper + [None];
      SquareSize(tableau, isBasic);
      forall v: seq<real> | |v| == x + 1
        ensures v in Models() <==> v[..x] in old(Models()) && (b ==> v[x] == Dot(row, v[..x]))
      {
        WiderWithin(lower0, upper0, v);
      }
    }

    /** The variable of a term, made when it is new. */
    method GetOrCreateVar(term: nat) returns (x: nat)
      requires Valid()
      modifies this`termToVar, this`varToTerm, this`isBasic, this`tableau, this`assignment, this`lower, this`upper
      ensures Valid() && old(|varToTerm|) <= |varToTerm| && term in termToVar && termToVar[term] == x
      ensures forall t :: t in old(termToVar) ==> t in termToVar && termToVar[t] == old(termToVar)[t]
      ensures FormOk(tableau, isBasic) <==> old(FormOk(tableau, isBasic))
      ensures isBasic[..old(|varToTerm|)] == old(isBasic) && (x >= old(|varToTerm|) ==> !isBasic[x])
      ensures State() == WithTerm(old(State()), term)
      ensures forall v: seq<real> :: |v| == |varToTerm| ==> (v in Models() <==> v[..old(|varToTerm|)] in old(Models()))
    {
      if term in termToVar {
        x := termToVar[term];
        forall v: seq<real> | |v| == |varToTerm| ensures v in Models() <==> v[..old(|varToTerm|)] in old(Models()) {
          assert v[..|varToTerm|] == v;
        }
        return;
      }
      x := AddVariable(term, false, Zeros(|varToTerm|));
      termToVar := termToVar[term := x];
    }

    /** A slack variable defined by a row. */
    method CreateSlackVar(row: seq<real>) returns (x: nat)
      requires Valid() && |row| == |varToTerm|
      modifies this`varToTerm, this`isBasic, this`tableau, this`assignment, this`lower, this`upper
      ensures Valid() && x == old(|varToTerm|) && |varToTerm| == x + 1 && isBasic == old(isBasic) + [true]
      ensures State() == AddVar(old(State()), 0, true, row)
      ensures FormOk(tableau, isBasic) <==>
        old(FormOk(tableau, isBasic)) && forall j :: 0 <= j < |row| && isBasic[j] ==> row[j] == 0.0
      ensures forall v: seq<real> :: |v| == x + 1 ==> (v in Models() <==> v[..x] in old(Models()) && v[x] == Dot(row, v[..x]))
    {
      x := AddVariable(0, true, row);
    }

    // ---------- bounds ----------

    /** Keeps the tighter of the two lower bounds. */
    method SetLowerBound(x: nat, bound: Bound)
      requires Valid() && x < |varToTerm|
      modifies this`lower, this`undoStack
      ensures Valid()
      ensures lower == if old(lower)[x].None? || old(lower)[x].value.value.Less(bound.value) then old(lower)[x := Some(bound)] else old(lower)
      ensures forall v: seq<real> :: |v| == |varToTerm| ==> (v in Models() <==> v in old(Models()) && Above(Some(bound), v[x]))
    {
      var prior := lower[x];
      ghost var before := BoundPair(lower, upper);
      forall v: seq<real> | |v| == |varToTerm| { TighterLower(lower, upper, x, bound, v); }
      if prior.None? || prior.value.value.Less(bound.value) {
        assert lower[x := Some(bound)][x := prior] == lower;
        MarksAfterSet(before, BoundPair(lower[x := Some(bound)], upper), undoStack, SetLower(x, prior), scopes, frames);
        undoStack := undoStack + [SetLower(x, prior)];
        lower := lower[x := Some(bound)];
      }
    }

    method SetUpperBound(x: nat, bound: Bound)
      requires Valid() && x < |varToTerm|
      modifies this`upper, this`undoStack
      ensures Valid()
      ensures upper == if old(upper)[x].None? || bound.value.Less(old(upper)[x].value.value) then old(upper)[x := Some(bound)] else old(upper)
      ensures forall v: seq<real> :: |v| == |varToTerm| ==> (v in Models() <==> v in old(Models()) && Below(Some(bound), v[x]))
    {
      var prior := upper[x];
      ghost var before := BoundPair(lower, upper);
      forall v: seq<real> | |v| == |varToTerm| { TighterUpper(lower, upper, x, bound, v); }
      if prior.None? || bound.value.Less(prior.value.value) {
        assert upper[x := Some(bound)][x := prior] == upper;
        MarksAfterSet(before, BoundPair(lower, upper[x := Some(bound)]), undoStack, SetUpper(x, prior), scopes, frames);
        undoStack := undoStack + [SetUpper(x, prior)];
        upper := upper[x := Some(bound)];
      }
    }

    /** The bound of an order literal against a constant. */
    method AssertBound(lit: Lit, op: Cmp, x: nat, val: real)
      requires Valid() && x < |varToTerm|
      modifies this`lower, this`upper, this`undoStack
      ensures Valid() && State() == WithBound(old(State()), x, BoundOf(op, lit.neg, val), lit)
      ensures forall v: seq<real> :: |v| == |varToTerm| ==> (v in Models() <==> v in old(Models()) && Compares(op, v[x], val) != lit.neg)
    {
      forall v: seq<real> | |v| == |varToTerm| { BoundMeaning(op, lit.neg, val, v[x]); }
      match BoundOf(op, lit.neg, val)
      case LowerAt(value) => SetLowerBound(x, Bound(value, Some(lit)));
      case UpperAt(value) => SetUpperBound(x, Bound(value, Some(lit)));
    }

    /** An order literal over two variables: a slack variable for their difference, and its bound. */
    method AssertDifference(lit: Lit, op: Cmp, l: nat, r: nat) returns (s: nat)
      requires Valid() && l < |varToTerm| && r < |varToTerm|
      modifies this`varToTerm, this`isBasic, this`tableau, this`assignment, this`lower, this`upper, this`undoStack
      ensures Valid() && s == old(|varToTerm|) && |varToTerm| == s + 1
      ensures State() == WithBound(AddVar(old(State()), 0, true, DiffRow(s, l, r)), s, BoundOf(op, lit.neg, 0.0), lit)
      ensures l != r ==> forall v: seq<real> :: |v| == s + 1 ==>
        (v in Models() <==> v[..s] in old(Models()) && v[s] == v[l] - v[r] && Compares(op, v[l], v[r]) != lit.neg)
    {
      hide Shape, Valid, Models, Compares, DiffRow, Dot, Zeros;
      ShapeFacts();
      DiffRowSize(|varToTerm|, l, r);
      DiffRowMeaning(|varToTerm|, l, r);
      ghost var row := DiffRow(|varToTerm|, l, r);
      s := CreateSlackVar(DiffRow(|varToTerm|, l, r));
      ghost var made := Models();
      ShapeFacts();
      AssertBound(lit, op, s, 0.0);
      if l != r {
        forall v: seq<real> | |v| == s + 1
          ensures v in Models() <==> v[..s] in old(Models()) && v[s] == v[l] - v[r] && Compares(op, v[l], v[r]) != lit.neg
        {
          assert v in Models() <==> v in made && Compares(op, v[s], 0.0) != lit.neg;
          assert Dot(row, v[..s]) == v[..s][l] - v[..s][r];
          CompareDifference(op, v[l], v[r]);
        }
      }
    }

    lemma ShapeFacts()
      requires Valid()
      ensures TabOk(State())
      ensures Shape() && forall t :: t in termToVar ==> termToVar[t] < |varToTerm| && varToTerm[termToVar[t]] == t
    {
    }

    /** An order literal over two terms, or a term and a constant: exactly the models of before in
        which it is true, as long as the two terms differ. */
    method AssertTerm(lit: Lit, op: Cmp, lhs: nat, rhs: Operand)
      requires Valid()
      modifies this`termToVar, this`varToTerm, this`isBasic, this`tableau, this`assignment, this`lower, this`upper, this`undoStack
      ensures Valid() && old(|varToTerm|) <= |varToTerm|
      ensures lhs in termToVar && (rhs.TermOf? ==> rhs.t in termToVar && |varToTerm| > old(|varToTerm|))
      ensures Shape() && State() == Asserted(old(State()), Atom(lit, op, lhs, rhs))
      ensures FormOk(tableau, isBasic) <==>
        old(FormOk(tableau, isBasic)) && (rhs.TermOf? ==> !old(BasicTerm(State(), lhs)) && !old(BasicTerm(State(), rhs.t)))
      ensures rhs.Const? ==> forall v: seq<real> :: |v| == |varToTerm| ==>
        (v in Models() <==> v[..old(|varToTerm|)] in old(Models()) && Compares(op, v[termToVar[lhs]], rhs.val) != lit.neg)
      ensures rhs.TermOf? && rhs.t != lhs ==> forall v: seq<real> :: |v| == |varToTerm| ==>
        (v in Models() <==>
          && v[..old(|varToTerm|)] in old(Models()) && v[|v| - 1] == v[termToVar[lhs]] - v[termToVar[rhs.t]]
          && Compares(op, v[termToVar[lhs]], v[termToVar[rhs.t]]) != lit.neg)
    {
      hide Shape, Valid, Models, Compares, Asserted, TabOk;
      ShapeFacts();
      AssertedForm(State(), Atom(lit, op, lhs, rhs));
      match rhs
      case Const(val) => AssertConstant(lit, op, lhs, val);
      case TermOf(t) => AssertPair(lit, op, lhs, t);
    }

    method AssertConstant(lit: Lit, op: Cmp, lhs: nat, val: real)
      requires Valid()
      modifies this`termToVar, this`varToTerm, this`isBasic, this`tableau, this`assignment, this`lower, this`upper, this`undoStack
      ensures Valid() && Shape() && old(|varToTerm|) <= |varToTerm| && lhs in termToVar && termToVar[lhs] < |varToTerm|
      ensures State() == Asserted(old(State()), Atom(lit, op, lhs, Const(val)))
      ensures forall v: seq<real> :: |v| == |varToTerm| ==>
        (v in Models() <==> v[..old(|varToTerm|)] in old(Models()) && Compares(op, v[termToVar[lhs]], val) != lit.neg)
    {
      hide Shape, Valid, Models, Compares;
      ShapeFacts();
      var x := GetOrCreateVar(lhs);
      ShapeFacts();
      ghost var made := Models();
      AssertBound(lit, op, x, val);
      ShapeFacts();
      forall v: seq<real> | |v| == |varToTerm|
        ensures v in Models() <==> v[..old(|varToTerm|)] in old(Models()) && Compares(op, v[x], val) != lit.neg
      {
        assert v in Models() <==> v in made && Compares(op, v[x], val) != lit.neg;
      }
    }

    /** The variables of two terms. */
    method PairVars(lhs: nat, t: nat) returns (l: nat, r: nat)
      requires Valid()
      modifies this`termToVar, this`varToTerm, this`isBasic, this`tableau, this`assignment, this`lower, this`upper
      ensures Valid() && Shape() && old(|varToTerm|) <= |varToTerm| && l < |varToTerm| && r < |varToTerm|
      ensures lhs in termToVar && t in termToVar && termToVar[lhs] == l && termToVar[t] == r && (t != lhs ==> l != r)
      ensures State() == WithTerm(WithTerm(old(State()), lhs), t)
      ensures FormOk(tableau, isBasic) <==> old(FormOk(tableau, isBasic))
      ensures forall v: seq<real> :: |v| == |varToTerm| ==> (v in Models() <==> v[..old(|varToTerm|)] in old(Models()))
    {
      hide Shape, Valid, Models, WithTerm, FormOk, TabOk;
      ghost var n0 := |varToTerm|;
      ShapeFacts();
      l := GetOrCreateVar(lhs);
      ghost var n1 := |varToTerm|;
      ShapeFacts();
      ghost var left := Models();
      r := GetOrCreateVar(t);
      ShapeFacts();
      forall v: seq<real> | |v| == |varToTerm| ensures v in Models() <==> v[..n0] in old(Models()) {
        assert v[..n1][..n0] == v[..n0];
      }
    }

    method AssertPair(lit: Lit, op: Cmp, lhs: nat, t: nat)
      requires Valid()
      modifies this`termToVar, this`varToTerm, this`isBasic, this`tableau, this`assignment, this`lower, this`upper, this`undoStack
      ensures Valid() && Shape() && old(|varToTerm|) < |varToTerm|
      ensures lhs in termToVar && t in termToVar && termToVar[lhs] < |varToTerm| && termToVar[t] < |varToTerm|
      ensures State() == Asserted(old(State()), Atom(lit, op, lhs, TermOf(t)))
      ensures t != lhs ==> forall v: seq<real> :: |v| == |varToTerm| ==>
        (v in Models() <==>
          && v[..old(|varToTerm|)] in old(Models()) && v[|v| - 1] == v[termToVar[lhs]] - v[termToVar[t]]
          && Compares(op, v[termToVar[lhs]], v[termToVar[t]]) != lit.neg)
    {
      hide Shape, Valid, Models, Compares, WithTerm, WithBound, AddVar, WithTerms, Asserted, FormOk, TabOk;
      ghost var n0 := |varToTerm|;
      ShapeFacts();
      PairState(State(), Atom(lit, op, lhs, TermOf(t)));
      var l, r := PairVars(lhs, t);
      ghost var paired := Models();
      var s := AssertDifference(lit, op, l, r);
      ShapeFacts();
      if t != lhs {
        forall v: seq<real> | |v| == |varToTerm|
          ensures v in Models() <==> v[..n0] in old(Models()) && v[s] == v[l] - v[r] && Compares(op, v[l], v[r]) != lit.neg
        {
          assert v[..s][..n0] == v[..n0];
          assert v[..s] in paired <==> v[..n0] in old(Models());
        }
      }
    }

    method Push()
      requires Valid()
      modifies this`scopes, this`frames
      ensures Valid() && frames == old(frames) + [BoundPair(lower, upper)] && |scopes| == old(|scopes|) + 1
    {
      MarksAfterPush(BoundPair(lower, upper), undoStack, scopes, frames);
      scopes := scopes + [|undoStack|];
      frames := frames + [BoundPair(lower, upper)];
    }

    /** The bounds are again those `Push` saw; variables made since have none. */
    method Pop()
      requires Valid()
      modifies this`lower, this`upper, this`undoStack, this`scopes, this`frames
      ensures Valid()
      ensures old(frames) == [] ==> frames == [] && lower == old(lower) && upper == old(upper)
      ensures old(frames) != [] ==>
        && frames == old(frames)[..|old(frames)| - 1]
        && var was := old(frames[|frames| - 1]);
           |was.lower| == |was.upper| <= |lower| && BoundPair(lower, upper) == Padded(was, |lower|)
    {
      if |scopes| > 0 {
        MarksAfterPop(BoundPair(lower, upper), undoStack, scopes, frames);
        var n := |scopes| - 1;
        var target := scopes[n];
        ghost var start, undo0 := BoundPair(lower, upper), undoStack;
        PaddedAt(frames[n], |lower|);
        while |undoStack| > target
          invariant target <= |undoStack| <= |undo0| && undoStack == undo0[..|undoStack|]
          invariant |lower| == |upper| == |start.lower|
          invariant Rewind(BoundPair(lower, upper), undoStack[target..]) == Rewind(start, undo0[target..])
          invariant scopes == old(scopes) && frames == old(frames)
        {
          var m := |undoStack| - 1;
          assert undoStack[target..][..m - target] == undoStack[..m][target..];
          match undoStack[m] {
            case SetLower(x, prior) => if x < |lower| { lower := lower[x := prior]; }
            case SetUpper(x, prior) => if x < |upper| { upper := upper[x := prior]; }
          }
          undoStack := undoStack[..m];
        }
        assert undoStack[target..] == [];
        scopes := scopes[..n];
        frames := frames[..n];
      }
    }

    // ---------- pivoting ----------

    /** Gives every basic variable the value of its row, in one sweep. */
    method UpdateBasicAssignments()
      requires Shape()
      modifies this`assignment
      ensures Shape() && assignment == Sweep(tableau, isBasic, old(assignment), 0)
      ensures FormOk(tableau, isBasic) ==> Consistent(tableau, isBasic, assignment)
    {
      hide Dot, RowValue, Consistent, FormOk;
      var i := 0;
      while i < |tableau|
        invariant i <= |tableau| == |assignment| && Shape()
        invariant Sweep(tableau, isBasic, assignment, i) == Sweep(tableau, isBasic, old(assignment), 0)
      {
        if isBasic[i] {
          var sum := RowSum(tableau[i], assignment);
          assignment := assignment[i := sum];
        }
        i := i + 1;
      }
      if FormOk(tableau, isBasic) { SweepConsistent(tableau, isBasic, old(assignment), 0); }
    }

    /** Exchanges a basic variable and another one of its row. When rows mention non-basic variables only,
        they keep doing so, their solutions are those of before, and a consistent assignment stays. */
    method Pivot(xi: nat, xj: nat)
      requires Shape() && xi < |tableau| && xj < |tableau| && isBasic[xi] && tableau[xi][xj] != 0.0
      modifies this`tableau, this`isBasic, this`assignment
      ensures Shape() && TabOk(old(State())) && Step(old(State()), xi, xj, State())
      ensures old(FormOk(tableau, isBasic)) ==>
        && FormOk(tableau, isBasic) && SameSolutions(old(tableau), old(isBasic), tableau, isBasic)
        && Consistent(tableau, isBasic, assignment)
        && (Consistent(old(tableau), old(isBasic), old(assignment)) ==> assignment == old(assignment))
      ensures forall j :: 0 <= j < |assignment| && !isBasic[j] ==> assignment[j] == old(assignment)[j]
    {
      hide SolvedFor, Substituted, SameSolutions, Consistent, FormOk;
      ghost var rows0, basic0 := tableau, isBasic;
      var n := |tableau|;
      var solved := SolveRow(tableau[xi], xi, xj);
      SolvedSize(tableau[xi], xi, xj, solved);
      var r := 0;
      while r < n
        invariant r <= n == |tableau| && isBasic == basic0 && assignment == old(assignment)
        invariant forall k :: 0 <= k < n && (k >= r || k == xi || !basic0[k]) ==> tableau[k] == rows0[k]
        invariant forall k :: 0 <= k < r && k != xi && basic0[k] ==> Substituted(rows0[k], xj, solved, tableau[k])
      {
        if r != xi && isBasic[r] {
          if tableau[r][xj] != 0.0 {
            var row := SubstituteRow(tableau[r], xj, solved);
            tableau := tableau[r := row];
          } else {
            SubstituteNone(tableau[r], xj, solved);
          }
        }
        r := r + 1;
      }
      tableau := tableau[xi := Zeros(n)][xj := solved];
      isBasic := isBasic[xi := false][xj := true];
      PivotedIntro(rows0, basic0, xi, xj, solved, tableau);
      PivotedSquare(rows0, basic0, xi, xj, tableau);
      UpdateBasicAssignments();
      if FormOk(rows0, basic0) { PivotSound(rows0, basic0, xi, xj, tableau, old(assignment), assignment); }
    }

    // ---------- the feasibility search ----------

    /** Moves non-basic variables within their bounds. */
    method AdjustNonBasic()
      requires Shape() && forall i :: 0 <= i < |lower| ==> !Clash(lower[i], upper[i])
      modifies this`assignment
      ensures Shape() && assignment == Clamped(isBasic, lower, upper, old(assignment))
      ensures forall j :: 0 <= j < |assignment| && !isBasic[j] ==> Fits(lower, upper, assignment, j)
    {
      var j := 0;
      while j < |tableau|
        invariant j <= |tableau| == |assignment| == old(|assignment|)
        invariant forall k :: 0 <= k < j && !isBasic[k] ==> Fits(lower, upper, assignment, k)
        invariant forall k :: 0 <= k < |assignment| ==>
          assignment[k] == if k < j then Clamped(isBasic, lower, upper, old(assignment))[k] else old(assignment)[k]
      {
        if !isBasic[j] {
          if UnderLower(lower, assignment, j) { assignment := assignment[j := lower[j].value.value]; }
          if OverUpper(upper, assignment, j) { assignment := assignment[j := upper[j].value.value]; }
          assert !Clash(lower[j], upper[j]);
        }
        j := j + 1;
      }
    }

    /** The first basic variable outside its bounds. */
    method FindViolated() returns (found: Option<(nat, bool)>)
      requires Shape()
      ensures TabOk(State()) && (found.None? <==> NoneViolated(State()))
      ensures found.Some? ==> FirstViolated(State(), found.value.0, found.value.1)
    {
      var i := 0;
      while i < |tableau|
        invariant i <= |tableau|
        invariant forall k :: 0 <= k < i && isBasic[k] ==> Fits(lower, upper, assignment, k)
      {
        if isBasic[i] {
          if UnderLower(lower, assignment, i) { return Some((i, false)); }
          if OverUpper(upper, assignment, i) { return Some((i, true)); }
        }
        i := i + 1;
      }
      return None;
    }

    /** A variable with clashing bounds, if there is one: its clause. */
    method FindClash() returns (found: Option<seq<Lit>>)
      requires Shape()
      ensures found.None? ==> forall i :: 0 <= i < |lower| ==> !Clash(lower[i], upper[i])
      ensures found.Some? ==> Refutes(tableau, isBasic, lower, upper, found.value) && FromBounds(lower, upper, found.value)
      ensures TabOk(State()) && (found.None? <==> NoClash(State()))
      ensures found.Some? ==> Solved(State(), State(), Err(found.value))
    {
      hide Refutes, FromBounds, WithReason, Solved;
      var i := 0;
      while i < |tableau|
        invariant i <= |tableau| && forall k :: 0 <= k < i ==> !Clash(lower[k], upper[k])
      {
        if Clash(lower[i], upper[i]) {
          ClashNamed(tableau, isBasic, lower, upper, i);
          SolvedClash(State(), i);
          return Some(WithReason(WithReason([], lower[i]), upper[i]));
        }
        i := i + 1;
      }
      return None;
    }

    /** The assignment satisfies rows and bounds. */
    ghost predicate Feasible()
      requires Shape()
      reads this
    {
      Consistent(tableau, isBasic, assignment) && forall i :: 0 <= i < |assignment| ==> Fits(lower, upper, assignment, i)
    }

    /** The assignment the search would begin with, given the state. */
    ghost predicate StartFits()
      requires Shape()
      reads this
    {
      BasicFit(isBasic, lower, upper, StartOf(tableau, isBasic, lower, upper, assignment))
    }

    /** The search: pivots violated basic variables out of the basis until none is left, a row is stuck,
        or the cap is reached. When rows mention non-basic variables only, their solutions never change,
        `Err` is a refutation, and, as pivoting then moves no value, `Ok` means feasible exactly when
        nothing was outside its bounds once the non-basic values were moved within theirs and the rows
        were evaluated. */
    method SolveSimplex() returns (res: Outcome, ghost pivots: nat)
      requires Shape()
      modifies this`tableau, this`isBasic, this`assignment
      ensures Shape() && (old(Valid()) ==> Valid()) && TabOk(old(State())) && Solved(old(State()), State(), res)
      ensures res.Err? ==> FromBounds(lower, upper, res.conflict)
      ensures old(FormOk(tableau, isBasic)) ==>
        && FormOk(tableau, isBasic) && SameSolutions(old(tableau), old(isBasic), tableau, isBasic)
        && (res.Err? ==> Refutes(old(tableau), old(isBasic), lower, upper, res.conflict))
        && (res.Ok? ==> Consistent(tableau, isBasic, assignment) && (Feasible() <==> old(StartFits())))
      ensures old(StartFits()) && (forall i :: 0 <= i < |lower| ==> !Clash(lower[i], upper[i])) ==> res.Ok?
      ensures res.Ok? && pivots < MAX_ITERATIONS ==> forall i :: 0 <= i < |tableau| && isBasic[i] ==> Fits(lower, upper, assignment, i)
    {
      hide FormOk, SameSolutions, Refutes, FromBounds, Consistent, Fits, Clash, Clamped, Sweep, Searches, Solved, BasicFit;
      ghost var s0 := State();
      SameSolutionsRefl(tableau, isBasic);
      var clash := FindClash();
      if clash.Some? { return Err(clash.value), 0; }
      AdjustNonBasic();
      label Adjusted:
      UpdateBasicAssignments();
      ghost var s := State();
      assert s == Started(s0);
      forall j | 0 <= j < |assignment| && !isBasic[j] ensures Fits(lower, upper, assignment, j) {
        FitsSame(lower, upper, old@Adjusted(assignment), assignment, j);
      }
      res, pivots := Search();
      SolvedIntro(s0, State(), res);
      OkMeans(s.basic, isBasic, lower, upper, s.a, assignment, res, pivots);
    }

    /** The iterations, from a state whose non-basic values are within their bounds. */
    method Search() returns (res: Outcome, ghost pivots: nat)
      requires Shape()
      modifies this`tableau, this`isBasic, this`assignment
      ensures Shape() && TabOk(State()) && TabOk(old(State())) && |tableau| == |old(tableau)|
      ensures Searches(old(State()), MAX_ITERATIONS, State(), res)
      ensures res.Err? ==> FromBounds(lower, upper, res.conflict)
      ensures old(FormOk(tableau, isBasic) && Consistent(tableau, isBasic, assignment)) ==>
        && FormOk(tableau, isBasic) && SameSolutions(old(tableau), old(isBasic), tableau, isBasic)
        && Consistent(tableau, isBasic, assignment) && assignment == old(assignment)
        && (res.Err? ==> Refutes(old(tableau), old(isBasic), lower, upper, res.conflict))
      ensures BasicFit(old(isBasic), lower, upper, old(assignment)) ==> res.Ok? && pivots == 0
      ensures pivots == 0 ==> State() == old(State())
      ensures res.Ok? && pivots < MAX_ITERATIONS ==> BasicFit(isBasic, lower, upper, assignment)
    {
      hide FormOk, SameSolutions, Refutes, FromBounds, Consistent, BasicFit, Searches;
      pivots := 0;
      SameSolutionsRefl(tableau, isBasic);
      ghost var s, rows0, basic0 := State(), tableau, isBasic;
      ghost var sound := FormOk(rows0, basic0) && Consistent(rows0, basic0, assignment);
      var iterations := 0;
      while true
        invariant Shape() && TabOk(State()) && |tableau| == |rows0| && iterations <= MAX_ITERATIONS && pivots == iterations
        invariant forall after, res :: Searches(State(), MAX_ITERATIONS - iterations, after, res) ==> Searches(s, MAX_ITERATIONS, after, res)
        invariant sound ==>
          && FormOk(tableau, isBasic) && SameSolutions(rows0, basic0, tableau, isBasic)
          && Consistent(tableau, isBasic, assignment) && assignment == s.a
        invariant pivots == 0 ==> State() == s
        invariant pivots > 0 ==> !BasicFit(basic0, lower, upper, s.a)
        decreases MAX_ITERATIONS - iterations
      {
        iterations := iterations + 1;
        if iterations > MAX_ITERATIONS {
          SearchEnds(State(), 0);
          return Ok, pivots;
        }
        ghost var rows1, basic1 := tableau, isBasic;
        var done := Iterate(MAX_ITERATIONS + 1 - iterations);
        if done.Some? {
          if done.value.Err? && sound { RefutesSame(rows0, basic0, tableau, isBasic, lower, upper, done.value.conflict); }
          return done.value, pivots;
        }
        if sound { SameSolutionsTrans(rows0, basic0, rows1, basic1, tableau, isBasic); }
        pivots := pivots + 1;
      }
      return Ok, pivots;
    }

    /** One iteration: a pivot, or the end of the search. */
    method Iterate(ghost k: nat) returns (done: Option<Outcome>)
      requires Shape() && k > 0
      modifies this`tableau, this`isBasic, this`assignment
      ensures Shape() && TabOk(State()) && TabOk(old(State())) && |tableau| == |old(tableau)|
      ensures done.None? ==>
        && (forall after, res :: Searches(State(), k - 1, after, res) ==> Searches(old(State()), k, after, res))
        && !BasicFit(old(isBasic), lower, upper, old(assignment))
        && (old(FormOk(tableau, isBasic)) ==>
             && FormOk(tableau, isBasic) && SameSolutions(old(tableau), old(isBasic), tableau, isBasic)
             && Consistent(tableau, isBasic, assignment)
             && (Consistent(old(tableau), old(isBasic), old(assignment)) ==> assignment == old(assignment)))
      ensures done.Some? ==>
        && State() == old(State()) && Searches(State(), k, State(), done.value)
        && (done.value.Ok? <==> BasicFit(isBasic, lower, upper, assignment))
        && (done.value.Err? ==> FromBounds(lower, upper, done.value.conflict))
        && (done.value.Err? && Consistent(tableau, isBasic, assignment) ==> Refutes(tableau, isBasic, lower, upper, done.value.conflict))
    {
      hide FormOk, SameSolutions, Refutes, FromBounds, Consistent, Candidate, Fits, Stuck, UnderLower, OverUpper, BasicFit, Searches, Step,
        FirstViolated, HasCandidate, RowClause;
      ghost var s := State();
      var violated := FindViolated();
      if violated.None? {
        SearchEnds(s, k);
        return Some(Ok);
      }
      var (xi, above) := violated.value;
      ViolatedFacts(s, xi, above);
      var row := tableau[xi];
      if exists j :: 0 <= j < |row| && Candidate(row, above, lower, upper, assignment, j) {
        var xj :| 0 <= xj < |row| && Candidate(row, above, lower, upper, assignment, xj);
        CandidateIn(s, xi, above, xj);
        Pivot(xi, xj);
        SearchMoves(s, k, xi, above, xj, State());
        return None;
      }
      NoCandidateIn(s, xi, above);
      SearchStuck(s, k, xi, above);
      var conflict := RowConflict(tableau[xi], lower, upper, xi, above);
      if Consistent(tableau, isBasic, assignment) {
        StuckIntro(tableau, isBasic, lower, upper, assignment, xi, above);
        StuckRefutes(tableau, isBasic, lower, upper, assignment, xi, above);
      }
      return Some(Err(conflict));
    }

    // ---------- entailed equalities ----------

    /** In every model a row with coefficients 1 and -1 is a difference within the bounds of its variable. */
    lemma DifferenceRow(r: nat, vi: nat, vj: nat, v: seq<real>)
      requires Shape() && v in Models() && r < |tableau| && isBasic[r] && vi < |varToTerm| && vj < |varToTerm| && vi != vj
      requires OnlyTwo(tableau[r], vi, vj)
      ensures |v| == |varToTerm|
      ensures tableau[r][vi] == 1.0 && tableau[r][vj] == -1.0 ==> v[r] == v[vi] - v[vj]
      ensures tableau[r][vi] == -1.0 && tableau[r][vj] == 1.0 ==> v[r] == v[vj] - v[vi]
      ensures lower[r].Some? && ZERO.AtMost(lower[r].value.value) ==> v[r] >= 0.0
      ensures upper[r].Some? && upper[r].value.value.AtMost(ZERO) ==> v[r] <= 0.0
    {
      hide Dot, OnlyTwo;
      DotOfTwo(tableau[r], vi, vj, v);
      UnitTimes(v[vi]);
      UnitTimes(v[vj]);
      assert v[r] == Dot(tableau[r], v) && Above(lower[r], v[r]) && Below(upper[r], v[r]);
    }

    lemma ModelsShape()
      requires Shape()
      ensures forall v :: v in Models() ==> |v| == |varToTerm|
    {
    }

    lemma FixedValue(x: nat, v: seq<real>)
      requires Shape() && v in Models() && x < |varToTerm| && FixedTo(lower[x], upper[x])
      ensures |v| == |varToTerm| && lower[x].value.value == DeltaRational(v[x], 0.0)
    {
      assert Above(lower[x], v[x]) && Below(upper[x], v[x]);
    }

    /** A row that says `vi <= vj` is right in every model. */
    lemma AtMostHolds(r: nat, vi: nat, vj: nat, v: seq<real>)
      requires Shape() && TabOk(State()) && v in Models() && vi < |varToTerm| && vj < |varToTerm| && vi != vj
      requires SaysAtMost(State(), r, vi, vj)
      ensures |v| == |varToTerm| && v[vi] <= v[vj]
    {
      DifferenceRow(r, vi, vj, v);
    }

    lemma EquatedHolds(vi: nat, vj: nat, v: seq<real>)
      requires Shape() && TabOk(State()) && v in Models() && vi < |varToTerm| && vj < |varToTerm|
      requires Equated(State(), vi, vj)
      ensures |v| == |varToTerm| && v[vi] == v[vj]
    {
      hide Models, OnlyTwo;
      ModelsShape();
      if vi != vj {
        if BothFixed(State(), vi, vj) {
          FixedValue(vi, v);
          FixedValue(vj, v);
        } else {
          var r, q :| SaysAtMost(State(), r, vi, vj) && SaysAtMost(State(), q, vj, vi);
          AtMostHolds(r, vi, vj, v);
          AtMostHolds(q, vj, vi, v);
        }
      }
    }

    /** Whether the bounds fix both variables to one value, or some rows bound their difference from
        both sides by zero. */
    method IsEqualEntailed(vi: nat, vj: nat) returns (yes: bool)
      requires Shape() && vi < |varToTerm| && vj < |varToTerm|
      ensures TabOk(State()) && (yes <==> Equated(State(), vi, vj))
      ensures yes ==> forall v :: v in Models() ==> v[vi] == v[vj]
    {
      hide Models, OnlyTwo;
      ModelsShape();
      ghost var s := State();
      assert TabOk(s);
      if Equated(s, vi, vj) {
        forall v | v in Models() ensures v[vi] == v[vj] { EquatedHolds(vi, vj, v); }
      }
      if vi == vj { return true; }
      if FixedTo(lower[vi], upper[vi]) && FixedTo(lower[vj], upper[vj]) && lower[vi].value.value == lower[vj].value.value {
        return true;
      }
      var iLeJ, jLeI := false, false;
      var r := 0;
      while r < |tableau|
        invariant r <= |tableau|
        invariant iLeJ <==> exists k :: 0 <= k < r && SaysAtMost(s, k, vi, vj)
        invariant jLeI <==> exists k :: 0 <= k < r && SaysAtMost(s, k, vj, vi)
      {
        OnlyTwoSwaps(tableau[r], vi, vj);
        if isBasic[r] && OnlyTwo(tableau[r], vi, vj) {
          var ci, cj := tableau[r][vi], tableau[r][vj];
          var low := lower[r].Some? && ZERO.AtMost(lower[r].value.value);
          var high := upper[r].Some? && upper[r].value.value.AtMost(ZERO);
          if (ci == 1.0 && cj == -1.0) || (ci == -1.0 && cj == 1.0) {
            assert SaysAtMost(s, r, vi, vj) <==> if ci == 1.0 then high else low;
            assert SaysAtMost(s, r, vj, vi) <==> if ci == 1.0 then low else high;
            if low && high { return true; }
            if high { if ci == 1.0 { iLeJ := true; } else { jLeI := true; } }
            if low { if ci == 1.0 { jLeI := true; } else { iLeJ := true; } }
          }
        }
        r := r + 1;
      }
      return iLeJ && jLeI;
    }
  }

  /** Row `r` is the difference of the two variables, and its bound says that the first is at most the
      second. */
  ghost predicate SaysAtMost(s: Tab, r: nat, i: nat, j: nat)
    requires TabOk(s) && i < |s.rows| && j < |s.rows|
  {
    && r < |s.rows| && s.basic[r] && OnlyTwo(s.rows[r], i, j)
    && ((s.rows[r][i] == 1.0 && s.rows[r][j] == -1.0 && s.upper[r].Some? && s.upper[r].value.value.AtMost(ZERO))
        || (s.rows[r][i] == -1.0 && s.rows[r][j] == 1.0 && s.lower[r].Some? && ZERO.AtMost(s.lower[r].value.value)))
  }

  /** Lower and upper bounds of both variables are there and have one value. */
  ghost predicate BothFixed(s: Tab, i: nat, j: nat)
    requires TabOk(s) && i < |s.rows| && j < |s.rows|
  {
    FixedTo(s.lower[i], s.upper[i]) && FixedTo(s.lower[j], s.upper[j]) && s.lower[i].value.value == s.lower[j].value.value
  }

  /** What the solver sees of an equality: one variable, two fixed to one value, or two rows (or one) that
      bound the difference from both sides. */
  ghost predicate Equated(s: Tab, i: nat, j: nat)
    requires TabOk(s) && i < |s.rows| && j < |s.rows|
  {
    || i == j || BothFixed(s, i, j)
    || ((exists r :: SaysAtMost(s, r, i, j)) && (exists r :: SaysAtMost(s, r, j, i)))
  }

  lemma OnlyTwoSwaps(row: seq<real>, i: nat, j: nat)
    requires i < |row| && j < |row|
    ensures OnlyTwo(row, i, j) <==> OnlyTwo(row, j, i)
  {
  }

  predicate FixedTo(lower: Option<Bound>, upper: Option<Bound>) {
    lower.Some? && upper.Some? && lower.value.value == upper.value.value
  }

  /** The row has entries for these two variables and no others. */
  predicate OnlyTwo(row: seq<real>, i: nat, j: nat)
    requires i < |row| && j < |row|
  {
    row[i] != 0.0 && row[j] != 0.0 && forall k :: 0 <= k < |row| && k != i && k != j ==> row[k] == 0.0
  }

  lemma PairState(s: Tab, atom: Atom)
    requires TabOk(s) && atom.rhs.TermOf?
    ensures
      var u := WithTerm(WithTerm(s, atom.lhs), atom.rhs.t);
      && TabOk(u) && atom.lhs in u.vars && atom.rhs.t in u.vars
      && Asserted(s, atom) == WithBound(AddVar(u, 0, true, DiffRow(|u.terms|, u.vars[atom.lhs], u.vars[atom.rhs.t])), |u.terms|,
                                        BoundOf(atom.op, atom.lit.neg, 0.0), atom.lit)
  {
    WithTermsOk(s, atom);
  }

  lemma DotOfTwo(row: seq<real>, i: nat, j: nat, v: seq<real>)
    requires i < |row| && j < |row| && i != j && OnlyTwo(row, i, j) && |v| == |row|
    ensures Dot(row, v) == row[i] * v[i] + row[j] * v[j]
  {
    hide Dot;
    var n := |row|;
    var one := Zeros(n)[i := row[i]];
    assert row == one[j := row[j]];
    DotZeros(Zeros(n), v);
    DotUpdate(Zeros(n), i, row[i], v);
    DotUpdate(one, j, row[j], v);
    MinusNothing(row[i], v[i]);
    MinusNothing(row[j], v[j]);
  }

  lemma UnitTimes(x: real)
    ensures 1.0 * x == x && -1.0 * x == -x
  {
  }

  lemma MinusNothing(x: real, y: real)
    ensures (x - 0.0) * y == x * y
  {
  }

  predicate Clash(lower: Option<Bound>, upper: Option<Bound>) {
    lower.Some? && upper.Some? && upper.value.value.Less(lower.value.value)
  }

  lemma SolvedSize(row: seq<real>, xi: nat, xj: nat, solved: seq<real>)
    requires xi < |row| && xj < |row| && row[xj] != 0.0 && SolvedFor(row, xi, xj, solved)
    ensures |solved| == |row|
  {
  }

  lemma PivotedIntro(rows: Rows, basic: seq<bool>, xi: nat, xj: nat, solved: seq<real>, rows': Rows)
    requires Square(rows, basic) && xi < |rows| && xj < |rows| && rows[xi][xj] != 0.0 && |rows'| == |rows|
    requires SolvedFor(rows[xi], xi, xj, solved) && rows'[xj] == solved && (xi != xj ==> rows'[xi] == Zeros(|rows|)) && |solved| == |rows|
    requires forall k :: 0 <= k < |rows| && k != xi && k != xj && !basic[k] ==> rows'[k] == rows[k]
    requires forall k :: 0 <= k < |rows| && k != xi && k != xj && basic[k] ==> Substituted(rows[k], xj, solved, rows'[k])
    ensures Pivoted(rows, basic, xi, xj, rows')
  {
  }

  /** A pivot over rows that mention non-basic variables only. */
  lemma PivotSound(rows: Rows, basic: seq<bool>, xi: nat, xj: nat, rows': Rows, a: Assignment, a': Assignment)
    requires FormOk(rows, basic) && xi < |rows| && xj < |rows| && basic[xi] && rows[xi][xj] != 0.0
    requires Pivoted(rows, basic, xi, xj, rows') && |a| == |a'| == |rows|
    requires Square(rows, basic) && Square(rows', basic[xi := false][xj := true])
    requires FormOk(rows', basic[xi := false][xj := true]) ==> Consistent(rows', basic[xi := false][xj := true], a')
    requires forall j :: 0 <= j < |a| && !basic[xi := false][xj := true][j] ==> a'[j] == a[j]
    ensures FormOk(rows', basic[xi := false][xj := true]) && SameSolutions(rows, basic, rows', basic[xi := false][xj := true])
    ensures Consistent(rows', basic[xi := false][xj := true], a') && (Consistent(rows, basic, a) ==> a' == a)
  {
    var basic' := basic[xi := false][xj := true];
    assert !basic[xj];
    hide FormOk, SameSolutions, Consistent, Pivoted;
    PivotKeepsForm(rows, basic, xi, xj, rows');
    PivotKeepsSolutions(rows, basic, xi, xj, rows');
    if Consistent(rows, basic, a) {
      SameConsistent(rows, basic, rows', basic', a);
      ConsistentUnique(rows', basic', a', a);
    }
  }

  lemma ClashNamed(rows: Rows, basic: seq<bool>, lower: Bounds, upper: Bounds, i: nat)
    requires Square(rows, basic) && |lower| == |upper| == |rows| && i < |rows| && Clash(lower[i], upper[i])
    ensures var d := WithReason(WithReason([], lower[i]), upper[i]);
      Refutes(rows, basic, lower, upper, d) && FromBounds(lower, upper, d)
  {
    hide Refutes, FromBounds, WithReason;
    FromNone(lower, upper);
    WithReasonFacts(lower, upper, [], i);
    var c := WithReason([], lower[i]);
    WithReasonFacts(lower, upper, c, i);
    WithReasonGrows(c, upper[i]);
    var d := WithReason(c, upper[i]);
    NamedMore(lower[i], c, d);
    ClashRefutes(rows, basic, lower, upper, i, d);
  }

  lemma SolvedClash(s: Tab, i: nat)
    requires TabOk(s) && FirstClash(s, i)
    ensures Solved(s, s, Err(WithReason(WithReason([], s.lower[i]), s.upper[i])))
  {
    hide WithReason, Searches;
    forall k: nat | FirstClash(s, k) ensures k == i {}
  }

  /** When no value moves, the end is feasible exactly when no basic variable was outside its bounds at the start. */
  lemma OkMeans(basic0: seq<bool>, basic: seq<bool>, lower: Bounds, upper: Bounds, a0: Assignment, a: Assignment, res: Outcome, pivots: nat)
    requires |basic0| == |basic| == |lower| == |upper| == |a0| == |a|
    requires forall j :: 0 <= j < |a| && !basic0[j] ==> Fits(lower, upper, a0, j)
    requires BasicFit(basic0, lower, upper, a0) ==> res.Ok? && pivots == 0
    requires pivots == 0 ==> basic == basic0 && a == a0
    requires res.Ok? && pivots < MAX_ITERATIONS ==> BasicFit(basic, lower, upper, a)
    ensures a == a0 && res.Ok? ==> ((forall i :: 0 <= i < |a| ==> Fits(lower, upper, a, i)) <==> BasicFit(basic0, lower, upper, a0))
    ensures res.Ok? && pivots < MAX_ITERATIONS ==> forall i :: 0 <= i < |a| && basic[i] ==> Fits(lower, upper, a, i)
  {
    hide Fits;
  }

  lemma SearchEnds(s: Tab, k: nat)
    requires TabOk(s) && (k == 0 || NoneViolated(s))
    ensures Searches(s, k, s, Ok)
  {
  }

  lemma SolvedIntro(s: Tab, after: Tab, res: Outcome)
    requires TabOk(s) && NoClash(s) && Searches(Started(s), MAX_ITERATIONS, after, res)
    ensures Solved(s, after, res)
  {
  }

  lemma SearchMoves(s: Tab, k: nat, xi: nat, above: bool, xj: nat, next: Tab)
    requires TabOk(s) && TabOk(next) && k > 0 && FirstViolated(s, xi, above) && HasCandidate(s, xi, above, xj) && Step(s, xi, xj, next)
    ensures forall after, res :: Searches(next, k - 1, after, res) ==> Searches(s, k, after, res)
  {
    hide Searches, Step, FirstViolated, HasCandidate, TabOk;
    forall after, res | Searches(next, k - 1, after, res) ensures Searches(s, k, after, res) {
      SearchStep(s, k, xi, above, xj, next, after, res);
    }
  }

  lemma ViolatedFacts(s: Tab, xi: nat, above: bool)
    requires TabOk(s) && FirstViolated(s, xi, above)
    ensures xi < |s.rows| && s.basic[xi] && !BasicFit(s.basic, s.lower, s.upper, s.a)
    ensures if above then OverUpper(s.upper, s.a, xi) else UnderLower(s.lower, s.a, xi)
  {
    assert !Fits(s.lower, s.upper, s.a, xi);
  }

  lemma CandidateIn(s: Tab, xi: nat, above: bool, xj: nat)
    requires TabOk(s) && xi < |s.rows| && xj < |s.rows| && Candidate(s.rows[xi], above, s.lower, s.upper, s.a, xj)
    ensures HasCandidate(s, xi, above, xj) && s.rows[xi][xj] != 0.0
  {
  }

  lemma NoCandidateIn(s: Tab, xi: nat, above: bool)
    requires TabOk(s) && xi < |s.rows| && forall j :: 0 <= j < |s.rows| ==> !Candidate(s.rows[xi], above, s.lower, s.upper, s.a, j)
    ensures forall xj: nat :: !HasCandidate(s, xi, above, xj)
  {
  }

  lemma SameSolutionsRefl(rows: Rows, basic: seq<bool>)
    requires Square(rows, basic)
    ensures SameSolutions(rows, basic, rows, basic)
  {
  }

  lemma FitsSame(lower: Bounds, upper: Bounds, a: Assignment, b: Assignment, j: nat)
    requires j < |lower| == |upper| == |a| == |b| && Fits(lower, upper, a, j) && a[j] == b[j]
    ensures Fits(lower, upper, b, j)
  {
  }

  lemma StuckIntro(rows: Rows, basic: seq<bool>, lower: Bounds, upper: Bounds, a: Assignment, xi: nat, above: bool)
    requires Square(rows, basic) && |lower| == |upper| == |a| == |rows| && xi < |rows| && basic[xi] && Consistent(rows, basic, a)
    requires if above then OverUpper(upper, a, xi) else UnderLower(lower, a, xi)
    requires forall j :: 0 <= j < |rows| ==> !Candidate(rows[xi], above, lower, upper, a, j)
    ensures Stuck(rows, basic, lower, upper, a, xi, above)
  {
  }

  lemma SquareSize(rows: Rows, basic: seq<bool>)
    requires Square(rows, basic)
    ensures |rows| == |basic|
  {
  }

  lemma DiffRowSize(n: nat, l: nat, r: nat)
    requires l < n && r < n
    ensures |DiffRow(n, l, r)| == n
  {
  }

  lemma CompareDifference(op: Cmp, x: real, y: real)
    ensures Compares(op, x - y, 0.0) <==> Compares(op, x, y)
  {
  }
}
