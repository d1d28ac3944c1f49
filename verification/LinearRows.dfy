/** Rows of reals, numbers with an infinitesimal part, and bounds on variables. */
module LinearRows {
  import opened Lits

  // ---------- rows ----------

  ghost function Dot(row: seq<real>, v: seq<real>): real
    requires |row| == |v|
    decreases |row|
  {
    if |row| == 0 then 0.0
    else
      var n := |row| - 1;
      Dot(row[..n], v[..n]) + row[n] * v[n]
  }

  lemma MulDistribute(a: real, x: real, y: real, b: real)
    ensures (x + b * y) * a == x * a + b * (y * a)
  {
  }

  lemma {:induction false} DotCombine(row: seq<real>, b: real, other: seq<real>, sum: seq<real>, v: seq<real>)
    requires |row| == |other| == |sum| == |v|
    requires forall k :: 0 <= k < |row| ==> sum[k] == row[k] + b * other[k]
    ensures Dot(sum, v) == Dot(row, v) + b * Dot(other, v)
    decreases |row|
  {
    if |row| > 0 {
      var n := |row| - 1;
      DotCombine(row[..n], b, other[..n], sum[..n], v[..n]);
      MulDistribute(v[n], row[n], other[n], b);
      Distribute(b, Dot(other[..n], v[..n]), other[n] * v[n]);
    }
  }

  lemma Distribute(b: real, x: real, y: real)
    ensures b * (x + y) == b * x + b * y
  {
  }

  lemma {:induction false} DotUpdate(row: seq<real>, j: nat, x: real, v: seq<real>)
    requires |row| == |v| && j < |row|
    ensures Dot(row[j := x], v) == Dot(row, v) + (x - row[j]) * v[j]
    decreases |row|
  {
    var n := |row| - 1;
    var row' := row[j := x];
    if j < n {
      DotUpdate(row[..n], j, x, v[..n]);
      assert row'[..n] == row[..n][j := x];
    } else {
      assert row'[..n] == row[..n];
    }
  }

  function Zeros(n: nat): seq<real> { seq(n, _ => 0.0) }

  lemma {:induction false} DotZeros(row: seq<real>, v: seq<real>)
    requires |row| == |v| && forall k :: 0 <= k < |row| ==> row[k] == 0.0
    ensures Dot(row, v) == 0.0
    decreases |row|
  {
    if |row| > 0 { DotZeros(row[..|row| - 1], v[..|row| - 1]); }
  }

  /** Only the entries where the row is not zero matter. */
  lemma {:induction false} DotAgree(row: seq<real>, v: seq<real>, w: seq<real>)
    requires |row| == |v| == |w| && forall k :: 0 <= k < |row| && row[k] != 0.0 ==> v[k] == w[k]
    ensures Dot(row, v) == Dot(row, w)
    decreases |row|
  {
    if |row| > 0 {
      var n := |row| - 1;
      DotAgree(row[..n], v[..n], w[..n]);
      if row[n] == 0.0 { ZeroTimes(v[n]); ZeroTimes(w[n]); }
    }
  }

  lemma ZeroTimes(x: real)
    ensures 0.0 * x == 0.0
  {
  }

  // ---------- infinitesimals ----------

  /** `c + k * delta` for an arbitrarily small positive delta. */
  datatype DeltaRational = DeltaRational(c: real, k: real) {
    predicate Less(o: DeltaRational) { c < o.c || (c == o.c && k < o.k) }

    predicate AtMost(o: DeltaRational) { !o.Less(this) }

    function Plus(o: DeltaRational): DeltaRational { DeltaRational(c + o.c, k + o.k) }

    function Minus(o: DeltaRational): DeltaRational { DeltaRational(c - o.c, k - o.k) }

    function Times(s: real): DeltaRational { DeltaRational(c * s, k * s) }
  }

  const ZERO := DeltaRational(0.0, 0.0)

  ghost function ValueAt(x: DeltaRational, d: real): real { x.c + x.k * d }

  /** Smaller for every delta up to `eps`. */
  ghost predicate SmallerUpTo(x: DeltaRational, y: DeltaRational, eps: real) {
    eps > 0.0 && forall d: real :: 0.0 < d <= eps ==> ValueAt(x, d) < ValueAt(y, d)
  }

  /** The comparison is that of the reals for all small enough positive values of delta. */
  lemma LessMeansSmallDelta(x: DeltaRational, y: DeltaRational)
    ensures x.Less(y) <==> exists eps: real :: SmallerUpTo(x, y, eps)
  {
    if x.Less(y) {
      if x.c == y.c {
        forall d: real | 0.0 < d <= 1.0 ensures ValueAt(x, d) < ValueAt(y, d) {
          MulLess(x.k, y.k, d);
          assert x.k * d < y.k * d;
        }
        assert SmallerUpTo(x, y, 1.0);
      } else {
        var gap := y.c - x.c;
        var slope := (if x.k >= y.k then x.k - y.k else 0.0) + 1.0;
        var eps := gap / (2.0 * slope);
        SmallEnough(gap, slope, eps);
        forall d: real | 0.0 < d <= eps ensures ValueAt(x, d) < ValueAt(y, d) {
          MulAtMost(x.k - y.k, slope, d);
          MulAtMost(d, eps, slope);
          assert (x.k - y.k) * d == x.k * d - y.k * d;
        }
        assert SmallerUpTo(x, y, eps);
      }
    } else {
      forall eps: real ensures !SmallerUpTo(x, y, eps) {
        if eps > 0.0 {
          var d := NotSmaller(y, x, eps);
          assert !(ValueAt(x, d) < ValueAt(y, d));
        }
      }
    }
  }

  lemma MulLess(x: real, y: real, d: real)
    requires x < y && d > 0.0
    ensures x * d < y * d
  {
  }

  lemma MulAtMost(x: real, y: real, d: real)
    requires x <= y && d >= 0.0
    ensures x * d <= y * d
  {
  }

  lemma SmallEnough(gap: real, slope: real, eps: real)
    requires gap > 0.0 && slope > 0.0 && eps == gap / (2.0 * slope)
    ensures eps > 0.0 && eps * slope == gap / 2.0
  {
    assert eps * (2.0 * slope) == gap;
  }

  /** A delta up to `eps` for which `x` is at most `y`, when `x` is not above `y`. */
  lemma NotSmaller(x: DeltaRational, y: DeltaRational, eps: real) returns (d: real)
    requires x.AtMost(y) && eps > 0.0
    ensures 0.0 < d <= eps && x.c + x.k * d <= y.c + y.k * d
  {
    if x.c == y.c {
      d := eps;
      MulAtMost(x.k, y.k, d);
    } else {
      var gap := y.c - x.c;
      var slope := (if x.k >= y.k then x.k - y.k else 0.0) + 1.0;
      var small := gap / (2.0 * slope);
      SmallEnough(gap, slope, small);
      d := if eps < small then eps else small;
      MulAtMost(x.k - y.k, slope, d);
      MulAtMost(d, small, slope);
      assert (x.k - y.k) * d == x.k * d - y.k * d;
    }
  }

  // ---------- bounds ----------

  datatype Bound = Bound(value: DeltaRational, reason: Option<Lit>)

  /** A real number is above a lower bound: strictly when the bound has a positive infinitesimal. */
  ghost predicate Above(b: Option<Bound>, x: real) {
    b.Some? ==> b.value.value.AtMost(DeltaRational(x, 0.0))
  }

  ghost predicate Below(b: Option<Bound>, x: real) {
    b.Some? ==> DeltaRational(x, 0.0).AtMost(b.value.value)
  }

  datatype Cmp = Lt | Le | Gt | Ge

  ghost predicate Compares(op: Cmp, x: real, y: real) {
    match op
    case Lt => x < y
    case Le => x <= y
    case Gt => x > y
    case Ge => x >= y
  }

  /** The bound that an order atom against a constant stands for. */
  datatype AtomBound = LowerAt(value: DeltaRational) | UpperAt(value: DeltaRational)

  function BoundOf(op: Cmp, negated: bool, val: real): AtomBound {
    match op
    case Le => if !negated then UpperAt(DeltaRational(val, 0.0)) else LowerAt(DeltaRational(val, 1.0))
    case Lt => if !negated then UpperAt(DeltaRational(val, -1.0)) else LowerAt(DeltaRational(val, 0.0))
    case Ge => if !negated then LowerAt(DeltaRational(val, 0.0)) else UpperAt(DeltaRational(val, -1.0))
    case Gt => if !negated then LowerAt(DeltaRational(val, 1.0)) else UpperAt(DeltaRational(val, 0.0))
  }

  ghost predicate Within(b: AtomBound, x: real) {
    match b
    case LowerAt(v) => v.AtMost(DeltaRational(x, 0.0))
    case UpperAt(v) => DeltaRational(x, 0.0).AtMost(v)
  }

  /** The bound holds of exactly the reals for which the literal is true. */
  lemma BoundMeaning(op: Cmp, negated: bool, val: real, x: real)
    ensures Within(BoundOf(op, negated, val), x) <==> Compares(op, x, val) != negated
  {
  }

  /** The row of a comparison of two variables: the entry for the right is written last. */
  function DiffRow(n: nat, l: nat, r: nat): seq<real>
    requires l < n && r < n
  {
    Zeros(n)[l := 1.0][r := -1.0]
  }

  /** It is the difference of the variables, unless they are one and the same. */
  lemma DiffRowMeaning(n: nat, l: nat, r: nat)
    requires l < n && r < n
    ensures (forall v: seq<real> :: |v| == n ==> Dot(DiffRow(n, l, r), v) == v[l] - v[r]) <==> l != r
  {
    forall v: seq<real> | |v| == n ensures Dot(DiffRow(n, l, r), v) == if l == r then -v[l] else v[l] - v[r] {
      DotZeros(Zeros(n), v);
      DotUpdate(Zeros(n), l, 1.0, v);
      DotUpdate(Zeros(n)[l := 1.0], r, -1.0, v);
    }
    if l == r {
      var v := seq(n, _ => 1.0);
      assert Dot(DiffRow(n, l, r), v) == -1.0;
    }
  }
}
