/** Why the linear reduction finds a normal form: at widths that tell the coefficients apart, terms of
    equal value have equal coefficients. */
module LinearMbaLaws {
  import opened Lits
  import BV = BitVectors
  import opened MbaTerms
  import opened LinearMba

  // ---------- coefficients over two variables ----------

  /** Only the first two variables matter. */
  ghost predicate Periodic(c: seq<int>) {
    |c| == 16 && forall k :: 0 <= k < 16 ==> c[k] == c[k % 4]
  }

  ghost predicate PeriodicTable(t: Table) {
    forall k :: 0 <= k < 16 ==> Entry(t, k) == Entry(t, k % 4)
  }

  lemma PeriodicOps(s: Table, t: Table)
    requires PeriodicTable(s) && PeriodicTable(t)
    ensures PeriodicTable(AndTable(s, t)) && PeriodicTable(OrTable(s, t)) && PeriodicTable(XorTable(s, t)) && PeriodicTable(NotTable(s))
  {
    hide AndTable, OrTable, XorTable, NotTable, Entry;
    forall k | 0 <= k < 16
      ensures Entry(AndTable(s, t), k) == Entry(AndTable(s, t), k % 4) && Entry(OrTable(s, t), k) == Entry(OrTable(s, t), k % 4)
      ensures Entry(XorTable(s, t), k) == Entry(XorTable(s, t), k % 4) && Entry(NotTable(s), k) == Entry(NotTable(s), k % 4)
    {
      EntryOps(s, t, k);
      EntryOps(s, t, k % 4);
      EntryOps(t, s, k);
      EntryOps(t, s, k % 4);
    }
  }

  lemma PeriodicConstants()
    ensures PeriodicTable(ZERO) && PeriodicTable(ONE) && PeriodicTable(VAR0) && PeriodicTable(VAR1)
  {
    hide Entry;
    forall k | 0 <= k < 16
      ensures Entry(ZERO, k) == Entry(ZERO, k % 4) && Entry(ONE, k) == Entry(ONE, k % 4)
      ensures Entry(VAR0, k) == Entry(VAR0, k % 4) && Entry(VAR1, k) == Entry(VAR1, k % 4)
    {
      Projections(k);
      Projections(k % 4);
    }
  }

  lemma {:induction false} PeriodicTableOf(t: Term, index: map<Term, nat>)
    requires WellSorted(t) && TableOf(t, index).Some? && forall v :: v in index ==> index[v] < 2
    ensures PeriodicTable(TableOf(t, index).value)
    decreases t
  {
    hide AndTable, OrTable, XorTable, NotTable, WellSorted, PeriodicTable;
    ArgSorts(t);
    PeriodicConstants();
    if t in index {
    } else if t.op.BvNot? {
      PeriodicTableOf(t.args[0], index);
      PeriodicOps(TableOf(t.args[0], index).value, ZERO);
    } else if t.op.BvAnd? || t.op.BvOr? || t.op.BvXor? {
      PeriodicTableOf(t.args[0], index);
      PeriodicTableOf(t.args[1], index);
      PeriodicOps(TableOf(t.args[0], index).value, TableOf(t.args[1], index).value);
    }
  }

  lemma PeriodicScaled(t: Table, coeff: int)
    requires PeriodicTable(t)
    ensures Periodic(Scaled(t, coeff))
  {
    hide Entry;
  }

  lemma PeriodicSums(a: seq<int>, b: seq<int>)
    requires Periodic(a) && Periodic(b)
    ensures Periodic(AddAll(a, b)) && Periodic(SubAll(a, b))
  {
  }

  lemma {:induction false} PeriodicCoefficients(t: Term, coeff: int, index: map<Term, nat>)
    requires WellSorted(t) && Coefficients(t, coeff, index).Some? && forall v :: v in index ==> index[v] < 2
    ensures Periodic(Coefficients(t, coeff, index).value)
    decreases t
  {
    hide WellSorted, Coefficients, AddAll, Scaled, Periodic, TableOf;
    CoefficientsIs(t, coeff, index);
    LinearSorts(t);
    if t.op.BvAdd? || t.op.BvSub? {
      var d := if t.op.BvAdd? then coeff else -coeff;
      PeriodicCoefficients(t.args[0], coeff, index);
      PeriodicCoefficients(t.args[1], d, index);
      PeriodicSums(Coefficients(t.args[0], coeff, index).value, Coefficients(t.args[1], d, index).value);
    } else if t.op.BvMul? {
      var k := if Scalar(t.args[0]).Some? then 0 else 1;
      PeriodicCoefficients(t.args[1 - k], coeff * Scalar(t.args[k]).value, index);
    } else {
      PeriodicTableOf(t, index);
      PeriodicScaled(TableOf(t, index).value, coeff);
    }
  }

  // ---------- interpretations that single out a coefficient ----------

  ghost predicate TwoVariables(x: Term, y: Term, w: nat) {
    x.op.Var? && y.op.Var? && x != y && WellSorted(x) && WellSorted(y) && x.sort == y.sort == BitVec(w) && w > 0
  }

  ghost function LowBit(w: nat, b: bool): (r: seq<bool>)
    requires w > 0
    ensures |r| == w && forall j :: 0 <= j < w ==> r[j] == (b && j == 0)
  {
    [b] + BV.Fill(w - 1, false)
  }

  ghost function PatternValue(x: Term, y: Term, w: nat, a: bool, b: bool, n: nat, s: Sort): (v: Val)
    requires TwoVariables(x, y, w)
    ensures HasSort(v, s)
  {
    if s == BitVec(w) && n == x.op.name then W(LowBit(w, a))
    else if s == BitVec(w) && n == y.op.name then W(LowBit(w, b))
    else ZeroValue(s)
  }

  /** Bit 0 of the two variables as given, everything else 0. */
  ghost function Pattern(x: Term, y: Term, w: nat, a: bool, b: bool): (i: Interp)
    requires TwoVariables(x, y, w)
    ensures Fits(i)
  {
    Interp((n: nat, s: Sort) => PatternValue(x, y, w, a, b, n, s), (t: nat, s: Sort, vs: seq<Val>) => ZeroValue(s))
  }

  lemma PatternWords(x: Term, y: Term, w: nat, a: bool, b: bool)
    requires TwoVariables(x, y, w)
    ensures Word(x, Pattern(x, y, w, a, b)) == LowBit(w, a) && Word(y, Pattern(x, y, w, a, b)) == LowBit(w, b)
  {
    var i := Pattern(x, y, w, a, b);
    EvalIs(x, i);
    EvalIs(y, i);
  }

  lemma PatternIndices(x: Term, y: Term, w: nat, a: bool, b: bool)
    requires TwoVariables(x, y, w)
    ensures var ix := Indices([x, y], Pattern(x, y, w, a, b), w);
      ix[0] == Digit(a, 1) + Digit(b, 2) && forall j :: 0 < j < w ==> ix[j] == 0
  {
    hide Pattern, WellSorted, Word, BitOf;
    var i := Pattern(x, y, w, a, b);
    PatternWords(x, y, w, a, b);
    forall j | 0 <= j < w ensures Indices([x, y], i, w)[j] == if j == 0 then Digit(a, 1) + Digit(b, 2) else 0 {
      BitIs(x, i, j);
      BitIs(y, i, j);
      assert [x, y][0] == x && [x, y][1] == y;
    }
  }

  lemma {:induction false} PatternSum(c: seq<int>, ix: seq<nat>, m: nat)
    requires |c| == 16 && ix != [] && ix[0] == m < 16 && forall j :: 0 < j < |ix| ==> ix[j] == 0
    ensures WordSum(c, ix) == c[m] + c[0] * (BV.Pow2(|ix|) - 2)
    decreases |ix|
  {
    var n := |ix| - 1;
    if n == 0 {
      assert ix[..0] == [];
    } else {
      PatternSum(c, ix[..n], m);
      SumStep(c[0], BV.Pow2(n));
    }
  }

  lemma SumStep(c: int, p: int)
    ensures c * (p - 2) + c * p == c * (2 * p - 2)
  {
  }

  // ---------- equal words, equal coefficients ----------

  lemma CongSmall(a: int, b: int, m: int)
    requires Cong(a, b, m) && -m < a - b < m
    ensures a == b
  {
    var k :| a - b == Times(k, m);
    if k > 0 { BV.MulLe(1, k, m); } else if k < 0 { BV.MulLe(k, -1, m); }
  }

  /** Terms of equal words have congruent sums. */
  lemma CongWords(c1: seq<int>, c2: seq<int>, a: Term, b: Term, vars: seq<Term>, w: nat, i: Interp)
    requires Adds(Zeros(), c1, 1, a, vars, w) && Adds(Zeros(), c2, 1, b, vars, w) && Fits(i)
    requires Eval(a, i) == Eval(b, i)
    ensures |c1| == 16 && |c2| == 16
    ensures Cong(WordSum(c1, Indices(vars, i, w)), WordSum(c2, Indices(vars, i, w)), BV.Pow2(w))
  {
    hide *;
    AddsAt(Zeros(), c1, 1, a, vars, w, i);
    AddsAt(Zeros(), c2, 1, b, vars, w, i);
    SameWord(a, b, w, i);
    CongBoth(WordSum(c1, Indices(vars, i, w)), WordSum(c2, Indices(vars, i, w)),
             WordSum(Zeros(), Indices(vars, i, w)) + 1 * BV.Value(Word(a, i)), BV.Pow2(w));
  }

  lemma SameWord(a: Term, b: Term, w: nat, i: Interp)
    requires WellSorted(a) && WellSorted(b) && Fits(i) && a.sort == b.sort == BitVec(w) && Eval(a, i) == Eval(b, i)
    ensures Word(a, i) == Word(b, i)
  {
    hide WellSorted, Fits;
  }

  lemma CongBoth(x: int, y: int, z: int, m: int)
    requires Cong(x, z, m) && Cong(y, z, m)
    ensures Cong(x, y, m)
  {
    hide Cong;
    CongEquivalence(y, z, z, m);
    CongEquivalence(x, z, y, m);
  }

  /** The first coefficient: all bits 0. */
  lemma FirstCoefficient(a: int, b: int, p: int)
    requires Cong(a + a * (p - 2), b + b * (p - 2), p)
    ensures Cong(a, b, p)
  {
    var k :| a + a * (p - 2) - (b + b * (p - 2)) == Times(k, p);
    assert a + a * (p - 2) == a * p - a && b + b * (p - 2) == b * p - b;
    assert a * p - b * p == (a - b) * p && (a - b) * p - k * p == (a - b - k) * p;
    assert a - b == Times(a - b - k, p);
  }

  lemma OtherCoefficient(a: int, b: int, z: int, p: int)
    requires Cong(a + z, b + z, p)
    ensures Cong(a, b, p)
  {
    var k :| a + z - (b + z) == Times(k, p);
    assert a - b == Times(k, p);
  }

  /** The coefficients are no further apart than the width can tell. */
  ghost predicate Close(c1: seq<int>, c2: seq<int>, w: nat)
    requires |c1| == |c2| == 16
  {
    forall k :: 0 <= k < 16 ==> c1[k] - c2[k] < BV.Pow2(w) && c2[k] - c1[k] < BV.Pow2(w)
  }

  lemma CoefficientAt(c1: seq<int>, c2: seq<int>, a: Term, b: Term, x: Term, y: Term, w: nat, p: bool, q: bool)
    requires TwoVariables(x, y, w) && Adds(Zeros(), c1, 1, a, [x, y], w) && Adds(Zeros(), c2, 1, b, [x, y], w)
    requires forall i :: Fits(i) ==> Eval(a, i) == Eval(b, i)
    ensures |c1| == 16 && |c2| == 16
    ensures var m := Digit(p, 1) + Digit(q, 2);
      Cong(c1[m] + c1[0] * (BV.Pow2(w) - 2), c2[m] + c2[0] * (BV.Pow2(w) - 2), BV.Pow2(w))
  {
    hide Adds, Indices, Pattern, WellSorted, Cong, Eval, WordSum, BV.Pow2;
    var i := Pattern(x, y, w, p, q);
    CongWords(c1, c2, a, b, [x, y], w, i);
    PatternIndices(x, y, w, p, q);
    PatternSum(c1, Indices([x, y], i, w), Digit(p, 1) + Digit(q, 2));
    PatternSum(c2, Indices([x, y], i, w), Digit(p, 1) + Digit(q, 2));
  }

  /** Terms of equal value have equal coefficients, if these are close. */
  lemma EqualCoefficients(c1: seq<int>, c2: seq<int>, a: Term, b: Term, x: Term, y: Term, w: nat)
    requires TwoVariables(x, y, w) && Adds(Zeros(), c1, 1, a, [x, y], w) && Adds(Zeros(), c2, 1, b, [x, y], w)
    requires forall i :: Fits(i) ==> Eval(a, i) == Eval(b, i)
    requires Periodic(c1) && Periodic(c2) && Close(c1, c2, w)
    ensures c1 == c2
  {
    hide Adds, WellSorted, Cong, Eval, BV.Pow2;
    var p: int := BV.Pow2(w);
    CoefficientAt(c1, c2, a, b, x, y, w, false, false);
    FirstCoefficient(c1[0], c2[0], p);
    CongSmall(c1[0], c2[0], p);
    forall k | 0 <= k < 4 ensures c1[k] == c2[k] {
      CoefficientAt(c1, c2, a, b, x, y, w, k % 2 == 1, k >= 2);
      assert Digit(k % 2 == 1, 1) + Digit(k >= 2, 2) == k;
      OtherCoefficient(c1[k], c2[k], c1[0] * (p - 2), p);
      CongSmall(c1[k], c2[k], p);
    }
    forall k | 0 <= k < 16 ensures c1[k] == c2[k] { assert c1[k % 4] == c2[k % 4]; }
  }

  // ---------- the variables of a linear term ----------

  lemma {:induction false} CollectedMembers(t: Term, vars: seq<Term>)
    requires LinearMba.Distinct(vars)
    ensures LinearMba.Distinct(Collected(t, vars)) && forall v :: v in Collected(t, vars) <==> v in vars || v in VarsOf(t)
    decreases t, |t.args| + 1
  {
    if !t.op.Var? {
      CollectedFromMembers(t, |t.args|, vars);
    }
  }

  lemma {:induction false} CollectedFromMembers(t: Term, k: nat, vars: seq<Term>)
    requires LinearMba.Distinct(vars) && k <= |t.args|
    ensures LinearMba.Distinct(CollectedFrom(t, k, vars))
    ensures forall v :: v in CollectedFrom(t, k, vars) <==> v in vars || exists j :: 0 <= j < k && v in VarsOf(t.args[j])
    decreases t, k
  {
    if k > 0 {
      CollectedFromMembers(t, k - 1, vars);
      CollectedMembers(t.args[k - 1], CollectedFrom(t, k - 1, vars));
    }
  }

  lemma {:induction false} LinearIfCoefficients(t: Term, coeff: int, index: map<Term, nat>)
    requires WellSorted(t) && Coefficients(t, coeff, index).Some?
    ensures Linear(t, index)
    decreases t
  {
    hide WellSorted, Coefficients, AddAll, Scaled, TableOf;
    CoefficientsIs(t, coeff, index);
    LinearSorts(t);
    if t.op.BvAdd? || t.op.BvSub? {
      LinearIfCoefficients(t.args[0], coeff, index);
      LinearIfCoefficients(t.args[1], if t.op.BvAdd? then coeff else -coeff, index);
    } else if t.op.BvMul? {
      var k := if Scalar(t.args[0]).Some? then 0 else 1;
      LinearIfCoefficients(t.args[1 - k], coeff * Scalar(t.args[k]).value, index);
    }
  }

  lemma NumberingIs(vars: seq<Term>)
    requires LinearMba.Distinct(vars) && forall v :: v in vars ==> v.op.Var?
    ensures Numbered(vars, Numbering(vars)) && forall v :: v in Numbering(vars) ==> v.op.Var?
    ensures forall v :: v in Numbering(vars) ==> Numbering(vars)[v] < |vars|
  {
  }

  /** A term with coefficients over two variables is a word, and so are they. */
  lemma PairFacts(t: Term) returns (x: Term, y: Term)
    requires WellSorted(t) && PairCoefficients(t).Some?
    ensures Collected(t, []) == [x, y] && t.sort.BitVec? && (t.sort.w > 0 ==> TwoVariables(x, y, t.sort.w))
    ensures Adds(Zeros(), PairCoefficients(t).value, 1, Saturate(t), [x, y], t.sort.w) && Periodic(PairCoefficients(t).value)
    ensures WellSorted(Saturate(t)) && x.sort == t.sort
    ensures Simplified(t) == TargetFor(PairCoefficients(t).value, x, y)
  {
    hide WellSorted, Coefficients, Collected, Adds, Linear, Saturate, VarsOfSort, Numbering, TargetFor, Periodic, AddAll;
    var vars := Collected(t, []);
    x, y := vars[0], vars[1];
    assert vars == [x, y];
    CollectedMembers(t, []);
    AllVars(t);
    NumberingIs(vars);
    var index := Numbering(vars);
    var c := Coefficients(t, 1, index).value;
    LinearIfCoefficients(t, 1, index);
    LinearVars(t, index);
    TwoVars(t, vars, index);
    CoefficientsAdd(t, 1, index, vars, Zeros());
    AddAllZeros(c);
    PeriodicCoefficients(t, 1, index);
    AddsShape(Zeros(), c, 1, Saturate(t), vars, t.sort.w);
  }

  // ---------- which terms are linear ----------

  /** Sums, differences and multiples by constants of bitwise terms. */
  ghost predicate LinearTerm(t: Term)
    requires WellSorted(t)
  {
    LinearSorts(t);
    match t.op
    case BvAdd => LinearTerm(t.args[0]) && LinearTerm(t.args[1])
    case BvSub => LinearTerm(t.args[0]) && LinearTerm(t.args[1])
    case BvMul =>
      if Scalar(t.args[0]).Some? then LinearTerm(t.args[1]) else Scalar(t.args[1]).Some? && LinearTerm(t.args[0])
    case _ => Supported(t)
  }

  ghost predicate FewVariables(index: map<Term, nat>) { forall v :: v in index ==> v.op.Var? && index[v] < 4 }

  lemma VarsOfArgs(t: Term, index: map<Term, nat>)
    requires !t.op.Var?
    ensures (forall v :: v in VarsOf(t) ==> v in index) <==> forall k :: 0 <= k < |t.args| ==> forall v :: v in VarsOf(t.args[k]) ==> v in index
  {
  }

  /** Every bitwise term over numbered variables has a table, and no other term has. */
  lemma {:induction false} TableIffSupported(t: Term, index: map<Term, nat>)
    requires WellSorted(t) && t.sort.BitVec? && FewVariables(index)
    ensures TableOf(t, index).Some? <==> Supported(t) && forall v :: v in VarsOf(t) ==> v in index
    decreases t
  {
    hide WellSorted, AndTable, OrTable, XorTable, NotTable, VarsOf;
    ArgSorts(t);
    WordArgs(t);
    if t.op.Var? {
      assert VarsOf(t) == {t} by { OwnVar(t); }
    } else {
      assert t !in index;
      VarsOfArgs(t, index);
      if t.op.BvNot? {
        TableIffSupported(t.args[0], index);
      } else if t.op.BvAnd? || t.op.BvOr? || t.op.BvXor? {
        TableIffSupported(t.args[0], index);
        TableIffSupported(t.args[1], index);
      } else if t.op.BvConst? {
        ConstantArgs(t);
      }
    }
  }

  lemma OwnVar(t: Term)
    requires t.op.Var?
    ensures VarsOf(t) == {t}
  {
  }

  lemma ConstantArgs(t: Term)
    requires WellSorted(t) && t.op.BvConst?
    ensures t.args == []
  {
  }

  lemma WordArgs(t: Term)
    requires WellSorted(t) && t.sort.BitVec?
    ensures t.op.BvNot? ==> |t.args| == 1 && WellSorted(t.args[0]) && t.args[0].sort == t.sort
    ensures t.op.BvAnd? || t.op.BvOr? || t.op.BvXor? ==>
      |t.args| == 2 && WellSorted(t.args[0]) && WellSorted(t.args[1]) && t.args[0].sort == t.sort && t.args[1].sort == t.sort
    ensures !t.op.True? && !t.op.False? && !t.op.Not? && !t.op.And? && !t.op.Or? && !t.op.Xor?
  {
  }

  lemma {:induction false} CoefficientsIffLinear(t: Term, coeff: int, index: map<Term, nat>)
    requires WellSorted(t) && t.sort.BitVec? && FewVariables(index) && forall v :: v in VarsOf(t) ==> v in index
    ensures Coefficients(t, coeff, index).Some? <==> LinearTerm(t)
    decreases t
  {
    hide WellSorted, Coefficients, AddAll, Scaled, TableOf, Supported, VarsOf;
    CoefficientsIs(t, coeff, index);
    LinearSorts(t);
    if t.op.BvAdd? || t.op.BvSub? {
      VarsOfArgs(t, index);
      CoefficientsIffLinear(t.args[0], coeff, index);
      CoefficientsIffLinear(t.args[1], if t.op.BvAdd? then coeff else -coeff, index);
    } else if t.op.BvMul? {
      VarsOfArgs(t, index);
      if Scalar(t.args[0]).Some? {
        CoefficientsIffLinear(t.args[1], coeff * Scalar(t.args[0]).value, index);
      } else if Scalar(t.args[1]).Some? {
        CoefficientsIffLinear(t.args[0], coeff * Scalar(t.args[1]).value, index);
      }
    } else {
      TableIffSupported(t, index);
    }
  }

  /** The reduction looks at exactly the linear terms over two variables. */
  lemma PairIffLinear(t: Term)
    requires WellSorted(t) && t.sort.BitVec?
    ensures PairCoefficients(t).Some? <==> |Collected(t, [])| == 2 && LinearTerm(t)
  {
    hide WellSorted, Coefficients, Collected, LinearTerm;
    var vars := Collected(t, []);
    CollectedMembers(t, []);
    AllVars(t);
    if |vars| == 2 {
      NumberingIs(vars);
      forall v | v in VarsOf(t) ensures v in Numbering(vars) { assert v in vars; }
      CoefficientsIffLinear(t, 1, Numbering(vars));
    }
  }

  // ---------- the laws ----------

  /** Two linear terms over the same two variables, with coefficients no further apart than the width can
      tell: they have equal values (with their constants filled) in every interpretation exactly when
      they have equal coefficients, and then they are simplified to the same term. */
  lemma SameValueSameResult(t: Term, u: Term)
    requires WellSorted(t) && WellSorted(u) && t.sort == u.sort && PairCoefficients(t).Some? && PairCoefficients(u).Some?
    requires Collected(t, []) == Collected(u, []) && t.sort.BitVec? && t.sort.w > 0
    requires Close(PairCoefficients(t).value, PairCoefficients(u).value, t.sort.w)
    ensures (forall i :: Fits(i) ==> Eval(Saturate(t), i) == Eval(Saturate(u), i)) <==> PairCoefficients(t) == PairCoefficients(u)
    ensures PairCoefficients(t) == PairCoefficients(u) ==> Simplified(t) == Simplified(u)
  {
    hide WellSorted, Adds, Saturate, PairCoefficients, Collected, TwoVariables, Periodic, Close, Eval, TargetFor, Simplified;
    var x, y := PairFacts(t);
    var x', y' := PairFacts(u);
    assert [x, y][0] == [x', y'][0] && [x, y][1] == [x', y'][1];
    var c, d, w := PairCoefficients(t).value, PairCoefficients(u).value, t.sort.w;
    if forall i :: Fits(i) ==> Eval(Saturate(t), i) == Eval(Saturate(u), i) {
      EqualCoefficients(c, d, Saturate(t), Saturate(u), x, y, w);
    }
    if c == d {
      forall i | Fits(i) ensures Eval(Saturate(t), i) == Eval(Saturate(u), i) {
        AddsShape(Zeros(), c, 1, Saturate(t), [x, y], w);
        SameCoefficients(c, Saturate(t), Saturate(u), [x, y], w, i);
      }
    }
  }

  /** The coefficients of a target: at `x` alone, at `y` alone, and at both. */
  ghost predicate TargetAt(c: seq<int>, p: int, q: int, r: int) {
    Periodic(c) && c[0] == 0 && c[1] == p && c[2] == q && c[3] == r
  }

  lemma TargetValues()
    ensures TargetAt(Scaled(VAR0, 1), 1, 0, 1) && TargetAt(Scaled(VAR1, 1), 0, 1, 1) && TargetAt(Scaled(ZERO, 0), 0, 0, 0)
    ensures TargetAt(Scaled(XorTable(VAR0, VAR1), 1), 1, 1, 0)
    ensures TargetAt(Scaled(AndTable(VAR0, VAR1), 1), 0, 0, 1)
    ensures TargetAt(Scaled(OrTable(VAR0, VAR1), 1), 1, 1, 1)
  {
    hide Entry, AndTable, OrTable, XorTable, Periodic, PeriodicTable;
    PeriodicConstants();
    PeriodicOps(VAR0, VAR1);
    forall k | 0 <= k < 4
      ensures Entry(VAR0, k) == (k % 2 == 1) && Entry(VAR1, k) == (k >= 2) && !Entry(ZERO, k)
      ensures Entry(XorTable(VAR0, VAR1), k) == (Entry(VAR0, k) != Entry(VAR1, k))
      ensures Entry(AndTable(VAR0, VAR1), k) == (Entry(VAR0, k) && Entry(VAR1, k))
      ensures Entry(OrTable(VAR0, VAR1), k) == (Entry(VAR0, k) || Entry(VAR1, k))
    {
      Projections(k);
      EntryOps(VAR0, VAR1, k);
    }
    PeriodicScaled(VAR0, 1);
    PeriodicScaled(VAR1, 1);
    PeriodicScaled(ZERO, 0);
    PeriodicScaled(XorTable(VAR0, VAR1), 1);
    PeriodicScaled(AndTable(VAR0, VAR1), 1);
    PeriodicScaled(OrTable(VAR0, VAR1), 1);
  }

  lemma SumValues()
    ensures TargetAt(AddAll(Scaled(VAR0, 1), Scaled(VAR1, 1)), 1, 1, 2)
    ensures TargetAt(SubAll(Scaled(VAR0, 1), Scaled(VAR1, 1)), 1, -1, 0)
    ensures TargetAt(SubAll(Scaled(VAR1, 1), Scaled(VAR0, 1)), -1, 1, 0)
  {
    hide Scaled;
    TargetValues();
    PeriodicSums(Scaled(VAR0, 1), Scaled(VAR1, 1));
    PeriodicSums(Scaled(VAR1, 1), Scaled(VAR0, 1));
  }

  /** Each of the nine terms has coefficients between -1 and 2, and the reduction finds it by them. */
  lemma NineCoefficients(u: Term, x: Term, y: Term, w: nat) returns (c: seq<int>)
    requires TwoVariables(x, y, w) && OneOfNine(u, x, y)
    ensures Adds(Zeros(), c, 1, u, [x, y], w) && Periodic(c) && (forall k :: 0 <= k < 16 ==> -1 <= c[k] <= 2)
    ensures TargetFor(c, x, y) == Some(u)
  {
    hide Adds, Scaled, AddAll, SubAll, AndTable, OrTable, XorTable, WellSorted;
    TargetValues();
    SumValues();
    var index := Numbering([x, y]);
    var s := BitVec(w);
    assert [x, y][0] == x && [x, y][1] == y;
    NumberingIs([x, y]);
    SumTargets(x, y, index, [x, y], w);
    BitTargets(x, y, index, [x, y], w);
    ZeroTarget(index, [x, y], w);
    VariableTargets(x, y, index, [x, y], w);
    SortsAt(x, y, index, w);
    c := if u == Term(BvAdd, [x, y], s) then AddAll(Scaled(VAR0, 1), Scaled(VAR1, 1))
      else if u == Term(BvSub, [x, y], s) then SubAll(Scaled(VAR0, 1), Scaled(VAR1, 1))
      else if u == Term(BvSub, [y, x], s) then SubAll(Scaled(VAR1, 1), Scaled(VAR0, 1))
      else if u == Term(BvXor, [x, y], s) then Scaled(XorTable(VAR0, VAR1), 1)
      else if u == Term(BvAnd, [x, y], s) then Scaled(AndTable(VAR0, VAR1), 1)
      else if u == Term(BvOr, [x, y], s) then Scaled(OrTable(VAR0, VAR1), 1)
      else if u == x then Scaled(VAR0, 1)
      else if u == y then Scaled(VAR1, 1)
      else Scaled(ZERO, 0);
    forall k | 0 <= k < 16 ensures -1 <= c[k] <= 2 { assert c[k] == c[k % 4]; }
  }

  /** The coefficients are small for the width. */
  ghost predicate Small(c: seq<int>, w: nat) {
    forall k :: 0 <= k < |c| ==> c[k] + 2 < BV.Pow2(w) && 2 - c[k] < BV.Pow2(w)
  }

  /** A linear term with small coefficients that has the value of one of the nine terms (its constants
      filled) is simplified to that term, and to no other. */
  lemma FoundByValue(t: Term, u: Term)
    requires WellSorted(t) && PairCoefficients(t).Some? && t.sort.BitVec? && Small(PairCoefficients(t).value, t.sort.w)
    requires OneOfNine(u, Collected(t, [])[0], Collected(t, [])[1])
    requires forall i :: Fits(i) ==> Eval(Saturate(t), i) == Eval(u, i)
    ensures Simplified(t) == Some(u)
  {
    hide WellSorted, Adds, Saturate, PairCoefficients, Collected, TwoVariables, Periodic, Eval, TargetFor, Simplified, OneOfNine, BV.Pow2;
    var x, y := PairFacts(t);
    var c, w := PairCoefficients(t).value, t.sort.w;
    SmallWidth(c, w);
    assert [x, y][0] == x && [x, y][1] == y;
    var d := NineCoefficients(u, x, y, w);
    EqualCoefficients(c, d, Saturate(t), u, x, y, w);
  }

  lemma SmallWidth(c: seq<int>, w: nat)
    requires |c| == 16 && Small(c, w)
    ensures w > 1
  {
    assert c[0] + 2 < BV.Pow2(w) && 2 - c[0] < BV.Pow2(w);
  }
}
