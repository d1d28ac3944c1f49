/** The canonicalizer of mixed Boolean-arithmetic terms: it ends, keeps the meaning and pushes
    bitwise negation inward. */
module MbaCanonicalizer {
  import BV = BitVectors
  import opened MbaTerms

  function Sum(s: seq<nat>): nat {
    if s == [] then 0 else s[0] + Sum(s[1..])
  }

  lemma {:induction false} SumAt(s: seq<nat>, k: nat)
    requires k < |s|
    ensures s[k] <= Sum(s)
    decreases |s|
  {
    if k > 0 { SumAt(s[1..], k - 1); }
  }

  lemma {:induction false} SumMono(a: seq<nat>, b: seq<nat>)
    requires |a| == |b| && forall k :: 0 <= k < |a| ==> a[k] <= b[k]
    ensures Sum(a) <= Sum(b)
    decreases |a|
  {
    if a != [] { SumMono(a[1..], b[1..]); }
  }

  /** The number of bitwise conjunctions and disjunctions. */
  ghost function Count(t: Term): nat {
    (if t.op.BvAnd? || t.op.BvOr? then 1 else 0) + Sum(seq(|t.args|, k requires 0 <= k < |t.args| => Count(t.args[k])))
  }

  ghost function Counts(args: seq<Term>): (r: seq<nat>)
    ensures |r| == |args| && forall k :: 0 <= k < |args| ==> r[k] == Count(args[k])
  {
    seq(|args|, k requires 0 <= k < |args| => Count(args[k]))
  }

  lemma CountIs(t: Term)
    ensures Count(t) == (if t.op.BvAnd? || t.op.BvOr? then 1 else 0) + Sum(Counts(t.args))
  {
    assert Counts(t.args) == seq(|t.args|, k requires 0 <= k < |t.args| => Count(t.args[k]));
  }

  ghost function Size(t: Term): nat {
    1 + Sum(seq(|t.args|, k requires 0 <= k < |t.args| => Size(t.args[k])))
  }

  lemma ArgSmaller(t: Term, k: nat)
    requires k < |t.args|
    ensures Count(t.args[k]) <= Count(t) && Size(t.args[k]) < Size(t)
    ensures t.op.BvAnd? || t.op.BvOr? ==> Count(t.args[k]) < Count(t)
  {
    CountIs(t);
    SumAt(Counts(t.args), k);
    SumAt(seq(|t.args|, j requires 0 <= j < |t.args| => Size(t.args[j])), k);
  }

  function NotOf(a: Term, s: Sort): Term { Term(BvNot, [a], s) }

  lemma CountUnary(op: Op, a: Term, s: Sort)
    requires !op.BvAnd? && !op.BvOr?
    ensures Count(Term(op, [a], s)) == Count(a)
  {
    CountIs(Term(op, [a], s));
    assert Counts([a]) == [Count(a)];
    assert Sum([Count(a)]) == Count(a) + Sum([]);
  }

  lemma CountPair(op: Op, a: Term, b: Term, s: Sort)
    ensures Count(Term(op, [a, b], s)) == (if op.BvAnd? || op.BvOr? then 1 else 0) + Count(a) + Count(b)
  {
    CountIs(Term(op, [a, b], s));
    assert Counts([a, b]) == [Count(a), Count(b)];
    SumPair(Count(a), Count(b));
  }

  lemma SumPair(x: nat, y: nat)
    ensures Sum([x, y]) == x + y
  {
    assert [x, y][1..] == [y] && [y][1..] == [];
    assert Sum([y]) == y + Sum([]);
  }

  predicate Commutative(op: Op) {
    op.And? || op.Or? || op.Xor? || op.BvAnd? || op.BvOr? || op.BvXor? || op.BvAdd? || op.BvMul? || op.Eq?
  }

  /** The two arguments of a commutative operator in the order of their ids. */
  function Ordered(op: Op, args: seq<Term>, before: (Term, Term) -> bool): (r: seq<Term>)
    ensures |r| == |args|
  {
    if Commutative(op) && |args| == 2 && before(args[1], args[0]) then [args[1], args[0]] else args
  }

  lemma CountOrdered(op: Op, args: seq<Term>, s: Sort, before: (Term, Term) -> bool)
    ensures Count(Term(op, Ordered(op, args, before), s)) == Count(Term(op, args, s))
  {
    if |args| == 2 {
      assert args == [args[0], args[1]];
      CountPair(op, args[0], args[1], s);
      CountPair(op, args[1], args[0], s);
    }
  }

  /** Arguments replaced one by one by terms that count no more. */
  lemma CountArgs(op: Op, args: seq<Term>, args': seq<Term>, s: Sort)
    requires |args| == |args'| && forall k :: 0 <= k < |args| ==> Count(args'[k]) <= Count(args[k])
    ensures Count(Term(op, args', s)) <= Count(Term(op, args, s))
  {
    CountIs(Term(op, args, s));
    CountIs(Term(op, args', s));
    SumMono(Counts(args'), Counts(args));
  }

  /** Same sort as its counterpart, well-sorted, and counting no more. */
  ghost predicate Replaces(args': seq<Term>, args: seq<Term>) {
    |args'| == |args| && forall k :: 0 <= k < |args| ==> WellSorted(args'[k]) && args'[k].sort == args[k].sort && Count(args'[k]) <= Count(args[k])
  }

  /** Whether a node is well-sorted depends on the sorts of its arguments, and not on their order
      where the order is free. */
  lemma NodeSortedSame(op: Op, args: seq<Term>, args': seq<Term>, s: Sort, before: (Term, Term) -> bool)
    requires NodeSorted(Term(op, args, s)) && |args'| == |args| && forall k :: 0 <= k < |args| ==> args'[k].sort == args[k].sort
    ensures NodeSorted(Term(op, Ordered(op, args', before), s))
  {
    hide WellSorted;
  }

  lemma ReplacedSorted(t: Term, args': seq<Term>, before: (Term, Term) -> bool)
    requires WellSorted(t) && Replaces(args', t.args)
    ensures WellSorted(Term(t.op, Ordered(t.op, args', before), t.sort))
    ensures Count(Term(t.op, Ordered(t.op, args', before), t.sort)) <= Count(t)
  {
    hide Count, NodeSorted;
    CountOrdered(t.op, args', t.sort, before);
    CountArgs(t.op, t.args, args', t.sort);
    NodeSortedSame(t.op, t.args, args', t.sort, before);
    assert Term(t.op, t.args, t.sort) == t;
  }

  lemma SortedFacts(t: Term)
    requires WellSorted(t)
    ensures forall k :: 0 <= k < |t.args| ==> WellSorted(t.args[k])
    ensures Unary(t.op) ==> t.sort.BitVec? && |t.args| == 1 && t.args[0].sort == t.sort
    ensures Binary(t.op) ==> t.sort.BitVec? && |t.args| == 2 && t.args[0].sort == t.sort && t.args[1].sort == t.sort
  {
  }

  lemma SortedIntro(op: Op, a: Term, b: Term, s: Sort)
    requires s.BitVec? && WellSorted(a) && a.sort == s && WellSorted(b) && b.sort == s
    ensures Unary(op) ==> WellSorted(Term(op, [a], s))
    ensures Binary(op) ==> WellSorted(Term(op, [a, b], s))
  {
  }

  /** Zero of the width of the sort. */
  function ZeroOf(s: Sort): Term {
    var width := if s.BitVec? then s.w else 32;
    Term(BvConst(0, width), [], BitVec(width))
  }

  /** What is made of a node over normalized arguments, short of negation. */
  function Rebuilt(op: Op, args: seq<Term>, s: Sort): Term {
    if op.BvNeg? && |args| > 0 && args[0].op.BvNeg? && |args[0].args| > 0 then args[0].args[0]
    else if (op.BvXor? || op.BvSub?) && |args| == 2 && args[0] == args[1] then ZeroOf(s)
    else if (op.BvAnd? || op.BvOr?) && |args| == 2 && args[0] == args[1] then args[0]
    else Term(op, args, s)
  }

  lemma RebuiltSorted(op: Op, args: seq<Term>, s: Sort)
    requires WellSorted(Term(op, args, s))
    ensures WellSorted(Rebuilt(op, args, s)) && Rebuilt(op, args, s).sort == s
    ensures Count(Rebuilt(op, args, s)) <= Count(Term(op, args, s))
  {
    var t := Term(op, args, s);
    if op.BvNeg? && args[0].op.BvNeg? {
      ArgSmaller(t, 0);
      ArgSmaller(args[0], 0);
    } else if (op.BvXor? || op.BvSub?) && args[0] == args[1] {
      CountIs(ZeroOf(s));
    } else if (op.BvAnd? || op.BvOr?) && args[0] == args[1] {
      ArgSmaller(t, 0);
    }
  }

  /** The negation of a normalized term: the term below a negation, De Morgan's laws with the two
      negations normalized in turn, or a negation. */
  function Negated(inner: Term, s: Sort, before: (Term, Term) -> bool): (r: Term)
    requires WellSorted(inner) && inner.sort == s && s.BitVec?
    ensures WellSorted(r) && r.sort == s && Count(r) <= Count(inner)
    decreases Count(inner), 0
  {
    hide Count, Size, WellSorted;
    SortedFacts(inner);
    if inner.op.BvNot? then
      ArgSmaller(inner, 0);
      inner.args[0]
    else if inner.op.BvAnd? || inner.op.BvOr? then
      var (a, b) := (inner.args[0], inner.args[1]);
      PairShape(inner);
      CountPair(inner.op, a, b, inner.sort);
      CountUnary(BvNot, a, s);
      CountUnary(BvNot, b, s);
      SortedIntro(BvNot, a, b, s);
      SortedIntro(BvNot, b, a, s);
      var notA := Normalize(NotOf(a, s), before);
      var notB := Normalize(NotOf(b, s), before);
      SortedIntro(BvOr, notA, notB, s);
      SortedIntro(BvAnd, notA, notB, s);
      CountPair(BvOr, notA, notB, s);
      CountPair(BvAnd, notA, notB, s);
      if inner.op.BvAnd? then Term(BvOr, [notA, notB], s) else Term(BvAnd, [notA, notB], s)
    else
      CountUnary(BvNot, inner, s);
      SortedIntro(BvNot, inner, inner, s);
      NotOf(inner, s)
  }

  lemma PairShape(t: Term)
    requires |t.args| == 2
    ensures t == Term(t.op, [t.args[0], t.args[1]], t.sort)
  {
    assert t.args == [t.args[0], t.args[1]];
  }

  lemma UnaryShape(t: Term)
    requires |t.args| == 1
    ensures t == Term(t.op, [t.args[0]], t.sort)
  {
    assert t.args == [t.args[0]];
  }

  /** Recursively normalizes: arguments first, then negations, and the idempotent and cancelling
      pairs. */
  function Normalize(t: Term, before: (Term, Term) -> bool): (r: Term)
    requires WellSorted(t)
    ensures WellSorted(r) && r.sort == t.sort && Count(r) <= Count(t)
    decreases Count(t), Size(t)
  {
    hide Count, Size, WellSorted;
    SortedFacts(t);
    var args := seq(|t.args|, k requires 0 <= k < |t.args| => ArgSmaller(t, k); Normalize(t.args[k], before));
    assert Replaces(args, t.args);
    var sorted := Ordered(t.op, args, before);
    ReplacedSorted(t, args, before);
    if t.op.BvNot? then
      var inner := sorted[0];
      UnaryShape(t);
      CountUnary(BvNot, t.args[0], t.sort);
      SizePositive(t);
      Negated(inner, t.sort, before)
    else
      RebuiltSorted(t.op, sorted, t.sort);
      Rebuilt(t.op, sorted, t.sort)
  }

  lemma SizePositive(t: Term)
    ensures Size(t) > 0
  {
  }

  // ---------- negation normal form ----------

  /** No bitwise negation directly over a negation, a conjunction or a disjunction. */
  ghost predicate Nnf(t: Term) {
    && (t.op.BvNot? && |t.args| > 0 ==> !t.args[0].op.BvNot? && !t.args[0].op.BvAnd? && !t.args[0].op.BvOr?)
    && forall k :: 0 <= k < |t.args| ==> Nnf(t.args[k])
  }

  lemma NnfFacts(t: Term)
    requires Nnf(t)
    ensures forall k :: 0 <= k < |t.args| ==> Nnf(t.args[k])
  {
  }

  lemma NnfIntro(op: Op, args: seq<Term>, s: Sort)
    requires forall k :: 0 <= k < |args| ==> Nnf(args[k])
    requires op.BvNot? && |args| > 0 ==> !args[0].op.BvNot? && !args[0].op.BvAnd? && !args[0].op.BvOr?
    ensures Nnf(Term(op, args, s))
  {
  }

  lemma {:induction false} NegatedNnf(inner: Term, s: Sort, before: (Term, Term) -> bool)
    requires WellSorted(inner) && inner.sort == s && s.BitVec? && Nnf(inner)
    ensures Nnf(Negated(inner, s, before))
    decreases Count(inner), 0
  {
    hide Count, Size, WellSorted, Nnf;
    SortedFacts(inner);
    NnfFacts(inner);
    if inner.op.BvNot? {
    } else if inner.op.BvAnd? || inner.op.BvOr? {
      var a, b := inner.args[0], inner.args[1];
      PairShape(inner);
      CountPair(inner.op, a, b, inner.sort);
      CountUnary(BvNot, a, s);
      CountUnary(BvNot, b, s);
      SortedIntro(BvNot, a, b, s);
      SortedIntro(BvNot, b, a, s);
      NormalizeNnf(NotOf(a, s), before);
      NormalizeNnf(NotOf(b, s), before);
      var pair := [Normalize(NotOf(a, s), before), Normalize(NotOf(b, s), before)];
      NnfIntro(BvOr, pair, s);
      NnfIntro(BvAnd, pair, s);
    } else {
      NnfIntro(BvNot, [inner], s);
    }
  }

  lemma RebuiltNnf(op: Op, args: seq<Term>, s: Sort)
    requires !op.BvNot? && forall k :: 0 <= k < |args| ==> Nnf(args[k])
    ensures Nnf(Rebuilt(op, args, s))
  {
    hide Nnf;
    NnfIntro(op, args, s);
    NnfIntro(ZeroOf(s).op, [], ZeroOf(s).sort);
    if |args| > 0 { NnfFacts(args[0]); }
  }

  lemma {:induction false} NormalizeNnf(t: Term, before: (Term, Term) -> bool)
    requires WellSorted(t)
    ensures Nnf(Normalize(t, before))
    decreases Count(t), Size(t)
  {
    hide Count, Size, WellSorted, Nnf, Negated, Rebuilt;
    SortedFacts(t);
    var args := seq(|t.args|, k requires 0 <= k < |t.args| => Normalize(t.args[k], before));
    forall k | 0 <= k < |t.args| ensures Nnf(args[k]) {
      ArgSmaller(t, k);
      NormalizeNnf(t.args[k], before);
    }
    assert Replaces(args, t.args);
    var sorted := Ordered(t.op, args, before);
    if t.op.BvNot? {
      UnaryShape(t);
      CountUnary(BvNot, t.args[0], t.sort);
      SizePositive(t);
      NegatedNnf(sorted[0], t.sort, before);
    } else {
      RebuiltNnf(t.op, sorted, t.sort);
    }
  }

  // ---------- meaning ----------

  lemma BitsOfValue(a: seq<bool>)
    ensures BV.ToBits(BV.Value(a), |a|) == a
  {
    BV.ValueInjective(BV.ToBits(BV.Value(a), |a|), a);
  }

  lemma AllFalseIsZero(a: seq<bool>)
    requires forall k :: 0 <= k < |a| ==> !a[k]
    ensures BV.ToBits(0, |a|) == a
  {
    BV.ValueAllFalse(a);
    BitsOfValue(a);
  }

  lemma NegNeg(a: seq<bool>)
    ensures ApplyUnary(BvNeg, ApplyUnary(BvNeg, a)) == a
  {
    BitsOfValue(a);
  }

  lemma Cancel(op: Op, a: seq<bool>)
    requires op.BvXor? || op.BvSub?
    ensures ApplyBinary(op, a, a) == BV.ToBits(0, |a|)
  {
    hide BV.Pow2, BV.Value, BV.ToBits;
    if op.BvXor? {
      AllFalseIsZero(BV.XorBits(a, a));
    } else {
      SubSelf(BV.Value(a), |a|);
    }
  }

  lemma SubSelf(x: nat, w: nat)
    ensures BV.BvSub(x, x, w) == 0
  {
    hide BV.Pow2;
    ZeroMod(BV.Pow2(w));
  }

  lemma ZeroMod(m: nat)
    requires m > 0
    ensures 0 % m == 0
  {
  }

  lemma SwapBits(a: seq<bool>, b: seq<bool>)
    requires |a| == |b|
    ensures BV.AndBits(a, b) == BV.AndBits(b, a) && BV.OrBits(a, b) == BV.OrBits(b, a) && BV.XorBits(a, b) == BV.XorBits(b, a)
  {
  }

  lemma SwapArithmetic(x: nat, y: nat, w: nat)
    ensures BV.BvAdd(x, y, w) == BV.BvAdd(y, x, w) && BV.BvMul(x, y, w) == BV.BvMul(y, x, w)
  {
    assert x * y == y * x;
  }

  lemma SwapBinary(op: Op, a: seq<bool>, b: seq<bool>)
    requires Commutative(op) && Binary(op) && |a| == |b|
    ensures ApplyBinary(op, a, b) == ApplyBinary(op, b, a)
  {
    hide BV.AndBits, BV.OrBits, BV.XorBits, BV.BvAdd, BV.BvMul, BV.ToBits;
    SwapBits(a, b);
    SwapArithmetic(BV.Value(a), BV.Value(b), |a|);
  }

  lemma SwapApply(op: Op, s: Sort, x: Val, y: Val, i: Interp)
    requires Commutative(op)
    ensures Apply(op, s, [x, y], i) == Apply(op, s, [y, x], i)
  {
    hide ApplyBinary;
    if Binary(op) && x.W? && y.W? && |x.bits| == |y.bits| { SwapBinary(op, x.bits, y.bits); }
    if op.And? || op.Or? {
      JunctionOfTwo(op, s, x, y, i);
      JunctionOfTwo(op, s, y, x, i);
    }
  }

  lemma JunctionOfTwo(op: Op, s: Sort, x: Val, y: Val, i: Interp)
    requires op.And? || op.Or?
    ensures Apply(op, s, [x, y], i) == if x.B? && y.B? then B(if op.And? then x.b && y.b else x.b || y.b) else E(0)
  {
    var vs := [x, y];
    assert vs[0] == x && vs[1] == y;
  }

  lemma OrderedMeaning(op: Op, args: seq<Term>, s: Sort, before: (Term, Term) -> bool, i: Interp)
    ensures Apply(op, s, EvalAll(Ordered(op, args, before), i), i) == Apply(op, s, EvalAll(args, i), i)
  {
    hide Apply;
    if Ordered(op, args, before) != args {
      var x, y := Eval(args[0], i), Eval(args[1], i);
      assert EvalAll(args, i) == [x, y];
      assert EvalAll([args[1], args[0]], i) == [y, x];
      SwapApply(op, s, x, y, i);
    }
  }

  /** Rebuilding a node keeps its value. */
  lemma RebuiltMeaning(op: Op, args: seq<Term>, s: Sort, i: Interp)
    requires WellSorted(Term(op, args, s)) && Fits(i)
    ensures Eval(Rebuilt(op, args, s), i) == Eval(Term(op, args, s), i)
  {
    var t := Term(op, args, s);
    if op.BvNeg? && args[0].op.BvNeg? {
      WordUnary(t, i);
      WordUnary(args[0], i);
      NegNeg(Word(args[0].args[0], i));
    } else if (op.BvXor? || op.BvSub?) && args[0] == args[1] {
      WordBinary(t, i);
      Cancel(op, Word(args[0], i));
      EvalIs(ZeroOf(s), i);
    } else if (op.BvAnd? || op.BvOr?) && args[0] == args[1] {
      WordBinary(t, i);
      var a := Word(args[0], i);
      assert BV.AndBits(a, a) == a && BV.OrBits(a, a) == a;
    }
  }

  /** De Morgan's laws on words. */
  lemma DeMorgan(a: seq<bool>, b: seq<bool>)
    requires |a| == |b|
    ensures BV.NotBits(BV.AndBits(a, b)) == BV.OrBits(BV.NotBits(a), BV.NotBits(b))
    ensures BV.NotBits(BV.OrBits(a, b)) == BV.AndBits(BV.NotBits(a), BV.NotBits(b))
    ensures BV.NotBits(BV.NotBits(a)) == a
  {
  }

  /** Negation of a normalized conjunction or disjunction. */
  lemma NegationMeaning(inner: Term, s: Sort, notA: Term, notB: Term, i: Interp)
    requires WellSorted(inner) && inner.sort == s && (inner.op.BvAnd? || inner.op.BvOr?) && Fits(i)
    requires WellSorted(notA) && WellSorted(notB) && notA.sort == s && notB.sort == s
    requires Eval(notA, i) == Eval(NotOf(inner.args[0], s), i) && Eval(notB, i) == Eval(NotOf(inner.args[1], s), i)
    ensures Eval(if inner.op.BvAnd? then Term(BvOr, [notA, notB], s) else Term(BvAnd, [notA, notB], s), i) == Eval(NotOf(inner, s), i)
  {
    hide Eval, WellSorted, BV.NotBits, BV.AndBits, BV.OrBits, Fits;
    var r := if inner.op.BvAnd? then Term(BvOr, [notA, notB], s) else Term(BvAnd, [notA, notB], s);
    SortedFacts(inner);
    SortedIntro(BvNot, inner, inner, s);
    SortedIntro(BvNot, inner.args[0], inner.args[1], s);
    SortedIntro(BvNot, inner.args[1], inner.args[0], s);
    SortedIntro(r.op, notA, notB, s);
    WordBinary(inner, i);
    WordUnary(NotOf(inner, s), i);
    WordUnary(NotOf(inner.args[0], s), i);
    WordUnary(NotOf(inner.args[1], s), i);
    WordBinary(r, i);
    DeMorgan(Word(inner.args[0], i), Word(inner.args[1], i));
  }

  lemma {:induction false} NegatedMeaning(inner: Term, s: Sort, before: (Term, Term) -> bool, i: Interp)
    requires WellSorted(inner) && inner.sort == s && s.BitVec? && Fits(i) && WellSorted(NotOf(inner, s))
    ensures Eval(Negated(inner, s, before), i) == Eval(NotOf(inner, s), i)
    decreases Count(inner), 0
  {
    hide Count, Size, WellSorted, Eval, Normalize;
    SortedFacts(inner);
    if inner.op.BvNot? {
      WordUnary(NotOf(inner, s), i);
      WordUnary(inner, i);
      DeMorgan(Word(inner.args[0], i), Word(inner.args[0], i));
    } else if inner.op.BvAnd? || inner.op.BvOr? {
      var a, b := inner.args[0], inner.args[1];
      PairShape(inner);
      CountPair(inner.op, a, b, inner.sort);
      CountUnary(BvNot, a, s);
      CountUnary(BvNot, b, s);
      SortedIntro(BvNot, a, b, s);
      SortedIntro(BvNot, b, a, s);
      NormalizeMeaning(NotOf(a, s), before, i);
      NormalizeMeaning(NotOf(b, s), before, i);
      NegationMeaning(inner, s, Normalize(NotOf(a, s), before), Normalize(NotOf(b, s), before), i);
    }
  }

  /** A normalized term has the value of the original in every interpretation. */
  lemma {:induction false} NormalizeMeaning(t: Term, before: (Term, Term) -> bool, i: Interp)
    requires WellSorted(t) && Fits(i)
    ensures Eval(Normalize(t, before), i) == Eval(t, i)
    decreases Count(t), Size(t)
  {
    hide Count, Size, WellSorted, Eval, Negated, Rebuilt, Apply;
    SortedFacts(t);
    var args := seq(|t.args|, k requires 0 <= k < |t.args| => Normalize(t.args[k], before));
    forall k | 0 <= k < |t.args| ensures Eval(args[k], i) == Eval(t.args[k], i) {
      ArgSmaller(t, k);
      NormalizeMeaning(t.args[k], before, i);
    }
    assert EvalAll(args, i) == EvalAll(t.args, i);
    var sorted := Ordered(t.op, args, before);
    assert Replaces(args, t.args);
    ReplacedSorted(t, args, before);
    OrderedMeaning(t.op, args, t.sort, before, i);
    EvalIs(t, i);
    EvalIs(Term(t.op, sorted, t.sort), i);
    if t.op.BvNot? {
      assert sorted == [sorted[0]];
      UnaryShape(t);
      CountUnary(BvNot, t.args[0], t.sort);
      SizePositive(t);
      NegatedMeaning(sorted[0], t.sort, before, i);
    } else {
      RebuiltMeaning(t.op, sorted, t.sort, i);
    }
  }
}
