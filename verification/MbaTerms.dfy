/** Terms of mixed Boolean-arithmetic and what they mean. A hash-consed term is its tree: two have
    one id exactly when they are equal. */
module MbaTerms {
  import opened Lits
  import BV = BitVectors

  datatype Sort = Bool | BitVec(w: nat) | OtherSort

  datatype Op =
    | Var(name: nat) | BvConst(value: nat, width: nat) | True | False
    | Not | And | Or | Xor | Eq
    | BvNot | BvAnd | BvOr | BvXor | BvNeg | BvAdd | BvSub | BvMul
    | Fn(tag: nat)

  datatype Term = Term(op: Op, args: seq<Term>, sort: Sort)

  datatype Val = B(b: bool) | W(bits: seq<bool>) | E(n: int)

  /** Values of the variables and of the operators that are not looked into. */
  datatype Interp = Interp(env: (nat, Sort) -> Val, fn: (nat, Sort, seq<Val>) -> Val)

  ghost predicate HasSort(v: Val, s: Sort) {
    match s
    case Bool => v.B?
    case BitVec(w) => v.W? && |v.bits| == w
    case OtherSort => v.E?
  }

  ghost predicate Fits(i: Interp) {
    && (forall n, s :: HasSort(i.env(n, s), s))
    && (forall t, s, vs :: HasSort(i.fn(t, s, vs), s))
  }

  // ---------- well-sorted terms ----------

  predicate Unary(op: Op) { op.BvNot? || op.BvNeg? }

  predicate Binary(op: Op) { op.BvAnd? || op.BvOr? || op.BvXor? || op.BvAdd? || op.BvSub? || op.BvMul? }

  ghost predicate NodeSorted(t: Term) {
    match t.op
    case Var(_) => t.args == []
    case BvConst(value, width) => t.args == [] && t.sort == BitVec(width) && value < BV.Pow2(width)
    case True => t.args == [] && t.sort == Bool
    case False => t.args == [] && t.sort == Bool
    case Not => t.sort == Bool && |t.args| == 1 && t.args[0].sort == Bool
    case And => t.sort == Bool && |t.args| >= 2 && forall k :: 0 <= k < |t.args| ==> t.args[k].sort == Bool
    case Or => t.sort == Bool && |t.args| >= 2 && forall k :: 0 <= k < |t.args| ==> t.args[k].sort == Bool
    case Xor => t.sort == Bool && |t.args| == 2 && t.args[0].sort == Bool && t.args[1].sort == Bool
    case Eq => t.sort == Bool && |t.args| == 2 && t.args[0].sort == t.args[1].sort
    case Fn(_) => true
    case op =>
      t.sort.BitVec? && |t.args| == (if Unary(op) then 1 else 2) && forall k :: 0 <= k < |t.args| ==> t.args[k].sort == t.sort
  }

  ghost predicate WellSorted(t: Term) {
    NodeSorted(t) && forall k :: 0 <= k < |t.args| ==> WellSorted(t.args[k])
  }

  // ---------- meaning ----------

  function ApplyUnary(op: Op, a: seq<bool>): (r: seq<bool>)
    requires Unary(op)
    ensures |r| == |a|
  {
    if op.BvNot? then BV.NotBits(a) else BV.ToBits(BV.BvNeg(BV.Value(a), |a|), |a|)
  }

  function ApplyBinary(op: Op, a: seq<bool>, b: seq<bool>): (r: seq<bool>)
    requires Binary(op) && |a| == |b|
    ensures |r| == |a|
  {
    match op
    case BvAnd => BV.AndBits(a, b)
    case BvOr => BV.OrBits(a, b)
    case BvXor => BV.XorBits(a, b)
    case BvAdd => BV.ToBits(BV.BvAdd(BV.Value(a), BV.Value(b), |a|), |a|)
    case BvSub => BV.ToBits(BV.BvSub(BV.Value(a), BV.Value(b), |a|), |a|)
    case BvMul => BV.ToBits(BV.BvMul(BV.Value(a), BV.Value(b), |a|), |a|)
  }

  ghost predicate AllTruths(vs: seq<Val>) { forall k :: 0 <= k < |vs| ==> vs[k].B? }

  ghost function ApplyOther(op: Op, s: Sort, vs: seq<Val>, i: Interp): Val {
    match op
    case Var(n) => i.env(n, s)
    case BvConst(value, width) => if value < BV.Pow2(width) then W(BV.ToBits(value, width)) else E(0)
    case True => B(true)
    case False => B(false)
    case Not => if |vs| == 1 && vs[0].B? then B(!vs[0].b) else E(0)
    case And => if AllTruths(vs) then B(forall k :: 0 <= k < |vs| ==> vs[k].b) else E(0)
    case Or => if AllTruths(vs) then B(exists k :: 0 <= k < |vs| && vs[k].b) else E(0)
    case Xor => if |vs| == 2 && vs[0].B? && vs[1].B? then B(vs[0].b != vs[1].b) else E(0)
    case Eq => if |vs| == 2 then B(vs[0] == vs[1]) else E(0)
    case Fn(tag) => i.fn(tag, s, vs)
    case _ => E(0)
  }

  /** The value of an operator on values of the right sorts; arbitrary on others. */
  ghost function Apply(op: Op, s: Sort, vs: seq<Val>, i: Interp): Val {
    if Unary(op) then (if |vs| == 1 && vs[0].W? then W(ApplyUnary(op, vs[0].bits)) else E(0))
    else if Binary(op) then
      (if |vs| == 2 && vs[0].W? && vs[1].W? && |vs[0].bits| == |vs[1].bits| then W(ApplyBinary(op, vs[0].bits, vs[1].bits)) else E(0))
    else ApplyOther(op, s, vs, i)
  }

  ghost function Eval(t: Term, i: Interp): Val {
    Apply(t.op, t.sort, seq(|t.args|, k requires 0 <= k < |t.args| => Eval(t.args[k], i)), i)
  }

  ghost function EvalAll(args: seq<Term>, i: Interp): seq<Val> {
    seq(|args|, k requires 0 <= k < |args| => Eval(args[k], i))
  }

  lemma EvalIs(t: Term, i: Interp)
    ensures Eval(t, i) == Apply(t.op, t.sort, EvalAll(t.args, i), i)
  {
    assert EvalAll(t.args, i) == seq(|t.args|, k requires 0 <= k < |t.args| => Eval(t.args[k], i));
  }

  /** Well-sorted terms have values of their sort. */
  lemma {:induction false} EvalHasSort(t: Term, i: Interp)
    requires WellSorted(t) && Fits(i)
    ensures HasSort(Eval(t, i), t.sort)
    decreases t
  {
    forall k | 0 <= k < |t.args| ensures HasSort(Eval(t.args[k], i), t.args[k].sort) { EvalHasSort(t.args[k], i); }
    EvalIs(t, i);
  }

  /** The bits of a well-sorted word. */
  ghost function Word(t: Term, i: Interp): (r: seq<bool>)
    requires WellSorted(t) && Fits(i) && t.sort.BitVec?
    ensures |r| == t.sort.w && Eval(t, i) == W(r)
  {
    EvalHasSort(t, i);
    Eval(t, i).bits
  }

  lemma WordUnary(t: Term, i: Interp)
    requires WellSorted(t) && Fits(i) && Unary(t.op)
    ensures |t.args| == 1 && t.sort.BitVec? && t.args[0].sort == t.sort && WellSorted(t.args[0])
    ensures Word(t, i) == ApplyUnary(t.op, Word(t.args[0], i))
  {
    EvalIs(t, i);
    assert EvalAll(t.args, i)[0] == Eval(t.args[0], i);
  }

  lemma WordBinary(t: Term, i: Interp)
    requires WellSorted(t) && Fits(i) && Binary(t.op)
    ensures |t.args| == 2 && t.sort.BitVec? && t.args[0].sort == t.sort && t.args[1].sort == t.sort
    ensures WellSorted(t.args[0]) && WellSorted(t.args[1])
    ensures Word(t, i) == ApplyBinary(t.op, Word(t.args[0], i), Word(t.args[1], i))
  {
    EvalIs(t, i);
    assert EvalAll(t.args, i)[0] == Eval(t.args[0], i);
    assert EvalAll(t.args, i)[1] == Eval(t.args[1], i);
  }

  // ---------- term constructors ----------

  /** A binary operation on terms of one sort. */
  function BvBinop(op: Op, a: Term, b: Term): Option<Term> {
    if a.sort == b.sort then Some(Term(op, [a, b], a.sort)) else None
  }

  /** A constant cut down to its width. */
  function BvConstant(value: nat, width: nat): Term {
    Term(BvConst(value % BV.Pow2(width), width), [], BitVec(width))
  }

  lemma BinopSorted(op: Op, a: Term, b: Term, s: Sort)
    requires WellSorted(a) && WellSorted(b) && a.sort == s && b.sort == s && s.BitVec? && Binary(op)
    ensures BvBinop(op, a, b) == Some(Term(op, [a, b], s)) && WellSorted(Term(op, [a, b], s))
  {
  }

  /** Constants other than zero are all ones. */
  ghost predicate ConstsFull(t: Term) {
    && (t.op.BvConst? ==> t.op.value == 0 || t.op.value == BV.Pow2(t.op.width) - 1)
    && forall k :: 0 <= k < |t.args| ==> ConstsFull(t.args[k])
  }

  // ---------- single bits ----------

  ghost predicate BitOf(t: Term, i: Interp, k: nat) {
    WellSorted(t) && Fits(i) && t.sort.BitVec? && k < t.sort.w && Word(t, i)[k]
  }

  lemma BitBinary(op: Op, a: Term, b: Term, s: Sort, i: Interp, k: nat)
    requires WellSorted(a) && WellSorted(b) && a.sort == s && b.sort == s && s.BitVec? && Fits(i) && k < s.w
    ensures BitOf(Term(BvAnd, [a, b], s), i, k) == (BitOf(a, i, k) && BitOf(b, i, k))
    ensures BitOf(Term(BvOr, [a, b], s), i, k) == (BitOf(a, i, k) || BitOf(b, i, k))
    ensures BitOf(Term(BvXor, [a, b], s), i, k) == (BitOf(a, i, k) != BitOf(b, i, k))
  {
    WordBinary(Term(BvAnd, [a, b], s), i);
    WordBinary(Term(BvOr, [a, b], s), i);
    WordBinary(Term(BvXor, [a, b], s), i);
  }

  lemma BitUnary(a: Term, s: Sort, i: Interp, k: nat)
    requires WellSorted(a) && a.sort == s && s.BitVec? && Fits(i) && k < s.w
    ensures BitOf(Term(BvNot, [a], s), i, k) == !BitOf(a, i, k)
  {
    WordUnary(Term(BvNot, [a], s), i);
  }

  lemma WordOfConstant(t: Term, i: Interp)
    requires WellSorted(t) && Fits(i) && t.op.BvConst?
    ensures t.sort.BitVec? && Word(t, i) == BV.ToBits(t.op.value, t.op.width) && BV.Value(Word(t, i)) == t.op.value
  {
    EvalIs(t, i);
  }

  /** The bits of 0, of 1 and of all ones. */
  lemma BitsOfConstant(value: nat, w: nat)
    requires value < BV.Pow2(w)
    ensures value == 0 ==> forall k :: 0 <= k < w ==> !BV.ToBits(value, w)[k]
    ensures value == 1 ==> forall k :: 0 <= k < w ==> BV.ToBits(value, w)[k] == (k == 0)
    ensures value == BV.Pow2(w) - 1 ==> forall k :: 0 <= k < w ==> BV.ToBits(value, w)[k]
  {
    var bits := BV.ToBits(value, w);
    BV.ValueAllFalse(bits);
    if value == 1 && w > 0 {
      BV.ValueAllFalse(BV.ToBits(0, w - 1));
      assert bits == [true] + BV.ToBits(0, w - 1);
    }
    if value == BV.Pow2(w) - 1 {
      var ones := BV.Fill(w, true);
      BV.ValueAllTrue(ones);
      BV.ValueInjective(bits, ones);
    }
  }

  /** An interpretation in which everything is zero. */
  ghost function ZeroValue(s: Sort): Val {
    match s
    case Bool => B(false)
    case BitVec(w) => W(BV.Fill(w, false))
    case OtherSort => E(0)
  }

  ghost function ZeroInterp(): (i: Interp)
    ensures Fits(i)
  {
    Interp((n: nat, s: Sort) => ZeroValue(s), (t: nat, s: Sort, vs: seq<Val>) => ZeroValue(s))
  }

  // ---------- bitwise terms ----------

  /** Terms built from variables and constants with the bitwise or the Boolean connectives. */
  predicate Supported(t: Term) {
    match t.op
    case True => true
    case False => true
    case Var(_) => true
    case BvConst(_, _) => true
    case Not => |t.args| == 1 && Supported(t.args[0])
    case BvNot => |t.args| == 1 && Supported(t.args[0])
    case Xor => |t.args| == 2 && Supported(t.args[0]) && Supported(t.args[1])
    case BvXor => |t.args| == 2 && Supported(t.args[0]) && Supported(t.args[1])
    case And => |t.args| >= 2 && forall k :: 0 <= k < |t.args| ==> Supported(t.args[k])
    case BvAnd => |t.args| == 2 && Supported(t.args[0]) && Supported(t.args[1])
    case Or => |t.args| >= 2 && forall k :: 0 <= k < |t.args| ==> Supported(t.args[k])
    case BvOr => |t.args| == 2 && Supported(t.args[0]) && Supported(t.args[1])
    case _ => false
  }

  /** The truth value when constants other than zero count as true. */
  ghost predicate Truth(t: Term, rho: Term -> bool)
    requires Supported(t)
  {
    match t.op
    case True => true
    case False => false
    case Var(_) => rho(t)
    case BvConst(value, _) => value != 0
    case Not => !Truth(t.args[0], rho)
    case BvNot => !Truth(t.args[0], rho)
    case Xor => Truth(t.args[0], rho) != Truth(t.args[1], rho)
    case BvXor => Truth(t.args[0], rho) != Truth(t.args[1], rho)
    case And => forall k :: 0 <= k < |t.args| ==> Truth(t.args[k], rho)
    case BvAnd => Truth(t.args[0], rho) && Truth(t.args[1], rho)
    case Or => exists k :: 0 <= k < |t.args| && Truth(t.args[k], rho)
    case BvOr => Truth(t.args[0], rho) || Truth(t.args[1], rho)
  }

  lemma ArgSorts(t: Term)
    requires WellSorted(t)
    ensures forall k :: 0 <= k < |t.args| ==> WellSorted(t.args[k])
    ensures t.op.Not? || t.op.BvNot? ==> |t.args| == 1 && t.args[0].sort == t.sort
    ensures t.op.Xor? || t.op.BvXor? || t.op.BvAnd? || t.op.BvOr? ==> |t.args| == 2 && t.args[0].sort == t.sort && t.args[1].sort == t.sort
    ensures t.op.And? || t.op.Or? ==> |t.args| >= 2 && t.args[0].sort == t.sort && t.args[1].sort == t.sort
  {
  }

  // ---------- what is read of a term ----------

  predicate Junction(op: Op) { op.And? || op.Or? }

  /** The term with the first two arguments of each conjunction and disjunction. */
  function FirstTwo(t: Term): Term {
    var n := if Junction(t.op) && |t.args| > 2 then 2 else |t.args|;
    Term(t.op, seq(n, k requires 0 <= k < n => FirstTwo(t.args[k])), t.sort)
  }

  /** No conjunction or disjunction has more than two arguments. */
  predicate TwoOnly(t: Term) {
    (Junction(t.op) ==> |t.args| <= 2) && forall k :: 0 <= k < |t.args| ==> TwoOnly(t.args[k])
  }

  lemma {:induction false} TwoOnlyIsRead(t: Term)
    requires TwoOnly(t)
    ensures FirstTwo(t) == t
    decreases t
  {
    forall k | 0 <= k < |t.args| ensures FirstTwo(t.args[k]) == t.args[k] { TwoOnlyIsRead(t.args[k]); }
    assert FirstTwo(t).args == t.args;
  }

  /** A word of bitwise operations is read as it is. */
  lemma {:induction false} WordIsRead(t: Term)
    requires WellSorted(t) && t.sort.BitVec? && Supported(FirstTwo(t))
    ensures TwoOnly(t)
    decreases t
  {
    ArgSorts(t);
    var u := FirstTwo(t);
    assert u.op == t.op;
    if t.op.BvNot? {
      assert u.args[0] == FirstTwo(t.args[0]);
      WordIsRead(t.args[0]);
    } else if t.op.BvXor? || t.op.BvAnd? || t.op.BvOr? {
      assert u.args[0] == FirstTwo(t.args[0]) && u.args[1] == FirstTwo(t.args[1]);
      WordIsRead(t.args[0]);
      WordIsRead(t.args[1]);
    }
  }

  /** The truth assignment that bit `k` of the words gives. */
  ghost function BitView(i: Interp, k: nat): Term -> bool { t => BitOf(t, i, k) }

  ghost function AllFalse(): Term -> bool { t => false }

  /** With constants 0 or all ones, a word operates bit by bit. */
  lemma {:induction false} BitTruth(t: Term, i: Interp, k: nat)
    requires WellSorted(t) && t.sort.BitVec? && Supported(t) && ConstsFull(t) && Fits(i) && k < t.sort.w
    ensures BitOf(t, i, k) == Truth(t, BitView(i, k))
    decreases t
  {
    hide BitOf;
    ArgSorts(t);
    if t.op.BvConst? {
      WordOfConstant(t, i);
      BitsOfConstant(t.op.value, t.op.width);
      ConstantBit(t, i, k);
    } else if t.op.BvNot? {
      assert t == Term(BvNot, [t.args[0]], t.sort);
      BitUnary(t.args[0], t.sort, i, k);
      BitTruth(t.args[0], i, k);
    } else if t.op.BvAnd? || t.op.BvOr? || t.op.BvXor? {
      assert t == Term(t.op, [t.args[0], t.args[1]], t.sort);
      BitBinary(t.op, t.args[0], t.args[1], t.sort, i, k);
      BitTruth(t.args[0], i, k);
      BitTruth(t.args[1], i, k);
    }
  }

  lemma ConstantBit(t: Term, i: Interp, k: nat)
    requires WellSorted(t) && t.op.BvConst? && Fits(i) && k < t.sort.w
    ensures BitOf(t, i, k) == BV.ToBits(t.op.value, t.op.width)[k]
  {
    WordOfConstant(t, i);
  }
}
