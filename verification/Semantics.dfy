/** What the terms of an arena mean: the Boolean core, bit-vectors as the SMT-LIB theory
    FixedSizeBitVectors and the logic QF_BV define them, and integers. Operators outside these are
    arbitrary functions of the values of their arguments. */
module TermSemantics {
  import opened BinaryFormat
  import opened Arenas
  import BV = BitVectors

  datatype Value = Truth(b: bool) | Word(bits: seq<bool>) | Number(n: int) | Element(e: int)

  /** Values of the variables, and functions for the operators without a fixed meaning. */
  datatype Interp = Interp(vars: (seq<byte>, Sort) -> Value, fn: (Op, Sort, seq<Value>) -> Value)

  ghost predicate HasSort(v: Value, s: Sort) {
    match s
    case Bool => v.Truth?
    case BitVec(w) => v.Word? && |v.bits| == w
    case Int => v.Number?
    case _ => v.Element?
  }

  ghost predicate Fits(i: Interp) {
    && (forall n, s :: HasSort(i.vars(n, s), s))
    && (forall op, s, vs :: HasSort(i.fn(op, s, vs), s))
  }

  /** A value of each sort: false, zero, or some element. */
  ghost function DefaultValue(s: Sort): (v: Value)
    ensures HasSort(v, s)
  {
    match s
    case Bool => Truth(false)
    case BitVec(w) => Word(BV.Fill(w, false))
    case Int => Number(0)
    case _ => Element(0)
  }

  // ---------- kinds of operators ----------

  /** Word operators on two words of one width. */
  predicate OnWords(op: Op) {
    || op.BvAdd? || op.BvSub? || op.BvMul? || op.BvUdiv? || op.BvUrem? || op.BvSdiv? || op.BvSrem? || op.BvSmod?
    || op.BvShl? || op.BvLshr? || op.BvAshr?
    || op.BvAnd? || op.BvOr? || op.BvXor? || op.BvNand? || op.BvNor? || op.BvXnor?
  }

  /** Word operators on one word that change its width or permute its bits. */
  predicate OnWord(op: Op) {
    || op.BvNot? || op.BvNeg? || op.BvRotateLeft? || op.BvRotateRight? || op.BvExtract?
    || op.BvZeroExtend? || op.BvSignExtend? || op.BvRepeat?
  }

  predicate ComparesWords(op: Op) {
    op.BvUlt? || op.BvUle? || op.BvUgt? || op.BvUge? || op.BvSlt? || op.BvSle? || op.BvSgt? || op.BvSge?
  }

  predicate OnNumbers(op: Op) { op.Add? || op.Sub? || op.Mul? }

  predicate ComparesNumbers(op: Op) { op.Lt? || op.Le? || op.Gt? || op.Ge? }

  predicate OnTruths(op: Op) { op.Not? || op.And? || op.Or? || op.Xor? || op.Implies? }

  predicate Constant(op: Op) { op.True? || op.False? || op.BvConst? || op.IntConst? }

  predicate Polymorphic(op: Op) { op.Ite? || op.Eq? || op.Distinct? }

  /** Operators whose meaning is fixed. */
  predicate Interpreted(op: Op) {
    || OnWords(op) || OnWord(op) || op.BvConcat? || ComparesWords(op) || OnNumbers(op) || ComparesNumbers(op)
    || OnTruths(op) || Constant(op) || Polymorphic(op)
  }

  // ---------- well-sorted nodes ----------

  predicate AllAre(ss: seq<Sort>, s: Sort) { forall k :: 0 <= k < |ss| ==> ss[k] == s }

  /** The width of the result on a word of width `w`. */
  function WidthOf(op: Op, w: nat): nat
    requires OnWord(op)
  {
    match op
    case BvExtract(high, low) => if low <= high then high - low + 1 else 0
    case BvZeroExtend(n) => w + n
    case BvSignExtend(n) => w + n
    case BvRepeat(n) => w * n
    case _ => w
  }

  ghost predicate ConstantSorted(op: Op, s: Sort)
    requires Constant(op)
  {
    match op
    case BvConst(w, v) => s == BitVec(w) && v < BV.Pow2(w)
    case IntConst(_) => s == Int
    case _ => s == Bool
  }

  ghost predicate TruthsSorted(op: Op, ss: seq<Sort>, s: Sort)
    requires OnTruths(op)
  {
    && s == Bool && AllAre(ss, Bool)
    && (op.Not? ==> |ss| == 1)
    && (op.Xor? || op.Implies? ==> |ss| == 2)
  }

  ghost predicate PolymorphicSorted(op: Op, ss: seq<Sort>, s: Sort)
    requires Polymorphic(op)
  {
    match op
    case Ite => |ss| == 3 && ss[0] == Bool && ss[1] == s && ss[2] == s
    case Eq => s == Bool && |ss| == 2 && ss[0] == ss[1]
    case Distinct => s == Bool && (ss == [] || AllAre(ss, ss[0]))
  }

  /** The operator applies to arguments of the sorts `ss` with a result of sort `s`. */
  ghost predicate NodeSorted(op: Op, ss: seq<Sort>, s: Sort) {
    if op.Var? then ss == []
    else if Constant(op) then ss == [] && ConstantSorted(op, s)
    else if OnTruths(op) then TruthsSorted(op, ss, s)
    else if Polymorphic(op) then PolymorphicSorted(op, ss, s)
    else if OnWords(op) then s.BitVec? && ss == [s, s]
    else if OnWord(op) then
      && |ss| == 1 && ss[0].BitVec? && s == BitVec(WidthOf(op, ss[0].width))
      && (op.BvExtract? ==> op.low <= op.high < ss[0].width)
    else if op.BvConcat? then |ss| == 2 && ss[0].BitVec? && ss[1].BitVec? && s == BitVec(ss[0].width + ss[1].width)
    else if ComparesWords(op) then |ss| == 2 && ss[0].BitVec? && ss[1] == ss[0] && s == Bool
    else if OnNumbers(op) then s == Int && |ss| > 0 && AllAre(ss, Int)
    else if ComparesNumbers(op) then s == Bool && ss == [Int, Int]
    else true
  }

  // ---------- meanings ----------

  /** Bit `k` moves to bit `k + n`, past the end back to the start. */
  function Rotated(a: seq<bool>, n: nat): (r: seq<bool>)
    requires n <= |a|
    ensures |r| == |a|
  {
    a[|a| - n..] + a[..|a| - n]
  }

  function Repeated(a: seq<bool>, n: nat): (r: seq<bool>)
    ensures |r| == |a| * n
  {
    if n == 0 then [] else Repeated(a, n - 1) + a
  }

  function Negation(a: seq<bool>): (r: seq<bool>)
    ensures |r| == |a| && BV.Value(r) == BV.BvNeg(BV.Value(a), |a|)
  {
    BV.ToBits(BV.BvNeg(BV.Value(a), |a|), |a|)
  }

  function WordFrom(op: Op, a: seq<bool>): (r: seq<bool>)
    requires OnWord(op) && |a| > 0 && (op.BvExtract? ==> op.low <= op.high < |a|)
    ensures |r| == WidthOf(op, |a|)
  {
    match op
    case BvNot => BV.NotBits(a)
    case BvNeg => Negation(a)
    case BvRotateLeft(n) => Rotated(a, n % |a|)
    case BvRotateRight(n) => Rotated(a, |a| - n % |a|)
    case BvExtract(high, low) => a[low..high + 1]
    case BvZeroExtend(n) => a + BV.Fill(n, false)
    case BvSignExtend(n) => a + BV.Fill(n, a[|a| - 1])
    case BvRepeat(n) => Repeated(a, n)
  }

  function ArithmeticOn(op: Op, x: nat, y: nat, w: nat): nat
    requires OnWords(op) && w > 0 && BV.InRange(x, w) && BV.InRange(y, w)
  {
    match op
    case BvAdd => BV.BvAdd(x, y, w)
    case BvSub => BV.BvSub(x, y, w)
    case BvMul => BV.BvMul(x, y, w)
    case BvUdiv => BV.BvUdiv(x, y, w)
    case BvUrem => BV.BvUrem(x, y, w)
    case BvSdiv => BV.BvSdiv(x, y, w)
    case BvSrem => BV.BvSrem(x, y, w)
    case BvSmod => BV.BvSmod(x, y, w)
    case BvShl => BV.BvShl(x, y, w)
    case BvLshr => BV.BvLshr(x, y, w)
    case BvAshr => BV.BvAshr(x, y, w)
    case _ => 0
  }

  predicate Bitwise(op: Op) { op.BvAnd? || op.BvOr? || op.BvXor? || op.BvNand? || op.BvNor? || op.BvXnor? }

  function BitwiseOn(op: Op, a: seq<bool>, b: seq<bool>): (r: seq<bool>)
    requires Bitwise(op) && |a| == |b|
    ensures |r| == |a|
  {
    match op
    case BvAnd => BV.AndBits(a, b)
    case BvOr => BV.OrBits(a, b)
    case BvXor => BV.XorBits(a, b)
    case BvNand => BV.NotBits(BV.AndBits(a, b))
    case BvNor => BV.NotBits(BV.OrBits(a, b))
    case BvXnor => BV.NotBits(BV.XorBits(a, b))
  }

  function WordsFrom(op: Op, a: seq<bool>, b: seq<bool>): (r: seq<bool>)
    requires OnWords(op) && |a| == |b| > 0
    ensures |r| == |a|
  {
    if Bitwise(op) then BitwiseOn(op, a, b)
    else BV.LowBits(ArithmeticOn(op, BV.Value(a), BV.Value(b), |a|), |a|)
  }

  predicate WordsCompare(op: Op, a: seq<bool>, b: seq<bool>)
    requires ComparesWords(op) && |a| == |b| > 0
  {
    var x, y := BV.Value(a), BV.Value(b);
    var s, t := BV.Signed(x, |a|), BV.Signed(y, |a|);
    match op
    case BvUlt => x < y
    case BvUle => x <= y
    case BvUgt => x > y
    case BvUge => x >= y
    case BvSlt => s < t
    case BvSle => s <= t
    case BvSgt => s > t
    case BvSge => s >= t
  }

  function Total(ns: seq<int>): int { if ns == [] then 0 else Total(ns[..|ns| - 1]) + ns[|ns| - 1] }

  function Product(ns: seq<int>): int { if ns == [] then 1 else Product(ns[..|ns| - 1]) * ns[|ns| - 1] }

  /** Sums, products and left-associative differences; the difference of one number is its negation. */
  function NumbersFrom(op: Op, ns: seq<int>): int
    requires OnNumbers(op) && |ns| > 0
  {
    match op
    case Add => Total(ns)
    case Mul => Product(ns)
    case Sub => if |ns| == 1 then -ns[0] else ns[0] - Total(ns[1..])
  }

  predicate NumbersCompare(op: Op, x: int, y: int)
    requires ComparesNumbers(op)
  {
    match op
    case Lt => x < y
    case Le => x <= y
    case Gt => x > y
    case Ge => x >= y
  }

  ghost predicate TruthsFrom(op: Op, bs: seq<bool>)
    requires OnTruths(op) && (op.Not? ==> |bs| == 1) && (op.Xor? || op.Implies? ==> |bs| == 2)
  {
    match op
    case Not => !bs[0]
    case And => forall k :: 0 <= k < |bs| ==> bs[k]
    case Or => exists k :: 0 <= k < |bs| && bs[k]
    case Xor => bs[0] != bs[1]
    case Implies => bs[0] ==> bs[1]
  }

  function ConstantValue(op: Op): Value
    requires Constant(op) && (op.BvConst? ==> op.value < BV.Pow2(op.width))
  {
    match op
    case True => Truth(true)
    case False => Truth(false)
    case BvConst(w, v) => Word(BV.ToBits(v, w))
    case IntConst(n) => Number(n)
  }

  ghost predicate AllDiffer(vs: seq<Value>) {
    forall j, k :: 0 <= j < k < |vs| ==> vs[j] != vs[k]
  }

  ghost predicate ValuesFit(vs: seq<Value>, ss: seq<Sort>) {
    |vs| == |ss| && forall k :: 0 <= k < |vs| ==> HasSort(vs[k], ss[k])
  }

  ghost predicate PositiveWidths(ss: seq<Sort>) {
    forall k :: 0 <= k < |ss| ==> ss[k].BitVec? ==> ss[k].width > 0
  }

  ghost function TruthsOf(vs: seq<Value>): (bs: seq<bool>)
    requires forall k :: 0 <= k < |vs| ==> vs[k].Truth?
    ensures |bs| == |vs|
  {
    seq(|vs|, k requires 0 <= k < |vs| => vs[k].b)
  }

  ghost function NumbersOf(vs: seq<Value>): (ns: seq<int>)
    requires forall k :: 0 <= k < |vs| ==> vs[k].Number?
    ensures |ns| == |vs|
  {
    seq(|vs|, k requires 0 <= k < |vs| => vs[k].n)
  }

  ghost function PolymorphicFrom(op: Op, vs: seq<Value>): Value
    requires Polymorphic(op) && (op.Ite? ==> |vs| == 3 && vs[0].Truth?) && (op.Eq? ==> |vs| == 2)
  {
    match op
    case Ite => if vs[0].b then vs[1] else vs[2]
    case Eq => Truth(vs[0] == vs[1])
    case Distinct => Truth(AllDiffer(vs))
  }

  /** The value of an operator on the values of its arguments. */
  ghost function Meaning(op: Op, ss: seq<Sort>, s: Sort, vs: seq<Value>, i: Interp): (v: Value)
    requires NodeSorted(op, ss, s) && ValuesFit(vs, ss) && PositiveWidths(ss) && Fits(i)
    ensures HasSort(v, s)
  {
    if op.Var? then i.vars(op.name, s)
    else if Constant(op) then ConstantValue(op)
    else if OnTruths(op) then Truth(TruthsFrom(op, TruthsOf(vs)))
    else if Polymorphic(op) then PolymorphicFrom(op, vs)
    else if OnWords(op) then Word(WordsFrom(op, vs[0].bits, vs[1].bits))
    else if OnWord(op) then Word(WordFrom(op, vs[0].bits))
    else if op.BvConcat? then Word(vs[1].bits + vs[0].bits)
    else if ComparesWords(op) then Truth(WordsCompare(op, vs[0].bits, vs[1].bits))
    else if OnNumbers(op) then Number(NumbersFrom(op, NumbersOf(vs)))
    else if ComparesNumbers(op) then Truth(NumbersCompare(op, vs[0].n, vs[1].n))
    else i.fn(op, s, vs)
  }

  // ---------- terms of an arena ----------

  type Sorts = seq<Sort>

  type Terms = seq<TermData>

  const MAX_BV_WIDTH: nat := 65536

  ghost predicate GoodSort(s: Sort) { s != Real && (s.BitVec? ==> 0 < s.width <= MAX_BV_WIDTH) }

  /** Every term refers to sorts and to earlier terms of the arena. */
  ghost predicate Linked(sorts: Sorts, terms: Terms) {
    forall id :: 0 <= id < |terms| ==>
      terms[id].sort < |sorts| && forall k :: 0 <= k < |terms[id].args| ==> terms[id].args[k] < id
  }

  function SortOf(sorts: Sorts, terms: Terms, id: nat): Sort
    requires Linked(sorts, terms) && id < |terms|
  {
    sorts[terms[id].sort]
  }

  ghost function ArgSorts(sorts: Sorts, terms: Terms, args: seq<nat>): (ss: seq<Sort>)
    requires Linked(sorts, terms) && forall k :: 0 <= k < |args| ==> args[k] < |terms|
    ensures |ss| == |args|
  {
    seq(|args|, k requires 0 <= k < |args| => SortOf(sorts, terms, args[k]))
  }

  ghost predicate TermSorted(sorts: Sorts, terms: Terms, id: nat)
    requires Linked(sorts, terms) && id < |terms|
  {
    && GoodSort(SortOf(sorts, terms, id))
    && NodeSorted(terms[id].op, ArgSorts(sorts, terms, terms[id].args), SortOf(sorts, terms, id))
  }

  /** An arena of well-sorted terms. */
  ghost predicate ArenaOk(sorts: Sorts, terms: Terms) {
    Linked(sorts, terms) && forall id :: 0 <= id < |terms| ==> TermSorted(sorts, terms, id)
  }

  /** No two terms share their operator and arguments. */
  ghost predicate HashConsed(terms: Terms) {
    forall a, b :: 0 <= a < |terms| && 0 <= b < |terms| && terms[a].op == terms[b].op && terms[a].args == terms[b].args ==> a == b
  }

  /** The value of a term. */
  ghost function Eval(sorts: Sorts, terms: Terms, id: nat, i: Interp): (v: Value)
    requires ArenaOk(sorts, terms) && id < |terms| && Fits(i)
    ensures HasSort(v, SortOf(sorts, terms, id))
    decreases id
  {
    assert TermSorted(sorts, terms, id);
    var args := terms[id].args;
    var ss := ArgSorts(sorts, terms, args);
    var vs := seq(|args|, k requires 0 <= k < |args| => Eval(sorts, terms, args[k], i));
    ArgsFit(sorts, terms, args);
    Meaning(terms[id].op, ss, SortOf(sorts, terms, id), vs, i)
  }

  lemma ArgsFit(sorts: Sorts, terms: Terms, args: seq<nat>)
    requires ArenaOk(sorts, terms) && forall k :: 0 <= k < |args| ==> args[k] < |terms|
    ensures PositiveWidths(ArgSorts(sorts, terms, args))
  {
    forall k | 0 <= k < |args| ensures GoodSort(ArgSorts(sorts, terms, args)[k]) {
      assert TermSorted(sorts, terms, args[k]);
    }
  }

  ghost function EvalAll(sorts: Sorts, terms: Terms, args: seq<nat>, i: Interp): (vs: seq<Value>)
    requires ArenaOk(sorts, terms) && Fits(i) && forall k :: 0 <= k < |args| ==> args[k] < |terms|
    ensures ValuesFit(vs, ArgSorts(sorts, terms, args)) && PositiveWidths(ArgSorts(sorts, terms, args))
  {
    ArgsFit(sorts, terms, args);
    seq(|args|, k requires 0 <= k < |args| => Eval(sorts, terms, args[k], i))
  }

  /** A term means its operator applied to the values of its arguments. */
  lemma EvalIs(sorts: Sorts, terms: Terms, id: nat, i: Interp)
    requires ArenaOk(sorts, terms) && id < |terms| && Fits(i)
    ensures NodeSorted(terms[id].op, ArgSorts(sorts, terms, terms[id].args), SortOf(sorts, terms, id))
    ensures Eval(sorts, terms, id, i) == Meaning(terms[id].op, ArgSorts(sorts, terms, terms[id].args),
                                                SortOf(sorts, terms, id), EvalAll(sorts, terms, terms[id].args, i), i)
  {
    assert TermSorted(sorts, terms, id);
    var args := terms[id].args;
    assert EvalAll(sorts, terms, args, i) == seq(|args|, k requires 0 <= k < |args| => Eval(sorts, terms, args[k], i));
  }

  /** Growing the arenas changes no value. */
  lemma {:induction false} EvalStable(sorts: Sorts, terms: Terms, sorts': Sorts, terms': Terms, id: nat, i: Interp)
    requires ArenaOk(sorts, terms) && ArenaOk(sorts', terms') && sorts <= sorts' && terms <= terms'
    requires id < |terms| && Fits(i)
    ensures Eval(sorts, terms, id, i) == Eval(sorts', terms', id, i)
    ensures SortOf(sorts, terms, id) == SortOf(sorts', terms', id)
    decreases id
  {
    hide Meaning, NodeSorted;
    var args := terms[id].args;
    assert terms'[id] == terms[id];
    forall k | 0 <= k < |args|
      ensures Eval(sorts, terms, args[k], i) == Eval(sorts', terms', args[k], i)
      ensures SortOf(sorts, terms, args[k]) == SortOf(sorts', terms', args[k])
    {
      EvalStable(sorts, terms, sorts', terms', args[k], i);
    }
    EvalIs(sorts, terms, id, i);
    EvalIs(sorts', terms', id, i);
    assert ArgSorts(sorts, terms, args) == ArgSorts(sorts', terms', args);
    assert EvalAll(sorts, terms, args, i) == EvalAll(sorts', terms', args, i);
  }

  // ---------- the value of a term, operator by operator ----------

  lemma ArgValue(sorts: Sorts, terms: Terms, id: nat, k: nat, i: Interp)
    requires ArenaOk(sorts, terms) && id < |terms| && Fits(i) && k < |terms[id].args|
    ensures terms[id].args[k] < id
    ensures EvalAll(sorts, terms, terms[id].args, i)[k] == Eval(sorts, terms, terms[id].args[k], i)
    ensures ArgSorts(sorts, terms, terms[id].args)[k] == SortOf(sorts, terms, terms[id].args[k])
    ensures GoodSort(SortOf(sorts, terms, terms[id].args[k]))
  {
    assert TermSorted(sorts, terms, terms[id].args[k]);
  }

  lemma OnWordsShape(sorts: Sorts, terms: Terms, id: nat)
    requires ArenaOk(sorts, terms) && id < |terms| && OnWords(terms[id].op)
    ensures var args, s := terms[id].args, SortOf(sorts, terms, id);
      && s.BitVec? && s.width > 0 && |args| == 2 && args[0] < id && args[1] < id
      && SortOf(sorts, terms, args[0]) == s && SortOf(sorts, terms, args[1]) == s
  {
    hide ArenaOk;
    NodeOk(sorts, terms, id);
    var ss := ArgSorts(sorts, terms, terms[id].args);
    assert ss[0] == SortOf(sorts, terms, id) && ss[1] == SortOf(sorts, terms, id);
  }

  lemma EvalOnWords(sorts: Sorts, terms: Terms, id: nat, i: Interp)
    requires ArenaOk(sorts, terms) && id < |terms| && Fits(i) && OnWords(terms[id].op)
    ensures var args, s := terms[id].args, SortOf(sorts, terms, id);
      && s.BitVec? && s.width > 0 && |args| == 2 && args[0] < id && args[1] < id
      && SortOf(sorts, terms, args[0]) == s && SortOf(sorts, terms, args[1]) == s
      && Eval(sorts, terms, id, i) ==
         Word(WordsFrom(terms[id].op, Eval(sorts, terms, args[0], i).bits, Eval(sorts, terms, args[1], i).bits))
  {
    hide WordsFrom;
    OnWordsShape(sorts, terms, id);
    EvalIs(sorts, terms, id, i);
    ArgValue(sorts, terms, id, 0, i);
    ArgValue(sorts, terms, id, 1, i);
  }

  lemma OnWordShape(sorts: Sorts, terms: Terms, id: nat)
    requires ArenaOk(sorts, terms) && id < |terms| && OnWord(terms[id].op)
    ensures var args, op := terms[id].args, terms[id].op;
      && |args| == 1 && args[0] < id
      && var s, t := SortOf(sorts, terms, id), SortOf(sorts, terms, args[0]);
      && t.BitVec? && t.width > 0 && s == BitVec(WidthOf(op, t.width)) && s.width > 0
      && (op.BvExtract? ==> op.low <= op.high < t.width)
  {
    hide ArenaOk;
    NodeOk(sorts, terms, id);
    var ss := ArgSorts(sorts, terms, terms[id].args);
    assert ss[0] == SortOf(sorts, terms, terms[id].args[0]);
  }

  lemma EvalOnWord(sorts: Sorts, terms: Terms, id: nat, i: Interp)
    requires ArenaOk(sorts, terms) && id < |terms| && Fits(i) && OnWord(terms[id].op)
    ensures var args, op := terms[id].args, terms[id].op;
      && |args| == 1 && args[0] < id && SortOf(sorts, terms, args[0]).BitVec? && SortOf(sorts, terms, args[0]).width > 0
      && (op.BvExtract? ==> op.low <= op.high < SortOf(sorts, terms, args[0]).width)
      && Eval(sorts, terms, id, i) == Word(WordFrom(op, Eval(sorts, terms, args[0], i).bits))
  {
    hide WordFrom;
    OnWordShape(sorts, terms, id);
    EvalIs(sorts, terms, id, i);
    ArgValue(sorts, terms, id, 0, i);
  }

  lemma ConcatShape(sorts: Sorts, terms: Terms, id: nat)
    requires ArenaOk(sorts, terms) && id < |terms| && terms[id].op.BvConcat?
    ensures var args := terms[id].args;
      && |args| == 2 && args[0] < id && args[1] < id
      && var s, t := SortOf(sorts, terms, args[0]), SortOf(sorts, terms, args[1]);
      s.BitVec? && t.BitVec? && SortOf(sorts, terms, id) == BitVec(s.width + t.width)
  {
    hide ArenaOk;
    NodeOk(sorts, terms, id);
    var ss := ArgSorts(sorts, terms, terms[id].args);
    assert ss[0] == SortOf(sorts, terms, terms[id].args[0]) && ss[1] == SortOf(sorts, terms, terms[id].args[1]);
  }

  lemma EvalConcat(sorts: Sorts, terms: Terms, id: nat, i: Interp)
    requires ArenaOk(sorts, terms) && id < |terms| && Fits(i) && terms[id].op.BvConcat?
    ensures var args := terms[id].args;
      && |args| == 2 && args[0] < id && args[1] < id
      && SortOf(sorts, terms, args[0]).BitVec? && SortOf(sorts, terms, args[1]).BitVec?
      && Eval(sorts, terms, id, i) == Word(Eval(sorts, terms, args[1], i).bits + Eval(sorts, terms, args[0], i).bits)
  {
    ConcatShape(sorts, terms, id);
    EvalIs(sorts, terms, id, i);
    ArgValue(sorts, terms, id, 0, i);
    ArgValue(sorts, terms, id, 1, i);
  }

  lemma NodeOk(sorts: Sorts, terms: Terms, id: nat)
    requires ArenaOk(sorts, terms) && id < |terms|
    ensures Linked(sorts, terms)
    ensures NodeSorted(terms[id].op, ArgSorts(sorts, terms, terms[id].args), SortOf(sorts, terms, id))
    ensures GoodSort(SortOf(sorts, terms, id))
    ensures forall k :: 0 <= k < |terms[id].args| ==> terms[id].args[k] < id && GoodSort(SortOf(sorts, terms, terms[id].args[k]))
  {
    hide NodeSorted;
    assert TermSorted(sorts, terms, id);
    forall k | 0 <= k < |terms[id].args| ensures GoodSort(SortOf(sorts, terms, terms[id].args[k])) {
      assert TermSorted(sorts, terms, terms[id].args[k]);
    }
  }

  lemma ComparesWordsShape(sorts: Sorts, terms: Terms, id: nat)
    requires ArenaOk(sorts, terms) && id < |terms| && ComparesWords(terms[id].op)
    ensures var args := terms[id].args;
      && SortOf(sorts, terms, id) == Bool && |args| == 2 && args[0] < id && args[1] < id
      && var s := SortOf(sorts, terms, args[0]);
      s.BitVec? && s.width > 0 && SortOf(sorts, terms, args[1]) == s
  {
    hide ArenaOk;
    NodeOk(sorts, terms, id);
    var ss := ArgSorts(sorts, terms, terms[id].args);
    assert ss[0] == SortOf(sorts, terms, terms[id].args[0]) && ss[1] == SortOf(sorts, terms, terms[id].args[1]);
  }

  lemma EvalComparesWords(sorts: Sorts, terms: Terms, id: nat, i: Interp)
    requires ArenaOk(sorts, terms) && id < |terms| && Fits(i) && ComparesWords(terms[id].op)
    ensures var args := terms[id].args;
      && SortOf(sorts, terms, id) == Bool && |args| == 2 && args[0] < id && args[1] < id
      && var s := SortOf(sorts, terms, args[0]);
      && s.BitVec? && s.width > 0 && SortOf(sorts, terms, args[1]) == s
      && Eval(sorts, terms, id, i) ==
         Truth(WordsCompare(terms[id].op, Eval(sorts, terms, args[0], i).bits, Eval(sorts, terms, args[1], i).bits))
  {
    hide WordsCompare;
    ComparesWordsShape(sorts, terms, id);
    EvalIs(sorts, terms, id, i);
    ArgValue(sorts, terms, id, 0, i);
    ArgValue(sorts, terms, id, 1, i);
  }

  lemma TruthsShape(sorts: Sorts, terms: Terms, id: nat)
    requires ArenaOk(sorts, terms) && id < |terms| && OnTruths(terms[id].op)
    ensures var args, op := terms[id].args, terms[id].op;
      && SortOf(sorts, terms, id) == Bool
      && (forall k :: 0 <= k < |args| ==> args[k] < id && SortOf(sorts, terms, args[k]) == Bool)
      && (op.Not? ==> |args| == 1) && (op.Xor? || op.Implies? ==> |args| == 2)
  {
    hide ArenaOk;
    NodeOk(sorts, terms, id);
    var args := terms[id].args;
    var ss := ArgSorts(sorts, terms, args);
    forall k | 0 <= k < |args| ensures SortOf(sorts, terms, args[k]) == Bool {
      assert ss[k] == SortOf(sorts, terms, args[k]);
    }
  }

  /** The truth of a Boolean term. */
  ghost predicate IsTrue(sorts: Sorts, terms: Terms, id: nat, i: Interp)
    requires ArenaOk(sorts, terms) && id < |terms| && Fits(i)
  {
    Eval(sorts, terms, id, i) == Truth(true)
  }

  lemma EvalTruths(sorts: Sorts, terms: Terms, id: nat, i: Interp)
    requires ArenaOk(sorts, terms) && id < |terms| && Fits(i) && OnTruths(terms[id].op)
    ensures var args, op := terms[id].args, terms[id].op;
      && SortOf(sorts, terms, id) == Bool
      && (forall k :: 0 <= k < |args| ==> args[k] < id && SortOf(sorts, terms, args[k]) == Bool)
      && (op.Not? ==> |args| == 1 && (IsTrue(sorts, terms, id, i) <==> !IsTrue(sorts, terms, args[0], i)))
      && (op.And? ==> (IsTrue(sorts, terms, id, i) <==> forall k :: 0 <= k < |args| ==> IsTrue(sorts, terms, args[k], i)))
      && (op.Or? ==> (IsTrue(sorts, terms, id, i) <==> exists k :: 0 <= k < |args| && IsTrue(sorts, terms, args[k], i)))
      && (op.Xor? ==> |args| == 2 && (IsTrue(sorts, terms, id, i) <==> IsTrue(sorts, terms, args[0], i) != IsTrue(sorts, terms, args[1], i)))
      && (op.Implies? ==> |args| == 2 && (IsTrue(sorts, terms, id, i) <==> (IsTrue(sorts, terms, args[0], i) ==> IsTrue(sorts, terms, args[1], i))))
  {
    hide ArenaOk, Eval;
    TruthsShape(sorts, terms, id);
    EvalIs(sorts, terms, id, i);
    var args := terms[id].args;
    var vs := EvalAll(sorts, terms, args, i);
    var bs := TruthsOf(vs);
    forall k | 0 <= k < |args| ensures bs[k] == IsTrue(sorts, terms, args[k], i) {
      ArgValue(sorts, terms, id, k, i);
    }
  }

  lemma PolymorphicShape(sorts: Sorts, terms: Terms, id: nat)
    requires ArenaOk(sorts, terms) && id < |terms| && Polymorphic(terms[id].op)
    ensures var args, op, s := terms[id].args, terms[id].op, SortOf(sorts, terms, id);
      && (forall k :: 0 <= k < |args| ==> args[k] < id)
      && (op.Ite? ==> |args| == 3 && SortOf(sorts, terms, args[0]) == Bool && SortOf(sorts, terms, args[1]) == s && SortOf(sorts, terms, args[2]) == s)
      && (op.Eq? ==> s == Bool && |args| == 2 && SortOf(sorts, terms, args[0]) == SortOf(sorts, terms, args[1]))
      && (op.Distinct? ==> s == Bool && forall k :: 0 <= k < |args| ==> SortOf(sorts, terms, args[k]) == SortOf(sorts, terms, args[0]))
  {
    hide ArenaOk;
    NodeOk(sorts, terms, id);
    var args := terms[id].args;
    var ss := ArgSorts(sorts, terms, args);
    forall k | 0 <= k < |args| ensures ss[k] == SortOf(sorts, terms, args[k]) {}
    if terms[id].op.Distinct? && args != [] {
      forall k | 0 <= k < |args| ensures SortOf(sorts, terms, args[k]) == SortOf(sorts, terms, args[0]) {
        assert ss[k] == ss[0];
      }
    }
  }

  lemma EvalPolymorphic(sorts: Sorts, terms: Terms, id: nat, i: Interp)
    requires ArenaOk(sorts, terms) && id < |terms| && Fits(i) && Polymorphic(terms[id].op)
    ensures var args, op := terms[id].args, terms[id].op;
      && (forall k :: 0 <= k < |args| ==> args[k] < id)
      && (op.Ite? ==> |args| == 3)
      && (op.Ite? && IsTrue(sorts, terms, args[0], i) ==> Eval(sorts, terms, id, i) == Eval(sorts, terms, args[1], i))
      && (op.Ite? && !IsTrue(sorts, terms, args[0], i) ==> Eval(sorts, terms, id, i) == Eval(sorts, terms, args[2], i))
      && (op.Eq? ==> |args| == 2 && (IsTrue(sorts, terms, id, i) <==> Eval(sorts, terms, args[0], i) == Eval(sorts, terms, args[1], i)))
      && (op.Distinct? ==> (IsTrue(sorts, terms, id, i) <==>
           forall j, k :: 0 <= j < k < |args| ==> Eval(sorts, terms, args[j], i) != Eval(sorts, terms, args[k], i)))
  {
    hide ArenaOk, Eval;
    PolymorphicShape(sorts, terms, id);
    EvalIs(sorts, terms, id, i);
    var args := terms[id].args;
    var vs := EvalAll(sorts, terms, args, i);
    forall k | 0 <= k < |args| ensures vs[k] == Eval(sorts, terms, args[k], i) {
      ArgValue(sorts, terms, id, k, i);
    }
  }

  lemma EvalConstant(sorts: Sorts, terms: Terms, id: nat, i: Interp)
    requires ArenaOk(sorts, terms) && id < |terms| && Fits(i) && Constant(terms[id].op)
    ensures terms[id].args == [] && ConstantSorted(terms[id].op, SortOf(sorts, terms, id))
    ensures Eval(sorts, terms, id, i) == ConstantValue(terms[id].op)
  {
    hide ConstantValue;
    EvalIs(sorts, terms, id, i);
  }

  lemma EvalVar(sorts: Sorts, terms: Terms, id: nat, i: Interp)
    requires ArenaOk(sorts, terms) && id < |terms| && Fits(i) && terms[id].op.Var?
    ensures terms[id].args == [] && Eval(sorts, terms, id, i) == i.vars(terms[id].op.name, SortOf(sorts, terms, id))
  {
    EvalIs(sorts, terms, id, i);
  }

  lemma NumbersShape(sorts: Sorts, terms: Terms, id: nat)
    requires ArenaOk(sorts, terms) && id < |terms| && OnNumbers(terms[id].op)
    ensures var args := terms[id].args;
      && SortOf(sorts, terms, id) == Int && |args| > 0
      && forall k :: 0 <= k < |args| ==> args[k] < id && SortOf(sorts, terms, args[k]) == Int
  {
    hide ArenaOk;
    NodeOk(sorts, terms, id);
    var args := terms[id].args;
    var ss := ArgSorts(sorts, terms, args);
    forall k | 0 <= k < |args| ensures SortOf(sorts, terms, args[k]) == Int {
      assert ss[k] == SortOf(sorts, terms, args[k]);
    }
  }

  /** The integers that integer terms stand for. */
  ghost function NumbersAt(sorts: Sorts, terms: Terms, args: seq<nat>, i: Interp): (ns: seq<int>)
    requires ArenaOk(sorts, terms) && Fits(i)
    requires forall k :: 0 <= k < |args| ==> args[k] < |terms| && SortOf(sorts, terms, args[k]) == Int
    ensures |ns| == |args|
    ensures forall k :: 0 <= k < |args| ==> Eval(sorts, terms, args[k], i) == Number(ns[k])
  {
    seq(|args|, k requires 0 <= k < |args| => Eval(sorts, terms, args[k], i).n)
  }

  lemma EvalNumbers(sorts: Sorts, terms: Terms, id: nat, i: Interp)
    requires ArenaOk(sorts, terms) && id < |terms| && Fits(i) && OnNumbers(terms[id].op)
    ensures var args := terms[id].args;
      && SortOf(sorts, terms, id) == Int && |args| > 0
      && (forall k :: 0 <= k < |args| ==> args[k] < id && SortOf(sorts, terms, args[k]) == Int)
      && Eval(sorts, terms, id, i) == Number(NumbersFrom(terms[id].op, NumbersAt(sorts, terms, args, i)))
  {
    hide NumbersFrom, ArenaOk, Eval;
    NumbersShape(sorts, terms, id);
    EvalIs(sorts, terms, id, i);
    var args := terms[id].args;
    var ns := NumbersOf(EvalAll(sorts, terms, args, i));
    forall k | 0 <= k < |args| ensures ns[k] == NumbersAt(sorts, terms, args, i)[k] {
      ArgValue(sorts, terms, id, k, i);
    }
    assert ns == NumbersAt(sorts, terms, args, i);
  }

  lemma ComparesNumbersShape(sorts: Sorts, terms: Terms, id: nat)
    requires ArenaOk(sorts, terms) && id < |terms| && ComparesNumbers(terms[id].op)
    ensures var args := terms[id].args;
      && SortOf(sorts, terms, id) == Bool && |args| == 2 && args[0] < id && args[1] < id
      && SortOf(sorts, terms, args[0]) == Int && SortOf(sorts, terms, args[1]) == Int
  {
    hide ArenaOk;
    NodeOk(sorts, terms, id);
    var ss := ArgSorts(sorts, terms, terms[id].args);
    assert ss[0] == Int && ss[1] == Int;
  }

  lemma EvalComparesNumbers(sorts: Sorts, terms: Terms, id: nat, i: Interp)
    requires ArenaOk(sorts, terms) && id < |terms| && Fits(i) && ComparesNumbers(terms[id].op)
    ensures var args := terms[id].args;
      && SortOf(sorts, terms, id) == Bool && |args| == 2 && args[0] < id && args[1] < id
      && SortOf(sorts, terms, args[0]) == Int && SortOf(sorts, terms, args[1]) == Int
      && Eval(sorts, terms, id, i) ==
         Truth(NumbersCompare(terms[id].op, Eval(sorts, terms, args[0], i).n, Eval(sorts, terms, args[1], i).n))
  {
    hide NumbersCompare;
    ComparesNumbersShape(sorts, terms, id);
    EvalIs(sorts, terms, id, i);
    ArgValue(sorts, terms, id, 0, i);
    ArgValue(sorts, terms, id, 1, i);
  }

  lemma TruthValue(sorts: Sorts, terms: Terms, id: nat, i: Interp)
    requires ArenaOk(sorts, terms) && id < |terms| && Fits(i) && SortOf(sorts, terms, id) == Bool
    ensures Eval(sorts, terms, id, i) == Truth(IsTrue(sorts, terms, id, i))
  {
    hide ArenaOk;
  }

  // ---------- terms that the blaster has circuits for ----------

  ghost predicate WordSort(sorts: Sorts, terms: Terms, id: nat)
    requires ArenaOk(sorts, terms)
  {
    id < |terms| && SortOf(sorts, terms, id).BitVec?
  }

  ghost predicate TruthSort(sorts: Sorts, terms: Terms, id: nat)
    requires ArenaOk(sorts, terms)
  {
    id < |terms| && SortOf(sorts, terms, id) == Sort.Bool
  }

  /** The comparisons that have a circuit. */
  predicate HasCircuit(op: Op) { op.BvUlt? || op.BvUle? || op.BvUgt? || op.BvUge? || op.BvSlt? || op.BvSle? }

  ghost predicate Comparable(sorts: Sorts, terms: Terms, id: nat)
    requires ArenaOk(sorts, terms)
  {
    WordSort(sorts, terms, id) || TruthSort(sorts, terms, id)
  }

  /** The operators that the blaster does not answer with fresh variables. */
  ghost predicate HandledOp(sorts: Sorts, terms: Terms, op: Op, args: seq<nat>)
    requires ArenaOk(sorts, terms)
  {
    || OnWords(op) || OnWord(op) || op.BvConcat? || op.BvConst? || op.Var? || op.Ite? || HasCircuit(op)
    || op.True? || op.False? || OnTruths(op)
    || (op.Eq? && |args| == 2 && Comparable(sorts, terms, args[0]))
    || (op.Distinct? && (|args| <= 1 || Comparable(sorts, terms, args[0])))
  }

  ghost predicate Handled(sorts: Sorts, terms: Terms, id: nat)
    requires ArenaOk(sorts, terms) && id < |terms|
  {
    HandledOp(sorts, terms, terms[id].op, terms[id].args)
  }

  /** The term is built from handled operators only. */
  ghost predicate Pure(sorts: Sorts, terms: Terms, id: nat)
    requires ArenaOk(sorts, terms) && id < |terms|
    decreases id
  {
    && Handled(sorts, terms, id)
    && forall k :: 0 <= k < |terms[id].args| ==> Pure(sorts, terms, terms[id].args[k])
  }

  ghost predicate AllPure(sorts: Sorts, terms: Terms, ids: seq<nat>)
    requires ArenaOk(sorts, terms)
  {
    forall k :: 0 <= k < |ids| ==> ids[k] < |terms| && Pure(sorts, terms, ids[k])
  }

  lemma PureArgs(sorts: Sorts, terms: Terms, id: nat)
    requires ArenaOk(sorts, terms) && id < |terms| && Pure(sorts, terms, id)
    ensures Handled(sorts, terms, id)
    ensures forall k :: 0 <= k < |terms[id].args| ==> Pure(sorts, terms, terms[id].args[k])
  {
    hide ArenaOk, Handled;
  }

  /** Growing the arenas changes nothing in it. */
  lemma {:induction false} PureStable(sorts: Sorts, terms: Terms, sorts': Sorts, terms': Terms, id: nat)
    requires ArenaOk(sorts, terms) && ArenaOk(sorts', terms') && sorts <= sorts' && terms <= terms' && id < |terms|
    ensures Pure(sorts, terms, id) <==> Pure(sorts', terms', id)
    decreases id
  {
    hide TermSorted;
    assert terms'[id] == terms[id];
    forall k | 0 <= k < |terms[id].args|
      ensures Pure(sorts, terms, terms[id].args[k]) <==> Pure(sorts', terms', terms[id].args[k])
      ensures SortOf(sorts', terms', terms[id].args[k]) == SortOf(sorts, terms, terms[id].args[k])
    {
      assert terms'[terms[id].args[k]] == terms[terms[id].args[k]];
      PureStable(sorts, terms, sorts', terms', terms[id].args[k]);
    }
  }
}
