/** The model validator: evaluates terms under a concrete model. */
module ModelValidation {
  import opened Lits
  import opened BinaryFormat
  import opened Arenas
  import opened TermSemantics
  import opened ConcreteValues
  import BV = BitVectors
  import NB = NaturalBits
  import CF = ConstantFolding

  // ---------- the operators that are computed ----------

  predicate PairOnWords(op: Op) {
    || op.BvAdd? || op.BvSub? || op.BvMul? || op.BvUdiv? || op.BvUrem? || op.BvAnd? || op.BvOr? || op.BvXor?
    || op.BvShl? || op.BvLshr? || op.BvAshr?
  }

  predicate OneWord(op: Op) { op.BvNot? || op.BvNeg? || op.BvExtract? || op.BvZeroExtend? || op.BvSignExtend? }

  predicate ComparesUnsigned(op: Op) { op.BvUlt? || op.BvUle? || op.BvUgt? || op.BvUge? }

  /** Every other operator has the default value of its sort. */
  predicate Computes(op: Op) {
    || op.Var? || Constant(op) || OnTruths(op) || Polymorphic(op) || PairOnWords(op) || OneWord(op) || op.BvConcat?
    || ComparesUnsigned(op) || OnNumbers(op) || ComparesNumbers(op) || op.Apply?
  }

  /** How many of `n` arguments are evaluated, in order. */
  function Arity(op: Op, n: nat): nat {
    if op.Distinct? || op.Apply? then n
    else if op.Not? || OneWord(op) then 1
    else if op.Xor? || op.Implies? || op.Eq? || PairOnWords(op) || op.BvConcat? || ComparesUnsigned(op) || OnNumbers(op) || ComparesNumbers(op)
    then 2
    else 0
  }

  // ---------- words ----------

  const U32_MAX: nat := 0xFFFF_FFFF

  /** A shift amount, or the width if it does not fit a 32-bit word. */
  function Amount(v: nat, w: nat): nat { if v <= U32_MAX then v else w }

  function PowerOf(w: nat): (p: nat)
    ensures p > 0
  {
    BV.Pow2(w)
  }

  /** Before it is masked to the width. */
  function PairResult(op: Op, a: nat, b: nat, w: nat): nat
    requires PairOnWords(op) && w > 0
  {
    match op
    case BvAdd => a + b
    case BvSub => (CF.Minus(a + PowerOf(w), b % PowerOf(w))) % PowerOf(w)
    case BvMul => a * b
    case BvUdiv => if b == 0 then NB.Mask(w) else CF.Quotient(a, b)
    case BvUrem => if b == 0 then a else a % b
    case BvAnd => NB.Bitwise(NB.AndGate, a, b)
    case BvOr => NB.Bitwise(NB.OrGate, a, b)
    case BvXor => NB.Bitwise(NB.XorGate, a, b)
    case BvShl => if Amount(b, w) >= w then 0 else CF.ShiftLeft(a, Amount(b, w))
    case BvLshr => if Amount(b, w) >= w then 0 else CF.ShiftRight(a, Amount(b, w))
    case BvAshr => AshrResult(a, b, w)
  }

  predicate SignBit(a: nat, w: nat)
    requires w > 0
  {
    NB.Bitwise(NB.AndGate, CF.ShiftRight(a, w - 1), 1) == 1
  }

  function AshrResult(a: nat, b: nat, w: nat): nat
    requires w > 0
  {
    var shift := Amount(b, w);
    if shift >= w then (if SignBit(a, w) then NB.Mask(w) else 0)
    else if SignBit(a, w) then NB.Bitwise(NB.OrGate, CF.ShiftRight(a, shift), CF.ShiftLeft(PowerOf(shift) - 1, w - shift))
    else CF.ShiftRight(a, shift)
  }

  lemma SubIsFolded(a: nat, b: nat, w: nat)
    requires w > 0 && a < BV.Pow2(w) && b < BV.Pow2(w)
    ensures CF.FoldWords(BvSub, a, b, w) == Some(CF.MaskTo(PairResult(BvSub, a, b, w), w))
  {
    hide BV.Pow2, NB.Bitwise, CF.MaskTo;
    CF.MaskIs(b, w);
    var d := CF.Minus(a + BV.Pow2(w), b);
    CF.MaskIs(d, w);
    CF.MaskIs(d % BV.Pow2(w), w);
    BV.SmallMod(b, BV.Pow2(w));
    BV.SmallMod(d % BV.Pow2(w), BV.Pow2(w));
  }

  lemma DivisionIsFolded(op: Op, a: nat, b: nat, w: nat)
    requires (op.BvUdiv? || op.BvUrem?) && w > 0 && a < BV.Pow2(w) && b < BV.Pow2(w)
    ensures CF.FoldWords(op, a, b, w) == Some(CF.MaskTo(PairResult(op, a, b, w), w))
  {
    hide BV.Pow2, NB.Bitwise, CF.MaskTo, CF.Quotient;
    CF.MaskIs(a, w);
    MaskOnes(w);
  }

  lemma MaskOnes(w: nat)
    ensures CF.MaskTo(NB.Mask(w), w) == NB.Mask(w) && CF.MaskTo(0, w) == 0
  {
    CF.MaskIs(NB.Mask(w), w);
    CF.MaskIs(0, w);
  }

  lemma ShiftIsFolded(op: Op, a: nat, b: nat, w: nat)
    requires (op.BvShl? || op.BvLshr? || op.BvAshr?) && 0 < w <= MAX_BV_WIDTH && a < BV.Pow2(w)
    ensures CF.FoldWords(op, a, b, w) == Some(CF.MaskTo(PairResult(op, a, b, w), w))
  {
    hide BV.Pow2, NB.Bitwise, CF.MaskTo, CF.ShiftRight, CF.ShiftLeft, NB.Mask;
    MaskOnes(w);
    if op.BvAshr? && b < w { CF.AshrShifted(a, b, w); }
  }

  /** Masked, it is what the folder makes of two constants. */
  lemma PairIsFolded(op: Op, a: nat, b: nat, w: nat)
    requires PairOnWords(op) && 0 < w <= MAX_BV_WIDTH && a < BV.Pow2(w) && b < BV.Pow2(w)
    ensures CF.FoldWords(op, a, b, w) == Some(CF.MaskTo(PairResult(op, a, b, w), w))
  {
    hide BV.Pow2, NB.Bitwise, CF.MaskTo;
    if op.BvSub? {
      SubIsFolded(a, b, w);
    } else if op.BvUdiv? || op.BvUrem? {
      DivisionIsFolded(op, a, b, w);
    } else if op.BvShl? || op.BvLshr? || op.BvAshr? {
      ShiftIsFolded(op, a, b, w);
    } else {
      assert op.BvAdd? || op.BvMul? || op.BvAnd? || op.BvOr? || op.BvXor?;
    }
  }

  lemma NewBvTyped(v: nat, w: nat)
    ensures Typed(NewBv(v, w), BitVec(w)) && Denotes(NewBv(v, w)) == Word(BV.LowBits(CF.MaskTo(v, w), w))
  {
    hide BV.Pow2;
    CF.MaskIs(v, w);
    BV.ModSplit(v, BV.Pow2(w));
  }

  lemma LowBitsInRange(v: nat, w: nat)
    requires v < BV.Pow2(w)
    ensures BV.LowBits(v, w) == BV.ToBits(v, w)
  {
    BV.SmallMod(v, BV.Pow2(w));
  }

  lemma PairMeans(op: Op, a: nat, b: nat, w: nat)
    requires PairOnWords(op) && 0 < w <= MAX_BV_WIDTH && a < BV.Pow2(w) && b < BV.Pow2(w)
    ensures Typed(NewBv(PairResult(op, a, b, w), w), BitVec(w))
    ensures Denotes(NewBv(PairResult(op, a, b, w), w)) == Word(WordsFrom(op, BV.LowBits(a, w), BV.LowBits(b, w)))
  {
    hide *;
    NewBvTyped(PairResult(op, a, b, w), w);
    PairIsFolded(op, a, b, w);
    PairIsOnWords(op);
    CF.WordsFolded(op, a, b, w);
    LowBitsInRange(a, w);
    LowBitsInRange(b, w);
  }

  lemma PairIsOnWords(op: Op)
    requires PairOnWords(op)
    ensures OnWords(op)
  {
  }

  /** Ones put above the word under the sign. */
  function Extended(a: nat, w: nat, n: nat, sign: bool): nat {
    if sign then NB.Bitwise(NB.OrGate, a, CF.ShiftLeft(PowerOf(n) - 1, w)) else a
  }

  /** The value of an operator on one word. */
  function OneResult(op: Op, a: nat, w: nat): ModelValue
    requires OneWord(op) && w > 0 && (op.BvExtract? ==> op.low <= op.high)
  {
    match op
    case BvNot => NewBv(NB.Bitwise(NB.XorGate, NB.Mask(w), a), w)
    case BvNeg => NewBv(CF.Minus(PowerOf(w), a % PowerOf(w)) % PowerOf(w), w)
    case BvExtract(high, low) => NewBv(CF.ShiftRight(a, low), high - low + 1)
    case BvZeroExtend(n) => BitVecValue(a, w + n)
    case BvSignExtend(n) => BitVecValue(Extended(a, w, n, SignBit(a, w)), w + n)
  }

  lemma NotMeans(a: nat, w: nat)
    requires a < BV.Pow2(w)
    ensures BV.LowBits(CF.MaskTo(NB.Bitwise(NB.XorGate, NB.Mask(w), a), w), w) == BV.NotBits(BV.LowBits(a, w))
  {
    hide BV.Pow2, CF.MaskTo, NB.Bitwise, NB.Mask;
    var r := NB.Bitwise(NB.XorGate, NB.Mask(w), a);
    CF.NotFolded(a, w);
    LowBitsInRange(a, w);
    CF.MaskIs(r, w);
    CF.LowBitsMod(r, w);
  }

  lemma NegMeans(a: nat, w: nat)
    requires a < BV.Pow2(w)
    ensures BV.LowBits(CF.MaskTo(CF.Minus(PowerOf(w), a % PowerOf(w)) % PowerOf(w), w), w) == Negation(BV.LowBits(a, w))
  {
    hide BV.Pow2, CF.MaskTo, BV.Value, BV.LowBits, BV.BvNeg, Negation;
    var r := BV.BvNeg(a, w);
    NegIs(a, w);
    CF.MaskIs(r, w);
    BV.LowBitsOfValue(Negation(BV.LowBits(a, w)), r);
  }

  lemma NegIs(a: nat, w: nat)
    requires a < BV.Pow2(w)
    ensures CF.Minus(PowerOf(w), a % PowerOf(w)) % PowerOf(w) == BV.BvNeg(a, w) < BV.Pow2(w)
  {
    hide BV.Pow2;
    BV.SmallMod(a, BV.Pow2(w));
  }

  lemma ExtractMeans(a: nat, w: nat, high: nat, low: nat)
    requires a < BV.Pow2(w) && low <= high < w
    ensures BV.LowBits(CF.MaskTo(CF.ShiftRight(a, low), high - low + 1), high - low + 1) == BV.LowBits(a, w)[low..high + 1]
  {
    hide BV.Pow2, CF.MaskTo, CF.ShiftRight, BV.LowBits;
    CF.ExtractFolded(a, w, high, low);
    LowBitsInRange(a, w);
  }

  /** Digits put above a word. */
  lemma ExtendedValue(a: nat, w: nat, top: seq<bool>)
    requires a < BV.Pow2(w)
    ensures
      var r := NB.Bitwise(NB.OrGate, a, CF.ShiftLeft(BV.Value(top), w));
      r < BV.Pow2(w + |top|) && BV.LowBits(r, w + |top|) == BV.LowBits(a, w) + top
  {
    hide BV.Pow2, NB.Bitwise, CF.ShiftLeft, BV.Value;
    var bits := BV.LowBits(a, w) + top;
    LowBitsInRange(a, w);
    CF.ConcatValue(BV.Value(top), |top|, a, w);
    BV.ValueInjective(BV.ToBits(BV.Value(top), |top|), top);
    NB.OrComm(CF.ShiftLeft(BV.Value(top), w), a);
    BV.LowBitsOfValue(bits, BV.Value(bits));
  }

  lemma ExtendMeans(a: nat, w: nat, n: nat, sign: bool)
    requires a < BV.Pow2(w) && w > 0
    ensures Extended(a, w, n, sign) < BV.Pow2(w + n)
    ensures BV.LowBits(Extended(a, w, n, sign), w + n) == BV.LowBits(a, w) + BV.Fill(n, sign)
  {
    hide BV.Pow2, NB.Bitwise, CF.ShiftLeft, BV.Value;
    var top := BV.Fill(n, sign);
    ExtendedValue(a, w, top);
    if sign {
      BV.ValueAllTrue(top);
    } else {
      BV.ValueAllFalse(top);
      NoDigits(a, w);
    }
  }

  lemma NoDigits(a: nat, w: nat)
    ensures NB.Bitwise(NB.OrGate, a, CF.ShiftLeft(0, w)) == a
  {
    hide BV.Pow2;
    assert CF.ShiftLeft(0, w) == 0;
    NB.OrComm(a, 0);
    NB.OrZero(a);
  }

  lemma SignMeans(a: nat, w: nat)
    requires a < BV.Pow2(w) && w > 0
    ensures SignBit(a, w) <==> BV.LowBits(a, w)[w - 1]
  {
    hide NB.Bitwise, CF.ShiftRight;
    CF.SignIs(a, w);
    BV.TopBit(BV.LowBits(a, w));
  }

  lemma MaskedMeans(op: Op, a: nat, w: nat)
    requires (op.BvNot? || op.BvNeg? || op.BvExtract?) && w > 0 && a < BV.Pow2(w) && (op.BvExtract? ==> op.low <= op.high < w)
    ensures Typed(OneResult(op, a, w), BitVec(WidthOf(op, w)))
    ensures Denotes(OneResult(op, a, w)) == Word(WordFrom(op, BV.LowBits(a, w)))
  {
    hide BV.Pow2, NB.Bitwise, CF.MaskTo, CF.ShiftRight, NewBv, BV.LowBits, NB.Mask, PowerOf, Negation, CF.Minus, Typed, Denotes;
    if op.BvNot? {
      NewBvTyped(NB.Bitwise(NB.XorGate, NB.Mask(w), a), w);
      NotMeans(a, w);
    } else if op.BvNeg? {
      NewBvTyped(CF.Minus(PowerOf(w), a % PowerOf(w)) % PowerOf(w), w);
      NegMeans(a, w);
    } else {
      NewBvTyped(CF.ShiftRight(a, op.low), op.high - op.low + 1);
      ExtractMeans(a, w, op.high, op.low);
    }
  }

  lemma ExtendShape(op: Op, n: nat, a: nat, w: nat, sign: bool)
    requires w > 0
    requires if sign then op == BvSignExtend(n) && SignBit(a, w) && BV.LowBits(a, w)[w - 1]
      else op == BvZeroExtend(n) || (op == BvSignExtend(n) && !SignBit(a, w) && !BV.LowBits(a, w)[w - 1])
    ensures OneWord(op) && OnWord(op) && WidthOf(op, w) == w + n
    ensures OneResult(op, a, w) == BitVecValue(Extended(a, w, n, sign), w + n)
    ensures WordFrom(op, BV.LowBits(a, w)) == BV.LowBits(a, w) + BV.Fill(n, sign)
  {
    hide BV.Pow2, NB.Bitwise, CF.ShiftLeft, SignBit, BV.LowBits, PowerOf, BV.Fill;
  }

  lemma BvShown(r: nat, k: nat)
    requires r < BV.Pow2(k)
    ensures Typed(BitVecValue(r, k), BitVec(k)) && Denotes(BitVecValue(r, k)) == Word(BV.LowBits(r, k))
  {
  }

  lemma ExtendedMeans(op: Op, n: nat, a: nat, w: nat)
    requires op == BvZeroExtend(n) || op == BvSignExtend(n)
    requires w > 0 && a < BV.Pow2(w)
    ensures OneWord(op) && OnWord(op) && WidthOf(op, w) == w + n
    ensures Typed(OneResult(op, a, w), BitVec(w + n))
    ensures Denotes(OneResult(op, a, w)) == Word(WordFrom(op, BV.LowBits(a, w)))
  {
    hide *;
    SignMeans(a, w);
    var sign := op == BvSignExtend(n) && SignBit(a, w);
    ExtendShape(op, n, a, w, sign);
    ExtendMeans(a, w, n, sign);
    BvShown(Extended(a, w, n, sign), w + n);
  }

  lemma OneMeans(op: Op, a: nat, w: nat)
    requires OneWord(op) && w > 0 && a < BV.Pow2(w) && (op.BvExtract? ==> op.low <= op.high < w)
    ensures OnWord(op)
    ensures Typed(OneResult(op, a, w), BitVec(WidthOf(op, w)))
    ensures Denotes(OneResult(op, a, w)) == Word(WordFrom(op, BV.LowBits(a, w)))
  {
    hide BV.Pow2, BV.LowBits, OneResult, WordFrom, WidthOf, Typed, Denotes;
    if op.BvZeroExtend? || op.BvSignExtend? {
      ExtendedMeans(op, op.n, a, w);
    } else {
      MaskedMeans(op, a, w);
    }
  }

  lemma ConcatMeans(a: nat, wa: nat, b: nat, wb: nat)
    requires a < BV.Pow2(wa) && b < BV.Pow2(wb)
    ensures BV.LowBits(CF.MaskTo(NB.Bitwise(NB.OrGate, CF.ShiftLeft(a, wb), b), wa + wb), wa + wb) == BV.LowBits(b, wb) + BV.LowBits(a, wa)
  {
    hide BV.Pow2, NB.Bitwise, CF.MaskTo, CF.ShiftLeft, BV.LowBits;
    CF.ConcatFolded(a, wa, b, wb);
    LowBitsInRange(a, wa);
    LowBitsInRange(b, wb);
  }

  // ---------- one operator ----------

  predicate AllDistinct(vals: seq<ModelValue>) {
    forall j, k :: 0 <= j < k < |vals| ==> vals[j] != vals[k]
  }

  predicate BothBool(vals: seq<ModelValue>) { |vals| == 2 && vals[0].BoolValue? && vals[1].BoolValue? }

  predicate BothWords(vals: seq<ModelValue>) {
    |vals| == 2 && vals[0].BitVecValue? && vals[1].BitVecValue? && vals[0].width > 0 && vals[1].width > 0
  }

  predicate BothInt(vals: seq<ModelValue>) { |vals| == 2 && vals[0].IntValue? && vals[1].IntValue? }

  function OnBools(op: Op, vals: seq<ModelValue>): Option<ModelValue>
    requires op.Not? || op.Xor? || op.Implies?
  {
    if op.Not? then (if |vals| == 1 && vals[0].BoolValue? then Some(BoolValue(!vals[0].b)) else None)
    else if !BothBool(vals) then None
    else if op.Xor? then Some(BoolValue(vals[0].b != vals[1].b))
    else Some(BoolValue(!vals[0].b || vals[1].b))
  }

  function OnBitVecs(op: Op, vals: seq<ModelValue>): Option<ModelValue>
    requires PairOnWords(op) || OneWord(op) || op.BvConcat? || ComparesUnsigned(op)
  {
    if OneWord(op) then
      if |vals| == 1 && vals[0].BitVecValue? && vals[0].width > 0 && (op.BvExtract? ==> op.low <= op.high) then
        Some(OneResult(op, vals[0].value, vals[0].width))
      else None
    else if !BothWords(vals) then None
    else
      var a, b := vals[0].value, vals[1].value;
      if op.BvConcat? then
        Some(NewBv(NB.Bitwise(NB.OrGate, CF.ShiftLeft(a, vals[1].width), b), vals[0].width + vals[1].width))
      else if PairOnWords(op) then Some(NewBv(PairResult(op, a, b, vals[0].width), vals[0].width))
      else Some(BoolValue(if op.BvUlt? then a < b else if op.BvUle? then a <= b else if op.BvUgt? then a > b else a >= b))
  }

  function OnInts(op: Op, vals: seq<ModelValue>): Option<ModelValue>
    requires OnNumbers(op) || ComparesNumbers(op)
  {
    if !BothInt(vals) then None
    else
      var x, y := vals[0].n, vals[1].n;
      match op
      case Add => Some(IntValue(x + y))
      case Sub => Some(IntValue(x - y))
      case Mul => Some(IntValue(x * y))
      case Lt => Some(BoolValue(x < y))
      case Le => Some(BoolValue(x <= y))
      case Gt => Some(BoolValue(x > y))
      case Ge => Some(BoolValue(x >= y))
  }

  /** The value of an operator on the values of its evaluated arguments; none is a type error. */
  function Combined(op: Op, vals: seq<ModelValue>, s: Sort): Option<ModelValue> {
    if op.Not? || op.Xor? || op.Implies? then OnBools(op, vals)
    else if op.Eq? then (if |vals| == 2 then Some(BoolValue(vals[0] == vals[1])) else None)
    else if op.Distinct? then Some(BoolValue(AllDistinct(vals)))
    else if PairOnWords(op) || OneWord(op) || op.BvConcat? || ComparesUnsigned(op) then OnBitVecs(op, vals)
    else if OnNumbers(op) || ComparesNumbers(op) then OnInts(op, vals)
    else Some(LeafValue(op, s))
  }

  function LeafValue(op: Op, s: Sort): ModelValue {
    match op
    case True => BoolValue(true)
    case False => BoolValue(false)
    case BvConst(width, value) => BitVecValue(value, width)
    case IntConst(n) => IntValue(n)
    case _ => DefaultFor(s)
  }

  // ---------- what one operator means ----------

  /** The values of the arguments that are evaluated have the sorts of the arguments. */
  ghost predicate ArgsTyped(sorts: Sorts, terms: Terms, id: nat, vals: seq<ModelValue>)
    requires Linked(sorts, terms) && id < |terms|
  {
    && |vals| == Arity(terms[id].op, |terms[id].args|) <= |terms[id].args|
    && forall k :: 0 <= k < |vals| ==> Typed(vals[k], SortOf(sorts, terms, terms[id].args[k]))
  }

  /** They are the values of the arguments. */
  ghost predicate ArgsMean(sorts: Sorts, terms: Terms, id: nat, vals: seq<ModelValue>, i: Interp)
    requires ArenaOk(sorts, terms) && id < |terms| && ArgsTyped(sorts, terms, id, vals) && Fits(i)
  {
    forall k :: 0 <= k < |vals| ==>
      ValueAs(vals[k], SortOf(sorts, terms, terms[id].args[k])) == Eval(sorts, terms, terms[id].args[k], i)
  }

  /** A value of the sort of the term, and, if `known`, its value. */
  ghost predicate Shows(sorts: Sorts, terms: Terms, id: nat, v: ModelValue, known: bool, i: Interp)
    requires ArenaOk(sorts, terms) && id < |terms| && Fits(i)
  {
    && Typed(v, SortOf(sorts, terms, id))
    && (known ==> ValueAs(v, SortOf(sorts, terms, id)) == Eval(sorts, terms, id, i))
  }

  ghost predicate OpShows(sorts: Sorts, terms: Terms, id: nat, vals: seq<ModelValue>, i: Interp)
    requires ArenaOk(sorts, terms) && id < |terms| && ArgsTyped(sorts, terms, id, vals) && Fits(i)
  {
    var r := Combined(terms[id].op, vals, SortOf(sorts, terms, id));
    r.Some? && Shows(sorts, terms, id, r.value, ArgsMean(sorts, terms, id, vals, i), i)
  }

  lemma BoolsShow(sorts: Sorts, terms: Terms, id: nat, vals: seq<ModelValue>, i: Interp)
    requires ArenaOk(sorts, terms) && id < |terms| && ArgsTyped(sorts, terms, id, vals) && Fits(i)
    requires terms[id].op.Not? || terms[id].op.Xor? || terms[id].op.Implies?
    ensures OpShows(sorts, terms, id, vals, i)
  {
    hide ArenaOk, Eval;
    TruthsShape(sorts, terms, id);
    EvalTruths(sorts, terms, id, i);
    TruthValue(sorts, terms, id, i);
    TruthValue(sorts, terms, terms[id].args[0], i);
    if |vals| == 2 { TruthValue(sorts, terms, terms[id].args[1], i); }
  }

  lemma EqShows(sorts: Sorts, terms: Terms, id: nat, vals: seq<ModelValue>, i: Interp)
    requires ArenaOk(sorts, terms) && id < |terms| && ArgsTyped(sorts, terms, id, vals) && Fits(i)
    requires terms[id].op.Eq?
    ensures OpShows(sorts, terms, id, vals, i)
  {
    hide ArenaOk, Eval, Typed, ValueAs;
    NodeOk(sorts, terms, id);
    PolymorphicShape(sorts, terms, id);
    EvalPolymorphic(sorts, terms, id, i);
    TruthValue(sorts, terms, id, i);
    SameValue(vals[0], vals[1], SortOf(sorts, terms, terms[id].args[0]));
    BoolShown(vals[0] == vals[1]);
  }

  lemma BoolShown(b: bool)
    ensures Typed(BoolValue(b), Sort.Bool) && ValueAs(BoolValue(b), Sort.Bool) == Truth(b)
  {
  }

  lemma DistinctShows(sorts: Sorts, terms: Terms, id: nat, vals: seq<ModelValue>, i: Interp)
    requires ArenaOk(sorts, terms) && id < |terms| && ArgsTyped(sorts, terms, id, vals) && Fits(i)
    requires terms[id].op.Distinct?
    ensures OpShows(sorts, terms, id, vals, i)
  {
    hide ArenaOk, Eval, Typed, ValueAs;
    NodeOk(sorts, terms, id);
    PolymorphicShape(sorts, terms, id);
    EvalPolymorphic(sorts, terms, id, i);
    TruthValue(sorts, terms, id, i);
    BoolShown(AllDistinct(vals));
    var args := terms[id].args;
    forall j, k | 0 <= j < k < |vals|
      ensures vals[j] == vals[k] <==> ValueAs(vals[j], SortOf(sorts, terms, args[j])) == ValueAs(vals[k], SortOf(sorts, terms, args[k]))
    {
      SameValue(vals[j], vals[k], SortOf(sorts, terms, args[0]));
    }
  }

  lemma WordShown(v: ModelValue, w: nat)
    requires Typed(v, BitVec(w))
    ensures v.BitVecValue? && v.width == w && v.value < BV.Pow2(w) && ValueAs(v, BitVec(w)) == Word(BV.LowBits(v.value, w))
    ensures ValueAs(v, BitVec(w)) == Denotes(v)
  {
  }

  lemma PairShows(sorts: Sorts, terms: Terms, id: nat, vals: seq<ModelValue>, i: Interp)
    requires ArenaOk(sorts, terms) && id < |terms| && ArgsTyped(sorts, terms, id, vals) && Fits(i)
    requires PairOnWords(terms[id].op)
    ensures OpShows(sorts, terms, id, vals, i)
  {
    hide ArenaOk, Eval, Typed, ValueAs, PairResult, NewBv, WordsFrom, BV.LowBits, BV.Pow2;
    var op := terms[id].op;
    OnWordsShape(sorts, terms, id);
    EvalOnWords(sorts, terms, id, i);
    NodeOk(sorts, terms, id);
    var w := SortOf(sorts, terms, id).width;
    WordShown(vals[0], w);
    WordShown(vals[1], w);
    PairMeans(op, vals[0].value, vals[1].value, w);
    WordShown(NewBv(PairResult(op, vals[0].value, vals[1].value, w), w), w);
  }

  lemma OneShows(sorts: Sorts, terms: Terms, id: nat, vals: seq<ModelValue>, i: Interp)
    requires ArenaOk(sorts, terms) && id < |terms| && ArgsTyped(sorts, terms, id, vals) && Fits(i)
    requires OneWord(terms[id].op)
    ensures OpShows(sorts, terms, id, vals, i)
  {
    hide ArenaOk, Eval, Typed, ValueAs, OneResult, WordFrom, BV.LowBits, BV.Pow2, WidthOf;
    var op := terms[id].op;
    NodeOk(sorts, terms, id);
    OnWordShape(sorts, terms, id);
    EvalOnWord(sorts, terms, id, i);
    var w := SortOf(sorts, terms, terms[id].args[0]).width;
    WordShown(vals[0], w);
    OneMeans(op, vals[0].value, w);
    WordShown(OneResult(op, vals[0].value, w), WidthOf(op, w));
  }

  lemma ConcatShows(sorts: Sorts, terms: Terms, id: nat, vals: seq<ModelValue>, i: Interp)
    requires ArenaOk(sorts, terms) && id < |terms| && ArgsTyped(sorts, terms, id, vals) && Fits(i)
    requires terms[id].op.BvConcat?
    ensures OpShows(sorts, terms, id, vals, i)
  {
    hide ArenaOk, Eval, Typed, ValueAs, NewBv, BV.LowBits, BV.Pow2, NB.Bitwise, CF.ShiftLeft, CF.MaskTo;
    ConcatShape(sorts, terms, id);
    EvalConcat(sorts, terms, id, i);
    NodeOk(sorts, terms, id);
    var wa, wb := SortOf(sorts, terms, terms[id].args[0]).width, SortOf(sorts, terms, terms[id].args[1]).width;
    WordShown(vals[0], wa);
    WordShown(vals[1], wb);
    var r := NB.Bitwise(NB.OrGate, CF.ShiftLeft(vals[0].value, wb), vals[1].value);
    ConcatMeans(vals[0].value, wa, vals[1].value, wb);
    NewBvTyped(r, wa + wb);
    WordShown(NewBv(r, wa + wb), wa + wb);
  }

  lemma UnsignedShows(sorts: Sorts, terms: Terms, id: nat, vals: seq<ModelValue>, i: Interp)
    requires ArenaOk(sorts, terms) && id < |terms| && ArgsTyped(sorts, terms, id, vals) && Fits(i)
    requires ComparesUnsigned(terms[id].op)
    ensures OpShows(sorts, terms, id, vals, i)
  {
    hide ArenaOk, Eval, Typed, ValueAs, BV.Pow2, WordsCompare, BV.LowBits;
    var op := terms[id].op;
    NodeOk(sorts, terms, id);
    ComparesWordsShape(sorts, terms, id);
    EvalComparesWords(sorts, terms, id, i);
    var w := SortOf(sorts, terms, terms[id].args[0]).width;
    WordShown(vals[0], w);
    WordShown(vals[1], w);
    UnsignedMeans(op, vals[0].value, vals[1].value, w);
    BoolShown(WordsCompare(op, BV.LowBits(vals[0].value, w), BV.LowBits(vals[1].value, w)));
  }

  lemma UnsignedMeans(op: Op, a: nat, b: nat, w: nat)
    requires ComparesUnsigned(op) && a < BV.Pow2(w) && b < BV.Pow2(w) && w > 0
    ensures WordsCompare(op, BV.LowBits(a, w), BV.LowBits(b, w)) ==
      if op.BvUlt? then a < b else if op.BvUle? then a <= b else if op.BvUgt? then a > b else a >= b
  {
    hide BV.Pow2, BV.Signed;
  }

  lemma ComparisonShows(sorts: Sorts, terms: Terms, id: nat, vals: seq<ModelValue>, i: Interp)
    requires ArenaOk(sorts, terms) && id < |terms| && ArgsTyped(sorts, terms, id, vals) && Fits(i)
    requires ComparesNumbers(terms[id].op)
    ensures OpShows(sorts, terms, id, vals, i)
  {
    hide ArenaOk, Eval;
    ComparesNumbersShape(sorts, terms, id);
    EvalComparesNumbers(sorts, terms, id, i);
  }

  lemma NumbersShow(sorts: Sorts, terms: Terms, id: nat, vals: seq<ModelValue>, i: Interp)
    requires ArenaOk(sorts, terms) && id < |terms| && ArgsTyped(sorts, terms, id, vals) && Fits(i)
    requires OnNumbers(terms[id].op)
    ensures
      var r := Combined(terms[id].op, vals, SortOf(sorts, terms, id));
      r.Some? && Shows(sorts, terms, id, r.value, |terms[id].args| == 2 && ArgsMean(sorts, terms, id, vals, i), i)
  {
    hide ArenaOk, Eval;
    NumbersShape(sorts, terms, id);
    EvalNumbers(sorts, terms, id, i);
    if |terms[id].args| == 2 {
      var ns := NumbersAt(sorts, terms, terms[id].args, i);
      PairOfNumbers(ns);
    }
  }

  lemma PairOfNumbers(ns: seq<int>)
    requires |ns| == 2
    ensures NumbersFrom(Add, ns) == ns[0] + ns[1] && NumbersFrom(Mul, ns) == ns[0] * ns[1] && NumbersFrom(Sub, ns) == ns[0] - ns[1]
  {
    assert ns[..1] == [ns[0]] && ns[1..] == [ns[1]];
    assert Total([ns[0]]) == ns[0] && Total([ns[1]]) == ns[1];
    assert Product([ns[0]]) == ns[0];
  }

  lemma ConstantShows(sorts: Sorts, terms: Terms, id: nat, i: Interp)
    requires ArenaOk(sorts, terms) && id < |terms| && Fits(i) && Constant(terms[id].op)
    ensures
      var r := Combined(terms[id].op, [], SortOf(sorts, terms, id));
      r.Some? && Shows(sorts, terms, id, r.value, true, i)
  {
    hide ArenaOk, Eval, ValueAs, Typed, ConstantValue, LeafValue;
    NodeOk(sorts, terms, id);
    EvalConstant(sorts, terms, id, i);
    ConstantShown(terms[id].op, SortOf(sorts, terms, id));
  }

  lemma ConstantShown(op: Op, s: Sort)
    requires Constant(op) && ConstantSorted(op, s)
    ensures Typed(LeafValue(op, s), s) && ValueAs(LeafValue(op, s), s) == ConstantValue(op)
  {
    hide BV.Pow2;
    if op.BvConst? { LowBitsInRange(op.value, op.width); }
  }

  // ---------- terms whose value is computed ----------

  /** Every operator in the term is computed; sums, differences and products have two arguments. */
  ghost predicate Evaluated(sorts: Sorts, terms: Terms, id: nat)
    requires Linked(sorts, terms) && id < |terms|
    decreases id
  {
    && Computes(terms[id].op) && (OnNumbers(terms[id].op) ==> |terms[id].args| == 2)
    && forall k :: 0 <= k < |terms[id].args| ==> Evaluated(sorts, terms, terms[id].args[k])
  }

  /** A function symbol has results of one sort. */
  ghost predicate OneResultSort(terms: Terms) {
    forall a, b :: 0 <= a < |terms| && 0 <= b < |terms| && terms[a].op.Apply? && terms[b].op == terms[a].op ==> terms[a].sort == terms[b].sort
  }

  ghost predicate Checkable(sorts: Sorts, terms: Terms, model: Model) {
    ArenaOk(sorts, terms) && OneResultSort(terms) && ModelTyped(sorts, terms, model)
  }

  ghost predicate Uncomputed(terms: Terms, id: nat) { id < |terms| && !Computes(terms[id].op) }

  /** A value of the sort of the term; its value in the interpretation of the model, when every operator
      is computed; the default one, when its own operator is not. */
  ghost predicate Right(sorts: Sorts, terms: Terms, model: Model, id: nat, v: ModelValue)
    requires ArenaOk(sorts, terms) && id < |terms|
  {
    && Shows(sorts, terms, id, v, Evaluated(sorts, terms, id), InterpFrom(model))
    && (Uncomputed(terms, id) ==> v == DefaultFor(SortOf(sorts, terms, id)))
  }

  lemma CheckableFacts(sorts: Sorts, terms: Terms, model: Model)
    requires Checkable(sorts, terms, model)
    ensures ArenaOk(sorts, terms) && Linked(sorts, terms)
  {
  }

  lemma DefaultShows(sorts: Sorts, terms: Terms, id: nat, i: Interp)
    requires ArenaOk(sorts, terms) && id < |terms| && Fits(i)
    ensures Shows(sorts, terms, id, DefaultFor(SortOf(sorts, terms, id)), false, i)
  {
    DefaultTyped(SortOf(sorts, terms, id));
  }

  /** An operator whose evaluated arguments decide it. */
  predicate Strict(op: Op) { !op.Var? && !op.And? && !op.Or? && !op.Ite? && !op.Apply? }

  lemma StrictShows(sorts: Sorts, terms: Terms, id: nat, vals: seq<ModelValue>, i: Interp)
    requires ArenaOk(sorts, terms) && id < |terms| && ArgsTyped(sorts, terms, id, vals) && Fits(i) && Strict(terms[id].op)
    ensures
      var r := Combined(terms[id].op, vals, SortOf(sorts, terms, id));
      && r.Some?
      && Shows(sorts, terms, id, r.value,
               Computes(terms[id].op) && (OnNumbers(terms[id].op) ==> |terms[id].args| == 2) && ArgsMean(sorts, terms, id, vals, i), i)
  {
    hide ArenaOk, Eval, Combined, Shows, ArgsTyped, ArgsMean;
    var op := terms[id].op;
    if op.Not? || op.Xor? || op.Implies? {
      BoolsShow(sorts, terms, id, vals, i);
    } else if op.Eq? {
      EqShows(sorts, terms, id, vals, i);
    } else if op.Distinct? {
      DistinctShows(sorts, terms, id, vals, i);
    } else {
      OtherShows(sorts, terms, id, vals, i);
    }
  }

  lemma OtherShows(sorts: Sorts, terms: Terms, id: nat, vals: seq<ModelValue>, i: Interp)
    requires ArenaOk(sorts, terms) && id < |terms| && ArgsTyped(sorts, terms, id, vals) && Fits(i) && Strict(terms[id].op)
    requires !OnTruths(terms[id].op) && !Polymorphic(terms[id].op)
    ensures
      var r := Combined(terms[id].op, vals, SortOf(sorts, terms, id));
      && r.Some?
      && Shows(sorts, terms, id, r.value,
               Computes(terms[id].op) && (OnNumbers(terms[id].op) ==> |terms[id].args| == 2) && ArgsMean(sorts, terms, id, vals, i), i)
  {
    hide ArenaOk, Eval, Combined, Shows, ArgsTyped, ArgsMean;
    var op := terms[id].op;
    if PairOnWords(op) {
      PairShows(sorts, terms, id, vals, i);
    } else if OneWord(op) {
      OneShows(sorts, terms, id, vals, i);
    } else if op.BvConcat? {
      ConcatShows(sorts, terms, id, vals, i);
    } else if ComparesUnsigned(op) {
      UnsignedShows(sorts, terms, id, vals, i);
    } else if OnNumbers(op) {
      NumbersShow(sorts, terms, id, vals, i);
    } else if ComparesNumbers(op) {
      ComparisonShows(sorts, terms, id, vals, i);
    } else {
      LeafShows(sorts, terms, id, vals, i);
      NodeOk(sorts, terms, id);
      ShowsLess(sorts, terms, id, Combined(op, vals, SortOf(sorts, terms, id)).value, Computes(op),
                Computes(op) && ArgsMean(sorts, terms, id, vals, i), i);
    }
  }

  lemma ShowsLess(sorts: Sorts, terms: Terms, id: nat, v: ModelValue, known: bool, less: bool, i: Interp)
    requires ArenaOk(sorts, terms) && id < |terms| && Fits(i) && Shows(sorts, terms, id, v, known, i) && (less ==> known)
    ensures Shows(sorts, terms, id, v, less, i)
  {
  }

  /** Constants, and the operators that are not computed. */
  lemma LeafShows(sorts: Sorts, terms: Terms, id: nat, vals: seq<ModelValue>, i: Interp)
    requires ArenaOk(sorts, terms) && id < |terms| && ArgsTyped(sorts, terms, id, vals) && Fits(i) && Strict(terms[id].op)
    requires Constant(terms[id].op) || !Computes(terms[id].op)
    ensures
      var r := Combined(terms[id].op, vals, SortOf(sorts, terms, id));
      r.Some? && Shows(sorts, terms, id, r.value, Computes(terms[id].op), i)
  {
    hide ArenaOk, Eval, Shows;
    if Constant(terms[id].op) {
      assert vals == [];
      ConstantShows(sorts, terms, id, i);
    } else {
      DefaultShows(sorts, terms, id, i);
    }
  }

  /** The values are right for the first arguments. */
  ghost predicate ArgsRight(sorts: Sorts, terms: Terms, model: Model, args: seq<nat>, vals: seq<ModelValue>)
    requires ArenaOk(sorts, terms)
  {
    |vals| <= |args| && forall k :: 0 <= k < |vals| ==> args[k] < |terms| && Right(sorts, terms, model, args[k], vals[k])
  }

  lemma UncomputedDefault(op: Op, vals: seq<ModelValue>, s: Sort)
    ensures !Computes(op) ==> Combined(op, vals, s) == Some(DefaultFor(s))
  {
  }

  lemma StrictRight(sorts: Sorts, terms: Terms, model: Model, id: nat, vals: seq<ModelValue>)
    requires ArenaOk(sorts, terms) && id < |terms| && Strict(terms[id].op)
    requires ArgsRight(sorts, terms, model, terms[id].args, vals) && |vals| == Arity(terms[id].op, |terms[id].args|)
    ensures
      var r := Combined(terms[id].op, vals, SortOf(sorts, terms, id));
      r.Some? && Right(sorts, terms, model, id, r.value)
  {
    hide ArenaOk, Eval, Combined, InterpFrom, Computes, Typed, ValueAs;
    NodeOk(sorts, terms, id);
    UncomputedDefault(terms[id].op, vals, SortOf(sorts, terms, id));
    var i := InterpFrom(model);
    assert ArgsTyped(sorts, terms, id, vals);
    StrictShows(sorts, terms, id, vals, i);
    if Evaluated(sorts, terms, id) {
      forall k | 0 <= k < |vals| ensures ValueAs(vals[k], SortOf(sorts, terms, terms[id].args[k])) == Eval(sorts, terms, terms[id].args[k], i) {
        assert Right(sorts, terms, model, terms[id].args[k], vals[k]);
        assert Evaluated(sorts, terms, terms[id].args[k]);
      }
    }
  }

  /** A variable has its value in the model. */
  lemma VarRight(sorts: Sorts, terms: Terms, model: Model, id: nat)
    requires Checkable(sorts, terms, model) && id < |terms| && terms[id].op.Var?
    ensures
      var n := terms[id].op.name;
      Right(sorts, terms, model, id, if n in model then model[n] else DefaultFor(SortOf(sorts, terms, id)))
  {
    hide ArenaOk, Eval, Evaluated, Typed, ValueAs;
    CheckableFacts(sorts, terms, model);
    DefaultTyped(SortOf(sorts, terms, id));
    EvalVar(sorts, terms, id, InterpFrom(model));
  }

  /** The application of a function symbol has the default value. */
  lemma ApplyRight(sorts: Sorts, terms: Terms, model: Model, id: nat)
    requires ArenaOk(sorts, terms) && id < |terms| && terms[id].op.Apply?
    ensures Right(sorts, terms, model, id, DefaultFor(SortOf(sorts, terms, id)))
  {
    hide ArenaOk, Eval, Evaluated, Typed, ValueAs;
    NodeOk(sorts, terms, id);
    DefaultTyped(SortOf(sorts, terms, id));
    EvalIs(sorts, terms, id, InterpFrom(model));
  }

  lemma RightDefault(sorts: Sorts, terms: Terms, model: Model, id: nat, v: ModelValue)
    requires ArenaOk(sorts, terms) && id < |terms| && Right(sorts, terms, model, id, v)
    ensures Linked(sorts, terms)
    ensures Uncomputed(terms, id) && SortOf(sorts, terms, id) == Sort.Bool ==> v == BoolValue(false)
  {
    hide TermSorted;
  }

  lemma RightBool(sorts: Sorts, terms: Terms, model: Model, id: nat, v: ModelValue)
    requires ArenaOk(sorts, terms) && id < |terms| && Right(sorts, terms, model, id, v) && SortOf(sorts, terms, id) == Sort.Bool
    ensures v.BoolValue?
    ensures Evaluated(sorts, terms, id) ==> (v.b <==> IsTrue(sorts, terms, id, InterpFrom(model)))
  {
    hide ArenaOk, Eval, Evaluated, InterpFrom;
  }

  lemma BoolRight(sorts: Sorts, terms: Terms, model: Model, id: nat, b: bool)
    requires ArenaOk(sorts, terms) && id < |terms| && SortOf(sorts, terms, id) == Sort.Bool
    requires Computes(terms[id].op) && (Evaluated(sorts, terms, id) ==> (b <==> IsTrue(sorts, terms, id, InterpFrom(model))))
    ensures Right(sorts, terms, model, id, BoolValue(b))
  {
    hide ArenaOk, Eval, Evaluated, InterpFrom;
    TruthValue(sorts, terms, id, InterpFrom(model));
  }

  /** The shape of a conjunction or disjunction. */
  lemma JunctionShape(sorts: Sorts, terms: Terms, id: nat)
    requires ArenaOk(sorts, terms) && id < |terms| && (terms[id].op.And? || terms[id].op.Or?)
    ensures SortOf(sorts, terms, id) == Sort.Bool
    ensures forall k :: 0 <= k < |terms[id].args| ==> terms[id].args[k] < id && SortOf(sorts, terms, terms[id].args[k]) == Sort.Bool
    ensures Evaluated(sorts, terms, id) ==> forall k :: 0 <= k < |terms[id].args| ==> Evaluated(sorts, terms, terms[id].args[k])
  {
    hide ArenaOk;
    NodeOk(sorts, terms, id);
    TruthsShape(sorts, terms, id);
  }

  /** The value of a conjunction or disjunction whose arguments before `k` do not decide it, and the one
      at `k` does, if there is one. */
  lemma JunctionRight(sorts: Sorts, terms: Terms, model: Model, id: nat, k: nat)
    requires ArenaOk(sorts, terms) && id < |terms| && (terms[id].op.And? || terms[id].op.Or?) && k <= |terms[id].args|
    requires forall j :: 0 <= j < |terms[id].args| ==> terms[id].args[j] < |terms|
    requires Evaluated(sorts, terms, id) ==>
      forall j :: 0 <= j < k ==> (IsTrue(sorts, terms, terms[id].args[j], InterpFrom(model)) <==> terms[id].op.And?)
    requires Evaluated(sorts, terms, id) && k < |terms[id].args| ==>
      (IsTrue(sorts, terms, terms[id].args[k], InterpFrom(model)) <==> terms[id].op.Or?)
    ensures Right(sorts, terms, model, id, BoolValue(terms[id].op.And? <==> k == |terms[id].args|))
  {
    hide ArenaOk, Eval, Evaluated, InterpFrom, IsTrue;
    JunctionShape(sorts, terms, id);
    EvalTruths(sorts, terms, id, InterpFrom(model));
    BoolRight(sorts, terms, model, id, terms[id].op.And? <==> k == |terms[id].args|);
  }

  lemma IteShape(sorts: Sorts, terms: Terms, id: nat)
    requires ArenaOk(sorts, terms) && id < |terms| && terms[id].op.Ite?
    ensures
      var args := terms[id].args;
      && |args| == 3 && args[0] < id && args[1] < id && args[2] < id && SortOf(sorts, terms, args[0]) == Sort.Bool
      && SortOf(sorts, terms, args[1]) == SortOf(sorts, terms, id) == SortOf(sorts, terms, args[2])
      && (Evaluated(sorts, terms, id) ==>
           Evaluated(sorts, terms, args[0]) && Evaluated(sorts, terms, args[1]) && Evaluated(sorts, terms, args[2]))
  {
    hide ArenaOk;
    NodeOk(sorts, terms, id);
    PolymorphicShape(sorts, terms, id);
  }

  lemma IteRight(sorts: Sorts, terms: Terms, model: Model, id: nat, c: ModelValue, v: ModelValue)
    requires ArenaOk(sorts, terms) && id < |terms| && terms[id].op.Ite? && |terms[id].args| == 3
    requires terms[id].args[0] < |terms| && terms[id].args[1] < |terms| && terms[id].args[2] < |terms|
    requires Right(sorts, terms, model, terms[id].args[0], c) && c.BoolValue?
    requires Right(sorts, terms, model, terms[id].args[if c.b then 1 else 2], v)
    ensures Right(sorts, terms, model, id, v)
  {
    hide ArenaOk, Eval, Evaluated, InterpFrom, Typed, ValueAs;
    IteShape(sorts, terms, id);
    EvalPolymorphic(sorts, terms, id, InterpFrom(model));
    RightBool(sorts, terms, model, terms[id].args[0], c);
  }

  // ---------- the value of a term, without the memory ----------

  /** The value by the rules of the evaluator: junctions and conditionals look at no more arguments
      than they need, a function symbol and an operator that is not computed have the default value.
      None where an operator finds too few arguments or values of the wrong kind. */
  ghost function Computed(sorts: Sorts, terms: Terms, model: Model, id: nat): Option<ModelValue>
    requires Linked(sorts, terms) && id < |terms|
    decreases id, 1
  {
    var op, args, s := terms[id].op, terms[id].args, SortOf(sorts, terms, id);
    if op.Var? then Some(if op.name in model then model[op.name] else DefaultFor(s))
    else if op.And? || op.Or? then ComputedFrom(sorts, terms, model, id, 0)
    else if op.Ite? then
      if |args| < 3 then None
      else
        var c := Computed(sorts, terms, model, args[0]);
        if c.None? || !c.value.BoolValue? then None else Computed(sorts, terms, model, args[if c.value.b then 1 else 2])
    else if Arity(op, |args|) > |args| then None
    else
      var vals := ComputedArgs(sorts, terms, model, id, Arity(op, |args|));
      if vals.None? then None else if op.Apply? then Some(DefaultFor(s)) else Combined(op, vals.value, s)
  }

  /** A junction whose arguments before `k` have not decided it. */
  ghost function ComputedFrom(sorts: Sorts, terms: Terms, model: Model, id: nat, k: nat): Option<ModelValue>
    requires Linked(sorts, terms) && id < |terms| && k <= |terms[id].args|
    decreases id, 0, |terms[id].args| - k
  {
    var args, or := terms[id].args, terms[id].op.Or?;
    if k == |args| then Some(BoolValue(!or))
    else
      var v := Computed(sorts, terms, model, args[k]);
      if v.None? then None else if (v.value == BoolValue(true)) == or then Some(BoolValue(or)) else ComputedFrom(sorts, terms, model, id, k + 1)
  }

  /** The values of the first `n` arguments, if each has one. */
  ghost function ComputedArgs(sorts: Sorts, terms: Terms, model: Model, id: nat, n: nat): (r: Option<seq<ModelValue>>)
    requires Linked(sorts, terms) && id < |terms| && n <= |terms[id].args|
    ensures r.Some? ==> |r.value| == n
    decreases id, 0, n
  {
    if n == 0 then Some([])
    else
      var vals := ComputedArgs(sorts, terms, model, id, n - 1);
      var v := Computed(sorts, terms, model, terms[id].args[n - 1]);
      if vals.None? || v.None? then None else Some(vals.value + [v.value])
  }

  /** That value has the sort of the term, and is the meaning of the term under the interpretation of the
      model when every operator in it is computed. */
  lemma {:induction false} ComputedRight(sorts: Sorts, terms: Terms, model: Model, id: nat)
    requires Checkable(sorts, terms, model) && id < |terms| && Linked(sorts, terms)
    ensures Computed(sorts, terms, model, id).Some? ==> Right(sorts, terms, model, id, Computed(sorts, terms, model, id).value)
    ensures Evaluated(sorts, terms, id) ==> Computed(sorts, terms, model, id).Some?
    decreases id, 1
  {
    hide Evaluated, Right, ArenaOk, ModelTyped, OneResultSort, Combined, DefaultFor, Checkable, ComputedFrom, ComputedArgs, Arity;
    CheckableFacts(sorts, terms, model);
    var op, args := terms[id].op, terms[id].args;
    if op.Var? {
      VarRight(sorts, terms, model, id);
    } else if op.And? || op.Or? {
      JunctionFromRight(sorts, terms, model, id, 0);
    } else if op.Ite? {
      IteShape(sorts, terms, id);
      ComputedRight(sorts, terms, model, args[0]);
      var c := Computed(sorts, terms, model, args[0]);
      if c.Some? {
        RightBool(sorts, terms, model, args[0], c.value);
        var t := args[if c.value.b then 1 else 2];
        ComputedRight(sorts, terms, model, t);
        if Computed(sorts, terms, model, t).Some? { IteRight(sorts, terms, model, id, c.value, Computed(sorts, terms, model, t).value); }
      }
    } else {
      ArityFits(sorts, terms, id);
      if Arity(op, |args|) <= |args| { StrictComputed(sorts, terms, model, id); }
    }
  }

  lemma StrictComputed(sorts: Sorts, terms: Terms, model: Model, id: nat)
    requires Checkable(sorts, terms, model) && id < |terms| && Linked(sorts, terms) && (Strict(terms[id].op) || terms[id].op.Apply?)
    requires Arity(terms[id].op, |terms[id].args|) <= |terms[id].args|
    ensures Computed(sorts, terms, model, id).Some? ==> Right(sorts, terms, model, id, Computed(sorts, terms, model, id).value)
    ensures Evaluated(sorts, terms, id) ==> Computed(sorts, terms, model, id).Some?
    decreases id, 0, |terms[id].args| + 1
  {
    hide Evaluated, Right, ArenaOk, ModelTyped, OneResultSort, Combined, DefaultFor, ComputedFrom, ComputedArgs, Arity;
    var op, args := terms[id].op, terms[id].args;
    ArityFits(sorts, terms, id);
    var n := Arity(op, |args|);
    ArgsComputed(sorts, terms, model, id, n);
    var vals := ComputedArgs(sorts, terms, model, id, n);
    if vals.Some? {
      if op.Apply? { ApplyRight(sorts, terms, model, id); } else { StrictRight(sorts, terms, model, id, vals.value); }
    }
  }

  lemma ArgsComputed(sorts: Sorts, terms: Terms, model: Model, id: nat, n: nat)
    requires Checkable(sorts, terms, model) && id < |terms| && Linked(sorts, terms) && n <= |terms[id].args|
    ensures ComputedArgs(sorts, terms, model, id, n).Some? ==>
      ArgsRight(sorts, terms, model, terms[id].args, ComputedArgs(sorts, terms, model, id, n).value)
    ensures Evaluated(sorts, terms, id) ==> ComputedArgs(sorts, terms, model, id, n).Some?
    decreases id, 0, n
  {
    hide Evaluated, Right, ArenaOk, ModelTyped, OneResultSort, Computed;
    ArityFits(sorts, terms, id);
    if n > 0 {
      ArgsComputed(sorts, terms, model, id, n - 1);
      ComputedRight(sorts, terms, model, terms[id].args[n - 1]);
    }
  }

  lemma JunctionFromRight(sorts: Sorts, terms: Terms, model: Model, id: nat, k: nat)
    requires Checkable(sorts, terms, model) && id < |terms| && Linked(sorts, terms) && k <= |terms[id].args|
    requires terms[id].op.And? || terms[id].op.Or?
    requires forall j :: 0 <= j < |terms[id].args| ==> terms[id].args[j] < |terms|
    requires Evaluated(sorts, terms, id) ==>
      forall j :: 0 <= j < k ==> (IsTrue(sorts, terms, terms[id].args[j], InterpFrom(model)) <==> terms[id].op.And?)
    ensures ComputedFrom(sorts, terms, model, id, k).Some? ==> Right(sorts, terms, model, id, ComputedFrom(sorts, terms, model, id, k).value)
    ensures Evaluated(sorts, terms, id) ==> ComputedFrom(sorts, terms, model, id, k).Some?
    decreases id, 0, |terms[id].args| - k
  {
    hide Evaluated, Right, ArenaOk, ModelTyped, OneResultSort, IsTrue, InterpFrom, Computed;
    JunctionShape(sorts, terms, id);
    var args, or := terms[id].args, terms[id].op.Or?;
    if k == |args| {
      JunctionRight(sorts, terms, model, id, k);
    } else {
      ComputedRight(sorts, terms, model, args[k]);
      var v := Computed(sorts, terms, model, args[k]);
      if v.Some? {
        RightBool(sorts, terms, model, args[k], v.value);
        if (v.value == BoolValue(true)) == or {
          JunctionRight(sorts, terms, model, id, k);
        } else {
          JunctionFromRight(sorts, terms, model, id, k + 1);
        }
      }
    }
  }

  /** Every one of the terms evaluates to true. */
  ghost predicate AllComputedTrue(sorts: Sorts, terms: Terms, model: Model, ids: seq<nat>)
    requires Linked(sorts, terms)
  {
    forall k :: 0 <= k < |ids| ==> ids[k] < |terms| && Computed(sorts, terms, model, ids[k]) == Some(BoolValue(true))
  }

  /** A term of computed operators evaluates to true exactly when it is; one whose own operator is not
      computed never does. */
  lemma ComputedTruth(sorts: Sorts, terms: Terms, model: Model, id: nat)
    requires Checkable(sorts, terms, model) && id < |terms| && Linked(sorts, terms) && SortOf(sorts, terms, id) == Sort.Bool
    ensures Evaluated(sorts, terms, id) ==>
      (Computed(sorts, terms, model, id) == Some(BoolValue(true)) <==> IsTrue(sorts, terms, id, InterpFrom(model)))
    ensures Uncomputed(terms, id) ==> Computed(sorts, terms, model, id) != Some(BoolValue(true))
  {
    hide Evaluated, Right, ModelTyped, OneResultSort, ArenaOk, IsTrue, InterpFrom, Uncomputed, Computed;
    ComputedRight(sorts, terms, model, id);
    var v := Computed(sorts, terms, model, id);
    if v.Some? {
      RightBool(sorts, terms, model, id, v.value);
      RightDefault(sorts, terms, model, id, v.value);
    }
  }

  lemma {:induction false} ComputedStable(sorts: Sorts, terms: Terms, sorts': Sorts, terms': Terms, model: Model, id: nat)
    requires Linked(sorts, terms) && Linked(sorts', terms') && sorts <= sorts' && terms <= terms' && id < |terms|
    ensures Computed(sorts', terms', model, id) == Computed(sorts, terms, model, id)
    decreases id, 1
  {
    hide Combined, Arity, DefaultFor, ComputedFrom, ComputedArgs;
    assert terms'[id] == terms[id] && SortOf(sorts', terms', id) == SortOf(sorts, terms, id);
    var op, args := terms[id].op, terms[id].args;
    if op.Var? {
    } else if op.And? || op.Or? {
      JunctionStable(sorts, terms, sorts', terms', model, id, 0);
    } else if op.Ite? {
      if |args| >= 3 {
        ComputedStable(sorts, terms, sorts', terms', model, args[0]);
        ComputedStable(sorts, terms, sorts', terms', model, args[1]);
        ComputedStable(sorts, terms, sorts', terms', model, args[2]);
      }
    } else if Arity(op, |args|) <= |args| {
      ArgsStableIn(sorts, terms, sorts', terms', model, id, Arity(op, |args|));
    }
  }

  lemma JunctionStable(sorts: Sorts, terms: Terms, sorts': Sorts, terms': Terms, model: Model, id: nat, k: nat)
    requires Linked(sorts, terms) && Linked(sorts', terms') && sorts <= sorts' && terms <= terms' && id < |terms| && k <= |terms[id].args|
    ensures terms'[id] == terms[id] && ComputedFrom(sorts', terms', model, id, k) == ComputedFrom(sorts, terms, model, id, k)
    decreases id, 0, |terms[id].args| - k
  {
    hide Computed;
    assert terms'[id] == terms[id];
    if k < |terms[id].args| {
      ComputedStable(sorts, terms, sorts', terms', model, terms[id].args[k]);
      JunctionStable(sorts, terms, sorts', terms', model, id, k + 1);
    }
  }

  lemma ArgsStableIn(sorts: Sorts, terms: Terms, sorts': Sorts, terms': Terms, model: Model, id: nat, n: nat)
    requires Linked(sorts, terms) && Linked(sorts', terms') && sorts <= sorts' && terms <= terms' && id < |terms| && n <= |terms[id].args|
    ensures terms'[id] == terms[id] && ComputedArgs(sorts', terms', model, id, n) == ComputedArgs(sorts, terms, model, id, n)
    decreases id, 0, n
  {
    hide Computed;
    assert terms'[id] == terms[id];
    if n > 0 {
      ComputedStable(sorts, terms, sorts', terms', model, terms[id].args[n - 1]);
      ArgsStableIn(sorts, terms, sorts', terms', model, id, n - 1);
    }
  }

  class ModelValidator {
    var memo: map<nat, ModelValue>
    var fnTable: map<(seq<byte>, seq<ModelValue>), ModelValue>

    constructor ()
      ensures memo == map[] && fnTable == map[]
    {
      memo, fnTable := map[], map[];
    }

    ghost predicate Memoized(sorts: Sorts, terms: Terms, model: Model)
      requires Linked(sorts, terms)
      reads this
    {
      && (forall id :: id in memo ==> id < |terms| && Computed(sorts, terms, model, id) == Some(memo[id]))
      && (forall id, key :: 0 <= id < |terms| && key in fnTable && terms[id].op == Op.Apply(key.0) ==>
           fnTable[key] == DefaultFor(SortOf(sorts, terms, id)))
    }

    /** The value of a term, remembered. */
    method Evaluate(id: nat, model: Model, sorts: Sorts, terms: Terms) returns (r: Option<ModelValue>)
      requires Checkable(sorts, terms, model) && Linked(sorts, terms) && id < |terms| && Memoized(sorts, terms, model)
      modifies this
      ensures Memoized(sorts, terms, model) && r == Computed(sorts, terms, model, id)
      decreases id, 2
    {
      hide ArenaOk, ModelTyped, OneResultSort, ComputedFrom, ComputedArgs;
      if id in memo { return Some(memo[id]); }
      var op := terms[id].op;
      if op.Var? {
        r := Some(if op.name in model then model[op.name] else DefaultFor(SortOf(sorts, terms, id)));
      } else if op.And? || op.Or? {
        r := EvaluateJunction(id, model, sorts, terms);
      } else if op.Ite? {
        r := EvaluateIte(id, model, sorts, terms);
      } else {
        r := EvaluateStrict(id, model, sorts, terms);
      }
      if r.Some? { memo := memo[id := r.value]; }
    }

    /** Evaluates arguments until one decides. */
    method EvaluateJunction(id: nat, model: Model, sorts: Sorts, terms: Terms) returns (r: Option<ModelValue>)
      requires Checkable(sorts, terms, model) && Linked(sorts, terms) && id < |terms| && Memoized(sorts, terms, model)
      requires terms[id].op.And? || terms[id].op.Or?
      modifies this
      ensures Memoized(sorts, terms, model) && r == ComputedFrom(sorts, terms, model, id, 0)
      decreases id, 1
    {
      hide ModelTyped, OneResultSort, ArenaOk, Checkable, Computed;
      var args, or := terms[id].args, terms[id].op.Or?;
      for k := 0 to |args|
        invariant Memoized(sorts, terms, model)
        invariant ComputedFrom(sorts, terms, model, id, 0) == ComputedFrom(sorts, terms, model, id, k)
      {
        var v := Evaluate(args[k], model, sorts, terms);
        if v.None? { return None; }
        if (v.value == BoolValue(true)) == or { return Some(BoolValue(or)); }
      }
      return Some(BoolValue(!or));
    }

    method EvaluateIte(id: nat, model: Model, sorts: Sorts, terms: Terms) returns (r: Option<ModelValue>)
      requires Checkable(sorts, terms, model) && Linked(sorts, terms) && id < |terms| && Memoized(sorts, terms, model)
      requires terms[id].op.Ite?
      modifies this
      ensures Memoized(sorts, terms, model) && r == Computed(sorts, terms, model, id)
      decreases id, 1
    {
      hide ModelTyped, OneResultSort, ArenaOk, ComputedFrom, ComputedArgs;
      IteShape(sorts, terms, id);
      var args := terms[id].args;
      var c := Evaluate(args[0], model, sorts, terms);
      if c.None? || !c.value.BoolValue? { return None; }
      r := Evaluate(args[if c.value.b then 1 else 2], model, sorts, terms);
    }

    /** Whether every assertion evaluates to true; it fails at the first that does not. */
    method Validate(assertions: seq<nat>, model: Model, sorts: Sorts, terms: Terms) returns (ok: bool)
      requires Checkable(sorts, terms, model) && Linked(sorts, terms)
      requires forall k :: 0 <= k < |assertions| ==> assertions[k] < |terms|
      modifies this
      ensures ok <==> forall k :: 0 <= k < |assertions| ==> Computed(sorts, terms, model, assertions[k]) == Some(BoolValue(true))
    {
      hide ModelTyped, OneResultSort, ArenaOk, Checkable, Computed;
      memo, fnTable := map[], map[];
      for k := 0 to |assertions|
        invariant Memoized(sorts, terms, model)
        invariant forall j :: 0 <= j < k ==> Computed(sorts, terms, model, assertions[j]) == Some(BoolValue(true))
      {
        var v := Evaluate(assertions[k], model, sorts, terms);
        if v != Some(BoolValue(true)) { return false; }
      }
      return true;
    }

    /** The value that the table has for the function symbol and the arguments, the default at first. */
    method Lookup(id: nat, vals: seq<ModelValue>, sorts: Sorts, terms: Terms, ghost model: Model) returns (v: ModelValue)
      requires OneResultSort(terms) && Linked(sorts, terms) && id < |terms| && Memoized(sorts, terms, model) && terms[id].op.Apply?
      modifies this`fnTable
      ensures Memoized(sorts, terms, model) && v == DefaultFor(SortOf(sorts, terms, id))
    {
      hide Computed;
      var key := (terms[id].op.name, vals);
      if key in fnTable { return fnTable[key]; }
      v := DefaultFor(SortOf(sorts, terms, id));
      fnTable := fnTable[key := v];
    }

    /** Evaluates the arguments and applies the operator. */
    method EvaluateStrict(id: nat, model: Model, sorts: Sorts, terms: Terms) returns (r: Option<ModelValue>)
      requires Checkable(sorts, terms, model) && Linked(sorts, terms) && id < |terms| && Memoized(sorts, terms, model)
      requires Strict(terms[id].op) || terms[id].op.Apply?
      modifies this
      ensures Memoized(sorts, terms, model) && r == Computed(sorts, terms, model, id)
      decreases id, 1
    {
      hide ModelTyped, ArenaOk, Combined, Arity, ComputedFrom, OneResultSort;
      var args, op := terms[id].args, terms[id].op;
      if Arity(op, |args|) > |args| { return None; }
      var n := Arity(op, |args|);
      var vals: seq<ModelValue> := [];
      for k := 0 to n
        invariant Memoized(sorts, terms, model) && ComputedArgs(sorts, terms, model, id, k) == Some(vals)
      {
        var v := Evaluate(args[k], model, sorts, terms);
        if v.None? {
          MissingArg(sorts, terms, model, id, k, n);
          return None;
        }
        vals := vals + [v.value];
      }
      if op.Apply? {
        var v := Lookup(id, vals, sorts, terms, model);
        r := Some(v);
      } else {
        r := Combined(op, vals, SortOf(sorts, terms, id));
      }
    }
  }

  lemma {:induction false} MissingArg(sorts: Sorts, terms: Terms, model: Model, id: nat, k: nat, n: nat)
    requires Linked(sorts, terms) && id < |terms| && k < n <= |terms[id].args|
    requires Computed(sorts, terms, model, terms[id].args[k]).None?
    ensures ComputedArgs(sorts, terms, model, id, n).None?
    decreases n
  {
    hide Computed;
    if k + 1 < n { MissingArg(sorts, terms, model, id, k, n - 1); }
  }

  /** A computed operator has the arguments it needs. */
  lemma ArityFits(sorts: Sorts, terms: Terms, id: nat)
    requires ArenaOk(sorts, terms) && id < |terms|
    ensures Linked(sorts, terms)
    ensures Evaluated(sorts, terms, id) ==> Arity(terms[id].op, |terms[id].args|) <= |terms[id].args|
    ensures Evaluated(sorts, terms, id) ==> forall k :: 0 <= k < |terms[id].args| ==> Evaluated(sorts, terms, terms[id].args[k])
    ensures forall k :: 0 <= k < |terms[id].args| ==> terms[id].args[k] < id
  {
    hide ArenaOk;
    NodeOk(sorts, terms, id);
  }
}
