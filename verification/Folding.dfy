/** Recursive constant folding of Boolean, bit-vector and integer terms. */
module ConstantFolding {
  import opened Lits
  import opened BinaryFormat
  import opened Arenas
  import opened TermSemantics
  import opened TermBuilder
  import BV = BitVectors
  import NB = NaturalBits

  // ---------- folding the constants of one operator ----------

  const USIZE_LIMIT: nat := 0x1_0000_0000_0000_0000

  /** A shift amount as a machine word, or the width if it does not fit one. */
  function ShiftAmount(v: nat, w: nat): nat { if v < USIZE_LIMIT then v else w }

  function MaskTo(v: nat, w: nat): nat { NB.Bitwise(NB.AndGate, v, NB.Mask(w)) }

  function ShiftRight(v: nat, k: nat): (r: nat)
    ensures r <= v
  {
    BV.QuotientBelow(v, BV.Pow2(k));
    v / BV.Pow2(k)
  }

  function ShiftLeft(v: nat, k: nat): nat { v * BV.Pow2(k) }

  function Quotient(x: nat, y: nat): (r: nat)
    requires y > 0
    ensures r <= x
  {
    BV.QuotientBelow(x, y);
    x / y
  }

  function FoldAshr(v1: nat, v2: nat, w: nat): nat
    requires w > 0
  {
    var shift := ShiftAmount(v2, w);
    var isNeg := NB.Bitwise(NB.AndGate, ShiftRight(v1, w - 1), 1) == 1;
    if shift >= w then (if isNeg then NB.Mask(w) else 0)
    else
      var r := MaskTo(ShiftRight(v1, shift), w);
      if isNeg then MaskTo(NB.Bitwise(NB.OrGate, r, ShiftLeft(BV.Pow2(shift) - 1, w - shift)), w) else r
  }

  function FoldShl(v1: nat, v2: nat, w: nat): nat {
    if ShiftAmount(v2, w) >= w then 0 else MaskTo(ShiftLeft(v1, ShiftAmount(v2, w)), w)
  }

  function FoldLshr(v1: nat, v2: nat, w: nat): nat {
    if ShiftAmount(v2, w) >= w then 0 else MaskTo(ShiftRight(v1, ShiftAmount(v2, w)), w)
  }

  function FoldSub(v1: nat, v2: nat, w: nat): nat { MaskTo(Minus(v1 + BV.Pow2(w), MaskTo(v2, w)), w) }

  /** Subtraction of a number that is not larger. */
  function Minus(x: nat, y: nat): nat { if y <= x then x - y else 0 }

  /** Division by zero gives all ones. */
  function FoldUdiv(v1: nat, v2: nat, w: nat): nat { if v2 == 0 then NB.Mask(w) else MaskTo(Quotient(v1, v2), w) }

  function FoldUrem(v1: nat, v2: nat, w: nat): nat { if v2 == 0 then v1 else MaskTo(v1 % v2, w) }

  /** The constant that an operator on two constants of width `w` folds to. */
  function FoldWords(op: Op, v1: nat, v2: nat, w: nat): Option<nat>
    requires w > 0
  {
    match op
    case BvAdd => Some(MaskTo(v1 + v2, w))
    case BvSub => Some(FoldSub(v1, v2, w))
    case BvMul => Some(MaskTo(v1 * v2, w))
    case BvUdiv => Some(FoldUdiv(v1, v2, w))
    case BvUrem => Some(FoldUrem(v1, v2, w))
    case BvAnd => Some(MaskTo(NB.Bitwise(NB.AndGate, v1, v2), w))
    case BvOr => Some(MaskTo(NB.Bitwise(NB.OrGate, v1, v2), w))
    case BvXor => Some(MaskTo(NB.Bitwise(NB.XorGate, v1, v2), w))
    case BvShl => Some(FoldShl(v1, v2, w))
    case BvLshr => Some(FoldLshr(v1, v2, w))
    case BvAshr => Some(FoldAshr(v1, v2, w))
    case _ => None
  }

  lemma MaskIs(v: nat, w: nat)
    ensures MaskTo(v, w) == v % BV.Pow2(w) && (v < BV.Pow2(w) ==> MaskTo(v, w) == v)
  {
    NB.Masked(v, w);
    BV.SmallMod(v, BV.Pow2(w));
  }

  lemma LowBitsMod(v: nat, w: nat)
    ensures BV.LowBits(v % BV.Pow2(w), w) == BV.LowBits(v, w)
  {
    hide BV.Pow2;
    BV.ModSplit(v, BV.Pow2(w));
    BV.SmallMod(v % BV.Pow2(w), BV.Pow2(w));
    BV.ValueInjective(BV.LowBits(v % BV.Pow2(w), w), BV.LowBits(v, w));
  }

  lemma SubFolded(v1: nat, v2: nat, w: nat)
    requires v1 < BV.Pow2(w) && v2 < BV.Pow2(w)
    ensures FoldSub(v1, v2, w) % BV.Pow2(w) == BV.BvSub(v1, v2, w)
  {
    hide BV.Pow2;
    MaskIs(v2, w);
    MaskIs(v1 + BV.Pow2(w) - v2, w);
    BV.ModPlusMultiple(v1 - v2, 1, BV.Pow2(w));
    BV.ModSplit(v1 - v2, BV.Pow2(w));
    BV.SmallMod(BV.BvSub(v1, v2, w), BV.Pow2(w));
  }

  lemma DivisionFolded(v1: nat, v2: nat, w: nat)
    requires v1 < BV.Pow2(w) && v2 < BV.Pow2(w)
    ensures FoldUdiv(v1, v2, w) == BV.BvUdiv(v1, v2, w) && FoldUrem(v1, v2, w) == BV.BvUrem(v1, v2, w)
  {
    hide BV.Pow2;
    if v2 > 0 {
      BV.QuotientBelow(v1, v2);
      BV.ModSplit(v1, v2);
      MaskIs(v1 / v2, w);
      MaskIs(v1 % v2, w);
    }
  }

  lemma Amount(v: nat, w: nat)
    requires w <= MAX_BV_WIDTH
    ensures ShiftAmount(v, w) >= w <==> v >= w
    ensures v < w ==> ShiftAmount(v, w) == v
  {
  }

  lemma ShiftsFolded(v1: nat, v2: nat, w: nat)
    requires v1 < BV.Pow2(w) && 0 < w <= MAX_BV_WIDTH
    ensures FoldShl(v1, v2, w) == BV.BvShl(v1, v2, w) && FoldLshr(v1, v2, w) == BV.BvLshr(v1, v2, w)
  {
    hide BV.Pow2;
    Amount(v2, w);
    if v2 < w {
      MaskIs(v1 * BV.Pow2(v2), w);
      BV.QuotientBelow(v1, BV.Pow2(v2));
      MaskIs(v1 / BV.Pow2(v2), w);
    }
  }

  /** The sign bit is set when the value reaches half the range. */
  lemma SignIs(v: nat, w: nat)
    requires w > 0 && v < BV.Pow2(w)
    ensures NB.Bitwise(NB.AndGate, ShiftRight(v, w - 1), 1) == 1 <==> BV.Negative(v, w)
  {
    var p := BV.Pow2(w - 1);
    assert BV.Pow2(w) == 2 * p;
    if v >= p { BV.ModUnique(v, p, 1, v - p); } else { BV.ModUnique(v, p, 0, v); }
    NB.Masked(v / p, 1);
    assert NB.Mask(1) == 1;
  }

  /** Shifting a negative value right: the quotient below, ones above. */
  lemma AshrParts(v: nat, s: nat, w: nat)
    requires v < BV.Pow2(w) && s < w
    ensures v / BV.Pow2(s) < BV.Pow2(w - s)
    ensures BV.Pow2(w) - 1 - (BV.Pow2(w) - 1 - v) / BV.Pow2(s) == (BV.Pow2(s) - 1) * BV.Pow2(w - s) + v / BV.Pow2(s)
    ensures (BV.Pow2(s) - 1) * BV.Pow2(w - s) + v / BV.Pow2(s) < BV.Pow2(w)
  {
    hide BV.Pow2;
    var p, q := BV.Pow2(s), BV.Pow2(w - s);
    BV.Pow2Add(s, w - s);
    BV.ModSplit(v, p);
    var a, b := v / p, v % p;
    QuotientSmall(a, b, p, q);
    NotQuotient(a, b, p, q, v);
  }

  lemma QuotientSmall(a: nat, b: nat, p: nat, q: nat)
    requires a * p + b < p * q && p > 0
    ensures a < q
  {
    if a >= q { BV.MulLe(q, a, p); }
  }

  lemma NotQuotient(a: nat, b: nat, p: nat, q: nat, v: nat)
    requires v == a * p + b && b < p && a < q && v < p * q
    ensures (p * q - 1 - v) / p == q - 1 - a
    ensures p * q - 1 - (q - 1 - a) == (p - 1) * q + a && (p - 1) * q + a < p * q
  {
    assert (q - 1 - a) * p == p * q - p - a * p;
    BV.ModUnique(p * q - 1 - v, p, q - 1 - a, p - 1 - b);
    assert (p - 1) * q == p * q - q;
  }

  lemma AshrShifted(v1: nat, s: nat, w: nat)
    requires v1 < BV.Pow2(w) && s < w
    ensures MaskTo(ShiftRight(v1, s), w) == ShiftRight(v1, s) == v1 / BV.Pow2(s)
    ensures MaskTo(NB.Bitwise(NB.OrGate, ShiftRight(v1, s), ShiftLeft(BV.Pow2(s) - 1, w - s)), w) ==
      BV.Pow2(w) - 1 - (BV.Pow2(w) - 1 - v1) / BV.Pow2(s)
  {
    hide BV.Pow2, MaskTo, NB.Bitwise;
    var q, hi := ShiftRight(v1, s), BV.Pow2(s) - 1;
    MaskIs(q, w);
    AshrParts(v1, s, w);
    NB.OrDisjoint(hi, q, w - s);
    NB.OrComm(ShiftLeft(hi, w - s), q);
    MaskIs(hi * BV.Pow2(w - s) + q, w);
  }

  lemma AshrFolded(v1: nat, v2: nat, w: nat)
    requires v1 < BV.Pow2(w) && 0 < w <= MAX_BV_WIDTH
    ensures FoldAshr(v1, v2, w) == BV.BvAshr(v1, v2, w)
  {
    hide BV.Pow2, MaskTo, NB.Bitwise, ShiftRight, ShiftLeft, BV.Negative;
    Amount(v2, w);
    SignIs(v1, w);
    if v2 < w {
      AshrShifted(v1, v2, w);
    }
  }

  /** The bitwise operators on constants. */
  lemma BitwiseFolded(op: Op, v1: nat, v2: nat, w: nat)
    requires w > 0 && v1 < BV.Pow2(w) && v2 < BV.Pow2(w) && (op.BvAnd? || op.BvOr? || op.BvXor?)
    ensures
      var g := if op.BvAnd? then NB.AndGate else if op.BvOr? then NB.OrGate else NB.XorGate;
      BV.LowBits(MaskTo(NB.Bitwise(g, v1, v2), w), w) == WordsFrom(op, BV.ToBits(v1, w), BV.ToBits(v2, w))
  {
    hide BV.Pow2, BV.ToBits, NB.Bitwise, BV.Value;
    var g := if op.BvAnd? then NB.AndGate else if op.BvOr? then NB.OrGate else NB.XorGate;
    var a, b := BV.ToBits(v1, w), BV.ToBits(v2, w);
    var r := WordsFrom(op, a, b);
    NB.BitwiseValue(g, a, b, r);
    MaskIs(BV.Value(r), w);
    BV.LowBitsOfValue(r, BV.Value(r));
  }

  lemma SumsFolded(op: Op, v1: nat, v2: nat, w: nat)
    requires (op.BvAdd? || op.BvSub? || op.BvMul?) && 0 < w <= MAX_BV_WIDTH && v1 < BV.Pow2(w) && v2 < BV.Pow2(w)
    ensures FoldWords(op, v1, v2, w).Some?
    ensures BV.LowBits(FoldWords(op, v1, v2, w).value, w) == WordsFrom(op, BV.ToBits(v1, w), BV.ToBits(v2, w))
  {
    hide BV.Pow2, BV.ToBits, NB.Bitwise, BV.Value, BV.LowBits;
    if op.BvAdd? {
      MaskIs(v1 + v2, w);
      LowBitsMod(v1 + v2, w);
    } else if op.BvSub? {
      SubFolded(v1, v2, w);
      LowBitsMod(FoldSub(v1, v2, w), w);
    } else {
      MaskIs(v1 * v2, w);
      LowBitsMod(v1 * v2, w);
    }
  }

  /** Folding two constants gives the constant that the operator means. */
  lemma WordsFolded(op: Op, v1: nat, v2: nat, w: nat)
    requires OnWords(op) && 0 < w <= MAX_BV_WIDTH && v1 < BV.Pow2(w) && v2 < BV.Pow2(w) && FoldWords(op, v1, v2, w).Some?
    ensures BV.LowBits(FoldWords(op, v1, v2, w).value, w) == WordsFrom(op, BV.ToBits(v1, w), BV.ToBits(v2, w))
  {
    hide BV.Pow2, BV.ToBits, NB.Bitwise, BV.Value, BV.LowBits, BV.BvUdiv, BV.BvUrem, BV.BvShl, BV.BvLshr, BV.BvAshr, FoldAshr,
      FoldShl, FoldLshr, FoldUdiv, FoldUrem;
    if op.BvAnd? || op.BvOr? || op.BvXor? {
      BitwiseFolded(op, v1, v2, w);
    } else if op.BvAdd? || op.BvSub? || op.BvMul? {
      SumsFolded(op, v1, v2, w);
    } else if op.BvUdiv? || op.BvUrem? {
      DivisionFolded(v1, v2, w);
    } else if op.BvAshr? {
      AshrFolded(v1, v2, w);
    } else {
      ShiftsFolded(v1, v2, w);
    }
  }

  lemma NotFolded(v: nat, w: nat)
    requires v < BV.Pow2(w)
    ensures BV.LowBits(NB.Bitwise(NB.XorGate, NB.Mask(w), v), w) == BV.NotBits(BV.ToBits(v, w))
  {
    hide BV.Pow2, BV.ToBits, NB.Bitwise, BV.Value;
    var ones := BV.Fill(w, true);
    BV.ValueAllTrue(ones);
    var r := BV.NotBits(BV.ToBits(v, w));
    NB.BitwiseValue(NB.XorGate, ones, BV.ToBits(v, w), r);
    BV.LowBitsOfValue(r, BV.Value(r));
  }

  lemma ExtractFolded(v: nat, w: nat, high: nat, low: nat)
    requires v < BV.Pow2(w) && low <= high < w
    ensures BV.LowBits(MaskTo(ShiftRight(v, low), high - low + 1), high - low + 1) == BV.ToBits(v, w)[low..high + 1]
  {
    hide BV.Pow2, BV.ToBits, BV.Value, ShiftRight, MaskTo;
    var bits, n := BV.ToBits(v, w), high - low + 1;
    var rest, mid := bits[low..], bits[low..high + 1];
    assert bits == bits[..low] + rest && rest == mid + bits[high + 1..];
    BV.ValueSplit(bits[..low], rest);
    BV.ValueSplit(mid, bits[high + 1..]);
    ShiftIs(v, low, BV.Value(rest), BV.Value(bits[..low]));
    MaskIs(BV.Value(rest), n);
    BV.QuotientOf(BV.Value(rest), BV.Pow2(n), BV.Value(bits[high + 1..]), BV.Value(mid));
    BV.LowBitsOfValue(mid, BV.Value(mid));
  }

  lemma ShiftIs(v: nat, k: nat, hi: nat, lo: nat)
    requires lo < BV.Pow2(k) && v == lo + BV.Pow2(k) * hi
    ensures ShiftRight(v, k) == hi
  {
    hide BV.Pow2;
    BV.QuotientOf(v, BV.Pow2(k), hi, lo);
  }

  lemma ConcatValue(v1: nat, w1: nat, v2: nat, w2: nat)
    requires v1 < BV.Pow2(w1) && v2 < BV.Pow2(w2)
    ensures BV.Value(BV.ToBits(v2, w2) + BV.ToBits(v1, w1)) == NB.Bitwise(NB.OrGate, ShiftLeft(v1, w2), v2)
  {
    hide BV.Pow2, BV.ToBits, BV.Value, NB.Bitwise;
    BV.ValueSplit(BV.ToBits(v2, w2), BV.ToBits(v1, w1));
    NB.OrDisjoint(v1, v2, w2);
    Commute(v1, BV.Pow2(w2));
  }

  lemma ConcatFolded(v1: nat, w1: nat, v2: nat, w2: nat)
    requires v1 < BV.Pow2(w1) && v2 < BV.Pow2(w2)
    ensures BV.LowBits(MaskTo(NB.Bitwise(NB.OrGate, ShiftLeft(v1, w2), v2), w1 + w2), w1 + w2) == BV.ToBits(v2, w2) + BV.ToBits(v1, w1)
  {
    hide *;
    var r := BV.ToBits(v2, w2) + BV.ToBits(v1, w1);
    ConcatValue(v1, w1, v2, w2);
    MaskIs(BV.Value(r), w1 + w2);
    BV.LowBitsOfValue(r, BV.Value(r));
  }

  lemma Commute(x: int, y: int)
    ensures x * y == y * x
  {
  }

  // ---------- constants among the terms ----------

  /** The value and the width of a bit-vector constant. */
  function AsBvConst(terms: Terms, id: nat): Option<(nat, nat)>
    requires id < |terms|
  {
    match terms[id].op
    case BvConst(w, v) => Some((v, w))
    case _ => None
  }

  // ---------- truth-valued nodes ----------

  lemma NotNot(sorts: Sorts, terms: Terms, node: TermData)
    requires Buildable(sorts, terms) && Fitting(sorts, terms, node) && node.op.Not? && |node.args| == 1 && terms[node.args[0]].op.Not?
    ensures |terms[node.args[0]].args| == 1 && Stands(sorts, terms, node, sorts, terms, terms[node.args[0]].args[0])
  {
    hide ArenaOk, Eval, IsTrue, Signatures, HashConsed, NodeValue, NodeTrue, Based, Fitting, Stands;
    BuildableFacts(sorts, terms);
    FittingArgs(sorts, terms, node);
    var a := node.args[0];
    TruthsShape(sorts, terms, a);
    var b := terms[a].args[0];
    forall i: Interp | Fits(i) ensures NodeTrue(sorts, terms, node, i) <==> IsTrue(sorts, terms, b, i) {
      NodeTruths(sorts, terms, node, i);
      EvalTruths(sorts, terms, a, i);
    }
    AliasStands(sorts, terms, node, b);
  }

  /** The arguments are the terms true and false. */
  predicate AllTruthConst(args: seq<nat>) { forall k :: 0 <= k < |args| ==> args[k] <= 1 }

  method FoldNot(sorts: SortArena, terms: TermArena, node: TermData) returns (r: Option<nat>)
    requires Open(sorts, terms) && Fitting(sorts.sorts, terms.terms, node) && node.op.Not?
    ensures r.Some? ==> Stands(sorts.sorts, terms.terms, node, sorts.sorts, terms.terms, r.value)
    ensures AllTruthConst(node.args) ==> r.Some? && r.value <= 1
    ensures InertNode(terms.terms, node) ==> r.None?
  {
    hide SortArena.Valid, TermArena.Valid, Signatures, HashConsed, ArenaOk, Stands, Fitting, NodeTrue, IsTrue;
    TruthArgs(sorts.sorts, terms.terms, node);
    BuildableFacts(sorts.sorts, terms.terms);
    var arg := node.args[0];
    if arg <= 1 {
      forall i: Interp | Fits(i) ensures NodeTrue(sorts.sorts, terms.terms, node, i) <==> arg == 1 {
        NodeTruths(sorts.sorts, terms.terms, node, i);
        BaseValues(sorts.sorts, terms.terms, i);
      }
      KnownStands(sorts.sorts, terms.terms, node, arg == 1);
      return Some(if arg == 0 then 1 else 0);
    }
    if terms.terms[arg].op.Not? {
      NotNot(sorts.sorts, terms.terms, node);
      return Some(terms.terms[arg].args[0]);
    }
    r := None;
  }

  /** Truth values none of which decides the connective are all neutral. */
  lemma NothingLeft(op: Op, args: seq<nat>)
    requires op.And? || op.Or?
    ensures AllTruthConst(args) && Absorbing(op) !in args ==> Without(args, Neutral(op)) == []
  {
    var rest := Without(args, Neutral(op));
    forall k | 0 <= k < |rest| ensures rest[k] in args && rest[k] != Neutral(op) { assert rest[k] in rest; }
  }

  method FoldJunction(sorts: SortArena, terms: TermArena, node: TermData) returns (r: nat)
    requires Open(sorts, terms) && Fitting(sorts.sorts, terms.terms, node) && (node.op.And? || node.op.Or?)
    modifies terms
    ensures Open(sorts, terms) && Grows(sorts.sorts, old(terms.terms), sorts.sorts, terms.terms)
    ensures Stands(sorts.sorts, old(terms.terms), node, sorts.sorts, terms.terms, r)
    ensures AllTruthConst(node.args) ==> r <= 1
  {
    hide SortArena.Valid, TermArena.Valid, Buildable, Stands, Fitting;
    if Absorbing(node.op) in node.args {
      JunctionAbsorbed(sorts.sorts, terms.terms, node);
      return Absorbing(node.op);
    }
    var rest := Without(node.args, Neutral(node.op));
    NothingLeft(node.op, node.args);
    r := Junction(sorts, terms, node, rest);
  }

  /** Exclusive or: of a term with itself, with false, and with true. */
  method FoldXor(sorts: SortArena, terms: TermArena, node: TermData) returns (r: Option<nat>)
    requires Open(sorts, terms) && Fitting(sorts.sorts, terms.terms, node) && node.op.Xor?
    modifies terms
    ensures Open(sorts, terms) && Grows(sorts.sorts, old(terms.terms), sorts.sorts, terms.terms)
    ensures r.Some? ==> Stands(sorts.sorts, old(terms.terms), node, sorts.sorts, terms.terms, r.value)
    ensures AllTruthConst(node.args) ==> r.Some? && r.value <= 1
    ensures r.None? ==> terms.terms == old(terms.terms)
  {
    hide SortArena.Valid, TermArena.Valid, Signatures, HashConsed, ArenaOk, Stands, Fitting, NodeTrue, IsTrue, Eval, NodeValue;
    TruthArgs(sorts.sorts, terms.terms, node);
    BuildableFacts(sorts.sorts, terms.terms);
    var a, b := node.args[0], node.args[1];
    ghost var ss, ts := sorts.sorts, terms.terms;
    forall i: Interp | Fits(i)
      ensures NodeTrue(ss, ts, node, i) <==> IsTrue(ss, ts, a, i) != IsTrue(ss, ts, b, i)
      ensures IsTrue(ss, ts, 0, i) && !IsTrue(ss, ts, 1, i)
    {
      NodeTruths(ss, ts, node, i);
      BaseValues(ss, ts, i);
    }
    if a == b {
      KnownStands(ss, ts, node, false);
      return Some(1);
    }
    if a == 1 {
      AliasStands(ss, ts, node, b);
      return Some(b);
    }
    if b == 1 {
      AliasStands(ss, ts, node, a);
      return Some(a);
    }
    if a == 0 || b == 0 {
      var x := if a == 0 then b else a;
      var n := MakeNot(sorts, terms, x);
      XorTrue(ss, ts, node, x);
      StandsSame(ss, ts, node, TermData(Op.Not, [x], 0), ss, terms.terms, n);
      return Some(n);
    }
    r := None;
  }

  lemma XorTrue(sorts: Sorts, terms: Terms, node: TermData, x: nat)
    requires Buildable(sorts, terms) && Fitting(sorts, terms, node) && node.op.Xor? && |node.args| == 2
    requires (node.args[0] == 0 && x == node.args[1]) || (node.args[1] == 0 && x == node.args[0])
    ensures Fitting(sorts, terms, TermData(Op.Not, [x], 0)) && node.sort == 0
    ensures forall i: Interp :: Fits(i) ==> NodeValue(sorts, terms, node, i) == NodeValue(sorts, terms, TermData(Op.Not, [x], 0), i)
  {
    hide ArenaOk, Eval, IsTrue, Signatures, HashConsed, NodeValue, NodeTrue, Based, Fitting;
    TruthArgs(sorts, terms, node);
    EqSort(sorts, terms, node);
    var other := TermData(Op.Not, [x], 0);
    TruthFits(sorts, terms, other);
    forall i: Interp | Fits(i) ensures NodeValue(sorts, terms, node, i) == NodeValue(sorts, terms, other, i) {
      NodeTruths(sorts, terms, node, i);
      NodeTruths(sorts, terms, other, i);
      TruthNodeValue(sorts, terms, node, i);
      TruthNodeValue(sorts, terms, other, i);
      BaseValues(sorts, terms, i);
    }
  }

  method FoldImplies(sorts: SortArena, terms: TermArena, node: TermData) returns (r: Option<nat>)
    requires Open(sorts, terms) && Fitting(sorts.sorts, terms.terms, node) && node.op.Implies?
    ensures r.Some? ==> Stands(sorts.sorts, terms.terms, node, sorts.sorts, terms.terms, r.value)
    ensures AllTruthConst(node.args) ==> r.Some? && r.value <= 1
  {
    hide SortArena.Valid, TermArena.Valid, Signatures, HashConsed, ArenaOk, Stands, Fitting, NodeTrue, IsTrue, Eval, NodeValue;
    TruthArgs(sorts.sorts, terms.terms, node);
    BuildableFacts(sorts.sorts, terms.terms);
    var a, b := node.args[0], node.args[1];
    ghost var ss, ts := sorts.sorts, terms.terms;
    forall i: Interp | Fits(i)
      ensures NodeTrue(ss, ts, node, i) <==> (IsTrue(ss, ts, a, i) ==> IsTrue(ss, ts, b, i))
      ensures IsTrue(ss, ts, 0, i) && !IsTrue(ss, ts, 1, i)
    {
      NodeTruths(ss, ts, node, i);
      BaseValues(ss, ts, i);
    }
    if a == 1 || b == 0 {
      KnownStands(ss, ts, node, true);
      return Some(0);
    }
    if a == 0 {
      AliasStands(ss, ts, node, b);
      return Some(b);
    }
    r := None;
  }

  // ---------- choices and equalities ----------

  method FoldIte(sorts: SortArena, terms: TermArena, node: TermData) returns (r: Option<nat>)
    requires Open(sorts, terms) && Fitting(sorts.sorts, terms.terms, node) && node.op.Ite?
    ensures r.Some? ==> Stands(sorts.sorts, terms.terms, node, sorts.sorts, terms.terms, r.value)
    ensures |node.args| == 3 && node.args[0] <= 1 ==> r == Some(node.args[1]) || r == Some(node.args[2])
  {
    hide SortArena.Valid, TermArena.Valid, Signatures, HashConsed, ArenaOk, Stands, Fitting, IsTrue, Eval, NodeValue;
    ghost var ss, ts := sorts.sorts, terms.terms;
    BuildableFacts(ss, ts);
    FittingArgs(ss, ts, node);
    IteArgs(ss, ts, node);
    var cond, thenB, elseB := node.args[0], node.args[1], node.args[2];
    forall i: Interp | Fits(i)
      ensures NodeValue(ss, ts, node, i) == if IsTrue(ss, ts, cond, i) then Eval(ss, ts, thenB, i) else Eval(ss, ts, elseB, i)
      ensures IsTrue(ss, ts, 0, i) && !IsTrue(ss, ts, 1, i)
    {
      NodePolymorphic(ss, ts, node, i);
      BaseValues(ss, ts, i);
    }
    if cond == 0 || thenB == elseB {
      ExistingStands(ss, ts, node, thenB);
      return Some(thenB);
    }
    if cond == 1 {
      ExistingStands(ss, ts, node, elseB);
      return Some(elseB);
    }
    r := None;
  }

  /** Two constants of one sort are equal exactly when their numbers are. */
  lemma EqConstants(sorts: Sorts, terms: Terms, node: TermData, b: bool)
    requires Fitting(sorts, terms, node) && node.op.Eq? && |node.args| == 2 && node.args[0] < |terms| && node.args[1] < |terms|
    requires
      var x, y := terms[node.args[0]].op, terms[node.args[1]].op;
      || (x.BvConst? && y.BvConst? && (b <==> x.value == y.value))
      || (x.IntConst? && y.IntConst? && (b <==> x.int_ == y.int_))
    ensures forall i: Interp :: Fits(i) ==> (NodeTrue(sorts, terms, node, i) <==> b)
  {
    hide ArenaOk, Eval, NodeSorted, NodeValue, NodeTrue, BV.ToBits, BV.Value, BV.Pow2;
    FittingArgs(sorts, terms, node);
    EqArgs(sorts, terms, node);
    forall i: Interp | Fits(i) ensures NodeTrue(sorts, terms, node, i) <==> b {
      NodePolymorphic(sorts, terms, node, i);
      if terms[node.args[0]].op.BvConst? {
        BvConstValue(sorts, terms, node.args[0], i);
        BvConstValue(sorts, terms, node.args[1], i);
      } else {
        IntConstValue(sorts, terms, node.args[0], i);
        IntConstValue(sorts, terms, node.args[1], i);
      }
    }
  }

  predicate AllBvConst(terms: Terms, args: seq<nat>) {
    forall k :: 0 <= k < |args| ==> args[k] < |terms| && terms[args[k]].op.BvConst?
  }

  predicate AllNumberConst(terms: Terms, args: seq<nat>) {
    forall k :: 0 <= k < |args| ==> args[k] < |terms| && terms[args[k]].op.IntConst?
  }

  method FoldEq(sorts: SortArena, terms: TermArena, node: TermData) returns (r: Option<nat>)
    requires Open(sorts, terms) && Fitting(sorts.sorts, terms.terms, node) && node.op.Eq?
    ensures r.Some? ==> Stands(sorts.sorts, terms.terms, node, sorts.sorts, terms.terms, r.value)
    ensures AllBvConst(terms.terms, node.args) || AllNumberConst(terms.terms, node.args) ==> r.Some? && r.value <= 1
  {
    hide SortArena.Valid, TermArena.Valid, Buildable, ArenaOk, Stands, Fitting, NodeTrue;
    EqArgs(sorts.sorts, terms.terms, node);
    var a, b := node.args[0], node.args[1];
    if a == b {
      EqItself(sorts.sorts, terms.terms, node);
      return Some(0);
    }
    var x, y := terms.terms[a].op, terms.terms[b].op;
    if x.BvConst? && y.BvConst? {
      EqConstants(sorts.sorts, terms.terms, node, x.value == y.value);
      KnownStands(sorts.sorts, terms.terms, node, x.value == y.value);
      return Some(if x.value == y.value then 0 else 1);
    }
    if x.IntConst? && y.IntConst? {
      EqConstants(sorts.sorts, terms.terms, node, x.int_ == y.int_);
      KnownStands(sorts.sorts, terms.terms, node, x.int_ == y.int_);
      return Some(if x.int_ == y.int_ then 0 else 1);
    }
    r := None;
  }

  // ---------- words ----------

  lemma WordsConstant(sorts: Sorts, terms: Terms, node: TermData, v1: nat, v2: nat, w: nat)
    requires Fitting(sorts, terms, node) && OnWords(node.op) && |node.args| == 2 && node.args[0] < |terms| && node.args[1] < |terms|
    requires terms[node.args[0]].op == BvConst(w, v1) && terms[node.args[1]].op.BvConst? && terms[node.args[1]].op.value == v2
    requires w > 0 && FoldWords(node.op, v1, v2, w).Some?
    ensures sorts[node.sort] == BitVec(w) && w <= MAX_BV_WIDTH
    ensures forall i: Interp :: Fits(i) ==> NodeValue(sorts, terms, node, i) == Word(BV.LowBits(FoldWords(node.op, v1, v2, w).value, w))
  {
    hide ArenaOk, Eval, NodeSorted, NodeValue, BV.ToBits, BV.Value, BV.Pow2, FoldWords, BV.LowBits, WordsFrom;
    FittingArgs(sorts, terms, node);
    WordsArgs(sorts, terms, node);
    SomeInterp();
    var i0: Interp :| Fits(i0);
    BvConstValue(sorts, terms, node.args[0], i0);
    forall i: Interp | Fits(i) ensures NodeValue(sorts, terms, node, i) == Word(BV.LowBits(FoldWords(node.op, v1, v2, w).value, w)) {
      NodeWords(sorts, terms, node, i);
      BvConstValue(sorts, terms, node.args[0], i);
      BvConstValue(sorts, terms, node.args[1], i);
      WordsFolded(node.op, v1, v2, w);
    }
  }

  predicate FoldsWords(op: Op) {
    || op.BvAdd? || op.BvSub? || op.BvMul? || op.BvUdiv? || op.BvUrem? || op.BvAnd? || op.BvOr? || op.BvXor?
    || op.BvShl? || op.BvLshr? || op.BvAshr?
  }

  lemma FoldsSome(op: Op, v1: nat, v2: nat, w: nat)
    requires w > 0
    ensures FoldsWords(op) <==> FoldWords(op, v1, v2, w).Some?
  {
  }

  method FoldOnWords(sorts: SortArena, terms: TermArena, node: TermData) returns (r: Option<nat>)
    requires Open(sorts, terms) && Fitting(sorts.sorts, terms.terms, node) && OnWords(node.op)
    modifies sorts, terms
    ensures Open(sorts, terms) && Grows(old(sorts.sorts), old(terms.terms), sorts.sorts, terms.terms)
    ensures r.Some? ==> Stands(old(sorts.sorts), old(terms.terms), node, sorts.sorts, terms.terms, r.value)
    ensures r.None? ==> sorts.sorts == old(sorts.sorts) && terms.terms == old(terms.terms)
    ensures FoldsWords(node.op) && AllBvConst(old(terms.terms), node.args) ==>
      r.Some? && r.value < |terms.terms| && terms.terms[r.value].op.BvConst?
  {
    hide SortArena.Valid, TermArena.Valid, Buildable, ArenaOk, Stands, Fitting, FoldWords, BV.LowBits, BV.Pow2, OnWords;
    ghost var ss, ts := sorts.sorts, terms.terms;
    WordsArgs(ss, ts, node);
    var c1, c2 := AsBvConst(terms.terms, node.args[0]), AsBvConst(terms.terms, node.args[1]);
    if c1 == None || c2 == None { return None; }
    var (v1, w) := c1.value;
    var v2 := c2.value.0;
    PositiveConstant(ss, ts, node.args[0]);
    var folded := FoldWords(node.op, v1, v2, w);
    FoldsSome(node.op, v1, v2, w);
    if folded == None { return None; }
    WordsConstant(ss, ts, node, v1, v2, w);
    FittingArgs(ss, ts, node);
    var c := FoldTo(sorts, terms, node, folded.value, w);
    r := Some(c);
  }

  /** The constant that a complement or an extract of a constant folds to. */
  function FoldWord(op: Op, v: nat, w: nat): (nat, nat)
    requires op.BvNot? || (op.BvExtract? && op.low <= op.high)
  {
    if op.BvNot? then (NB.Bitwise(NB.XorGate, NB.Mask(w), v), w)
    else (MaskTo(ShiftRight(v, op.low), op.high - op.low + 1), op.high - op.low + 1)
  }

  lemma WordConstant(sorts: Sorts, terms: Terms, node: TermData, v: nat, w: nat)
    requires Fitting(sorts, terms, node) && (node.op.BvNot? || (node.op.BvExtract? && node.op.low <= node.op.high))
    requires |node.args| == 1 && node.args[0] < |terms| && terms[node.args[0]].op == BvConst(w, v)
    ensures sorts[node.sort] == BitVec(FoldWord(node.op, v, w).1) && 0 < FoldWord(node.op, v, w).1 <= MAX_BV_WIDTH
    ensures forall i: Interp :: Fits(i) ==>
      NodeValue(sorts, terms, node, i) == Word(BV.LowBits(FoldWord(node.op, v, w).0, FoldWord(node.op, v, w).1))
  {
    hide ArenaOk, Eval, NodeSorted, NodeValue, BV.ToBits, BV.Value, BV.Pow2, BV.LowBits, NB.Bitwise, MaskTo, ShiftRight;
    FittingArgs(sorts, terms, node);
    WordArgs(sorts, terms, node);
    PositiveConstant(sorts, terms, node.args[0]);
    forall i: Interp | Fits(i)
      ensures NodeValue(sorts, terms, node, i) == Word(BV.LowBits(FoldWord(node.op, v, w).0, FoldWord(node.op, v, w).1))
    {
      NodeWord(sorts, terms, node, i);
      BvConstValue(sorts, terms, node.args[0], i);
      if node.op.BvNot? {
        NotFolded(v, w);
      } else {
        ExtractFolded(v, w, node.op.high, node.op.low);
      }
    }
  }

  method FoldOnWord(sorts: SortArena, terms: TermArena, node: TermData) returns (r: Option<nat>)
    requires Open(sorts, terms) && Fitting(sorts.sorts, terms.terms, node) && (node.op.BvNot? || node.op.BvExtract?)
    modifies sorts, terms
    ensures Open(sorts, terms) && Grows(old(sorts.sorts), old(terms.terms), sorts.sorts, terms.terms)
    ensures r.Some? ==> Stands(old(sorts.sorts), old(terms.terms), node, sorts.sorts, terms.terms, r.value)
    ensures r.None? ==> sorts.sorts == old(sorts.sorts) && terms.terms == old(terms.terms)
    ensures AllBvConst(old(terms.terms), node.args) ==> r.Some? && r.value < |terms.terms| && terms.terms[r.value].op.BvConst?
  {
    hide SortArena.Valid, TermArena.Valid, Buildable, ArenaOk, Stands, Fitting, FoldWord, BV.LowBits, BV.Pow2;
    ghost var ss, ts := sorts.sorts, terms.terms;
    WordArgs(ss, ts, node);
    var c1 := AsBvConst(terms.terms, node.args[0]);
    if c1 == None { return None; }
    var (v, w) := c1.value;
    var (value, width) := FoldWord(node.op, v, w);
    WordConstant(ss, ts, node, v, w);
    FittingArgs(ss, ts, node);
    var c := FoldTo(sorts, terms, node, value, width);
    r := Some(c);
  }

  function FoldedConcat(v1: nat, w1: nat, v2: nat, w2: nat): nat {
    MaskTo(NB.Bitwise(NB.OrGate, ShiftLeft(v1, w2), v2), w1 + w2)
  }

  lemma ConcatConstant(sorts: Sorts, terms: Terms, node: TermData, v1: nat, w1: nat, v2: nat, w2: nat)
    requires Fitting(sorts, terms, node) && node.op.BvConcat? && |node.args| == 2 && node.args[0] < |terms| && node.args[1] < |terms|
    requires terms[node.args[0]].op == BvConst(w1, v1) && terms[node.args[1]].op == BvConst(w2, v2)
    ensures sorts[node.sort] == BitVec(w1 + w2) && 0 < w1 + w2 <= MAX_BV_WIDTH
    ensures forall i: Interp :: Fits(i) ==> NodeValue(sorts, terms, node, i) == Word(BV.LowBits(FoldedConcat(v1, w1, v2, w2), w1 + w2))
  {
    hide ArenaOk, Eval, NodeSorted, NodeValue, BV.ToBits, BV.Value, BV.Pow2, BV.LowBits, NB.Bitwise, MaskTo, ShiftLeft;
    FittingArgs(sorts, terms, node);
    ConcatArgs(sorts, terms, node);
    PositiveConstant(sorts, terms, node.args[0]);
    PositiveConstant(sorts, terms, node.args[1]);
    forall i: Interp | Fits(i) ensures NodeValue(sorts, terms, node, i) == Word(BV.LowBits(FoldedConcat(v1, w1, v2, w2), w1 + w2)) {
      NodeConcat(sorts, terms, node, i);
      BvConstValue(sorts, terms, node.args[0], i);
      BvConstValue(sorts, terms, node.args[1], i);
      ConcatFolded(v1, w1, v2, w2);
    }
  }

  method FoldConcat(sorts: SortArena, terms: TermArena, node: TermData) returns (r: Option<nat>)
    requires Open(sorts, terms) && Fitting(sorts.sorts, terms.terms, node) && node.op.BvConcat?
    modifies sorts, terms
    ensures Open(sorts, terms) && Grows(old(sorts.sorts), old(terms.terms), sorts.sorts, terms.terms)
    ensures r.Some? ==> Stands(old(sorts.sorts), old(terms.terms), node, sorts.sorts, terms.terms, r.value)
    ensures r.None? ==> sorts.sorts == old(sorts.sorts) && terms.terms == old(terms.terms)
    ensures AllBvConst(old(terms.terms), node.args) ==> r.Some? && r.value < |terms.terms| && terms.terms[r.value].op.BvConst?
  {
    hide SortArena.Valid, TermArena.Valid, Buildable, ArenaOk, Stands, Fitting, FoldedConcat, BV.LowBits, Eval, NodeValue, Fits;
    ghost var ss, ts := sorts.sorts, terms.terms;
    FittingArgs(ss, ts, node);
    ConcatArgs(ss, ts, node);
    var c1, c2 := AsBvConst(terms.terms, node.args[0]), AsBvConst(terms.terms, node.args[1]);
    if c1 == None || c2 == None { return None; }
    ConcatConstant(ss, ts, node, c1.value.0, c1.value.1, c2.value.0, c2.value.1);
    var c := FoldTo(sorts, terms, node, FoldedConcat(c1.value.0, c1.value.1, c2.value.0, c2.value.1), c1.value.1 + c2.value.1);
    r := Some(c);
  }

  /** The constant that a node always has as its value. */
  method FoldTo(sorts: SortArena, terms: TermArena, ghost node: TermData, value: nat, width: nat) returns (c: nat)
    requires Open(sorts, terms) && Fitting(sorts.sorts, terms.terms, node) && 0 < width <= MAX_BV_WIDTH
    requires node.sort < |sorts.sorts| && sorts.sorts[node.sort] == BitVec(width)
    requires forall i: Interp :: Fits(i) ==> NodeValue(sorts.sorts, terms.terms, node, i) == Word(BV.LowBits(value, width))
    modifies sorts, terms
    ensures Open(sorts, terms) && Grows(old(sorts.sorts), old(terms.terms), sorts.sorts, terms.terms)
    ensures Stands(old(sorts.sorts), old(terms.terms), node, sorts.sorts, terms.terms, c)
    ensures c < |terms.terms| && terms.terms[c].op.BvConst?
  {
    hide SortArena.Valid, TermArena.Valid, Buildable, ArenaOk, Stands, Fitting, BV.LowBits, Eval, NodeValue, Fits;
    ghost var ss, ts := sorts.sorts, terms.terms;
    c := MakeBvConst(sorts, terms, value, width);
    BuildableFacts(sorts.sorts, terms.terms);
    ConstantStands(ss, ts, node, sorts.sorts, terms.terms, c, value, width);
  }

  // ---------- comparisons ----------

  predicate FoldsCompare(op: Op) { op.BvUlt? || op.BvUle? || op.BvUgt? || op.BvUge? }

  /** An unsigned comparison of two constants. */
  predicate FoldedCompare(op: Op, v1: nat, v2: nat)
    requires FoldsCompare(op)
  {
    match op
    case BvUlt => v1 < v2
    case BvUle => v1 <= v2
    case BvUgt => v1 > v2
    case BvUge => v1 >= v2
  }

  lemma CompareConstants(sorts: Sorts, terms: Terms, node: TermData, v1: nat, v2: nat)
    requires Fitting(sorts, terms, node) && FoldsCompare(node.op) && |node.args| == 2 && node.args[0] < |terms| && node.args[1] < |terms|
    requires terms[node.args[0]].op.BvConst? && terms[node.args[0]].op.value == v1
    requires terms[node.args[1]].op.BvConst? && terms[node.args[1]].op.value == v2
    ensures forall i: Interp :: Fits(i) ==> (NodeTrue(sorts, terms, node, i) <==> FoldedCompare(node.op, v1, v2))
  {
    hide ArenaOk, Eval, NodeSorted, NodeValue, BV.ToBits, BV.Value, BV.Pow2, BV.Signed;
    FittingArgs(sorts, terms, node);
    CompareArgs(sorts, terms, node);
    forall i: Interp | Fits(i) ensures NodeTrue(sorts, terms, node, i) <==> FoldedCompare(node.op, v1, v2) {
      NodeComparesWords(sorts, terms, node, i);
      BvConstValue(sorts, terms, node.args[0], i);
      BvConstValue(sorts, terms, node.args[1], i);
    }
  }

  method FoldCompare(sorts: SortArena, terms: TermArena, node: TermData) returns (r: Option<nat>)
    requires Open(sorts, terms) && Fitting(sorts.sorts, terms.terms, node) && FoldsCompare(node.op)
    ensures r.Some? ==> Stands(sorts.sorts, terms.terms, node, sorts.sorts, terms.terms, r.value)
    ensures AllBvConst(terms.terms, node.args) ==> r.Some? && r.value <= 1
  {
    hide SortArena.Valid, TermArena.Valid, Buildable, ArenaOk, Stands, Fitting, NodeTrue, FoldedCompare;
    CompareArgs(sorts.sorts, terms.terms, node);
    var c1, c2 := AsBvConst(terms.terms, node.args[0]), AsBvConst(terms.terms, node.args[1]);
    if c1 == None || c2 == None { return None; }
    var b := FoldedCompare(node.op, c1.value.0, c2.value.0);
    CompareConstants(sorts.sorts, terms.terms, node, c1.value.0, c2.value.0);
    KnownStands(sorts.sorts, terms.terms, node, b);
    r := Some(if b then 0 else 1);
  }

  lemma NumberConstants(sorts: Sorts, terms: Terms, node: TermData, x: int, y: int)
    requires Fitting(sorts, terms, node) && ComparesNumbers(node.op) && |node.args| == 2 && node.args[0] < |terms| && node.args[1] < |terms|
    requires terms[node.args[0]].op == IntConst(x) && terms[node.args[1]].op == IntConst(y)
    ensures forall i: Interp :: Fits(i) ==> (NodeTrue(sorts, terms, node, i) <==> NumbersCompare(node.op, x, y))
  {
    hide ArenaOk, Eval, NodeSorted, NodeValue, NumbersCompare;
    FittingArgs(sorts, terms, node);
    CompareArgs(sorts, terms, node);
    forall i: Interp | Fits(i) ensures NodeTrue(sorts, terms, node, i) <==> NumbersCompare(node.op, x, y) {
      NodeComparesNumbers(sorts, terms, node, i);
      IntConstValue(sorts, terms, node.args[0], i);
      IntConstValue(sorts, terms, node.args[1], i);
    }
  }

  method FoldNumberCompare(sorts: SortArena, terms: TermArena, node: TermData) returns (r: Option<nat>)
    requires Open(sorts, terms) && Fitting(sorts.sorts, terms.terms, node) && ComparesNumbers(node.op)
    ensures r.Some? ==> Stands(sorts.sorts, terms.terms, node, sorts.sorts, terms.terms, r.value)
    ensures AllNumberConst(terms.terms, node.args) ==> r.Some? && r.value <= 1
  {
    hide SortArena.Valid, TermArena.Valid, Buildable, ArenaOk, Stands, Fitting, NodeTrue;
    CompareArgs(sorts.sorts, terms.terms, node);
    var x, y := terms.terms[node.args[0]].op, terms.terms[node.args[1]].op;
    if !x.IntConst? || !y.IntConst? { return None; }
    var b := match node.op
      case Lt => x.int_ < y.int_
      case Le => x.int_ <= y.int_
      case Gt => x.int_ > y.int_
      case Ge => x.int_ >= y.int_;
    NumberConstants(sorts.sorts, terms.terms, node, x.int_, y.int_);
    KnownStands(sorts.sorts, terms.terms, node, b);
    r := Some(if b then 0 else 1);
  }

  // ---------- sums, differences and products ----------

  function ConstNumbers(terms: Terms, args: seq<nat>): (ns: seq<int>)
    requires AllNumberConst(terms, args)
    ensures |ns| == |args|
  {
    seq(|args|, k requires 0 <= k < |args| => terms[args[k]].op.int_)
  }

  lemma NumbersConstant(sorts: Sorts, terms: Terms, node: TermData)
    requires Fitting(sorts, terms, node) && OnNumbers(node.op) && |node.args| > 0
    requires AllNumberConst(terms, node.args)
    ensures forall i: Interp :: Fits(i) ==>
      NodeValue(sorts, terms, node, i) == Number(NumbersFrom(node.op, ConstNumbers(terms, node.args)))
  {
    hide ArenaOk, Eval, NodeSorted, NodeValue, NumbersFrom, OnNumbers;
    FittingArgs(sorts, terms, node);
    NumberArgs(sorts, terms, node);
    forall i: Interp | Fits(i)
      ensures NodeValue(sorts, terms, node, i) == Number(NumbersFrom(node.op, ConstNumbers(terms, node.args)))
    {
      NodeNumbers(sorts, terms, node, i);
      var ns := NumbersAt(sorts, terms, node.args, i);
      forall k | 0 <= k < |node.args| ensures ns[k] == ConstNumbers(terms, node.args)[k] {
        IntConstValue(sorts, terms, node.args[k], i);
      }
      assert ns == ConstNumbers(terms, node.args);
    }
  }

  /** The sum or the product, argument by argument. */
  method Accumulate(terms: TermArena, op: Op, args: seq<nat>) returns (acc: int)
    requires AllNumberConst(terms.terms, args)
    requires (op.Add? || op.Mul?) && |args| > 0
    ensures acc == NumbersFrom(op, ConstNumbers(terms.terms, args))
  {
    ghost var ns := ConstNumbers(terms.terms, args);
    acc := if op.Add? then 0 else 1;
    for k := 0 to |args|
      invariant acc == if op.Add? then Total(ns[..k]) else Product(ns[..k])
    {
      assert ns[..k + 1][..k] == ns[..k];
      var v := terms.terms[args[k]].op.int_;
      acc := if op.Add? then acc + v else acc * v;
    }
    assert ns[..|args|] == ns;
  }

  method FoldNumbers(sorts: SortArena, terms: TermArena, node: TermData) returns (r: Option<nat>)
    requires Open(sorts, terms) && Fitting(sorts.sorts, terms.terms, node) && OnNumbers(node.op)
    modifies terms
    ensures Open(sorts, terms) && Grows(sorts.sorts, old(terms.terms), sorts.sorts, terms.terms)
    ensures r.Some? ==> Stands(sorts.sorts, old(terms.terms), node, sorts.sorts, terms.terms, r.value)
    ensures r.None? ==> terms.terms == old(terms.terms)
    ensures AllNumberConst(old(terms.terms), node.args) && (node.op.Sub? ==> |node.args| == 2) ==>
      r.Some? && r.value < |terms.terms| && terms.terms[r.value].op.IntConst?
  {
    hide SortArena.Valid, TermArena.Valid, Buildable, ArenaOk, Stands, Fitting, NodeValue, Eval, NumbersFrom;
    ghost var ss, ts := sorts.sorts, terms.terms;
    NumberArgs(ss, ts, node);
    if !AllNumberConst(terms.terms, node.args) || (node.op.Sub? && |node.args| != 2) { return None; }
    NumbersConstant(ss, ts, node);
    var v;
    if node.op.Sub? {
      v := terms.terms[node.args[0]].op.int_ - terms.terms[node.args[1]].op.int_;
      TwoNumbers(ConstNumbers(ts, node.args));
    } else {
      v := Accumulate(terms, node.op, node.args);
    }
    var c := MakeIntConst(sorts, terms, v);
    BuildableFacts(sorts.sorts, terms.terms);
    NumberStands(ss, ts, node, sorts.sorts, terms.terms, c, v);
    r := Some(c);
  }

  lemma TwoNumbers(ns: seq<int>)
    requires |ns| == 2
    ensures NumbersFrom(Op.Sub, ns) == ns[0] - ns[1]
  {
    var one := ns[1..];
    assert |one| == 1 && one[0] == ns[1] && one[..0] == [];
    assert Total(one) == Total(one[..0]) + one[0];
  }

  // ---------- folding a term ----------

  predicate IsConst(terms: Terms, id: nat) { id < |terms| && Constant(terms[id].op) }

  /** Operators that constants are folded under: not Eq on truth values, and not the difference of other
      than two numbers. */
  ghost predicate Folds(op: Op, argSorts: seq<Sort>) {
    || OnTruths(op) || op.Ite? || FoldsWords(op) || op.BvNot? || op.BvExtract? || op.BvConcat? || FoldsCompare(op)
    || (OnNumbers(op) && (op.Sub? ==> |argSorts| == 2)) || ComparesNumbers(op)
    || (op.Eq? && |argSorts| == 2 && argSorts[0] != Sort.Bool)
  }

  ghost predicate FoldsNode(sorts: Sorts, terms: Terms, node: TermData)
    requires Fitting(sorts, terms, node)
  {
    Folds(node.op, ArgSorts(sorts, terms, node.args)) && forall k :: 0 <= k < |node.args| ==> IsConst(terms, node.args[k])
  }

  /** Constants are told by their sort; the truth values are the first two terms. */
  lemma ConstOfSort(sorts: Sorts, terms: Terms, a: nat)
    requires Buildable(sorts, terms) && IsConst(terms, a)
    ensures Linked(sorts, terms) && IsConst(terms, 0) && IsConst(terms, 1)
    ensures SortOf(sorts, terms, a) == Sort.Bool ==> a <= 1
    ensures SortOf(sorts, terms, a).BitVec? ==> terms[a].op.BvConst?
    ensures SortOf(sorts, terms, a) == Sort.Int ==> terms[a].op.IntConst?
    ensures SortOf(sorts, terms, a) == Sort.Bool || SortOf(sorts, terms, a).BitVec? || SortOf(sorts, terms, a) == Sort.Int
  {
    hide Signatures, SortsUnique;
    NodeOk(sorts, terms, a);
  }

  /** What constant arguments are, operator by operator. */
  lemma FoldsArgs(sorts: Sorts, terms: Terms, node: TermData)
    requires Buildable(sorts, terms) && Fitting(sorts, terms, node) && FoldsNode(sorts, terms, node)
    ensures OnTruths(node.op) ==> AllTruthConst(node.args)
    ensures node.op.Ite? ==> |node.args| == 3 && node.args[0] <= 1
    ensures FoldsWords(node.op) || node.op.BvNot? || node.op.BvExtract? || node.op.BvConcat? || FoldsCompare(node.op) ==>
      AllBvConst(terms, node.args)
    ensures OnNumbers(node.op) || ComparesNumbers(node.op) ==> AllNumberConst(terms, node.args)
    ensures node.op.Sub? ==> |node.args| == 2
    ensures node.op.Eq? ==> AllBvConst(terms, node.args) || AllNumberConst(terms, node.args)
  {
    hide Buildable, ArenaOk, NodeSorted, GoodSort;
    BuildableFacts(sorts, terms);
    FittingArgs(sorts, terms, node);
    forall k | 0 <= k < |node.args| ensures
        && (SortOf(sorts, terms, node.args[k]) == Sort.Bool ==> node.args[k] <= 1)
        && (SortOf(sorts, terms, node.args[k]).BitVec? ==> terms[node.args[k]].op.BvConst?)
        && (SortOf(sorts, terms, node.args[k]) == Sort.Int ==> terms[node.args[k]].op.IntConst?)
        && (SortOf(sorts, terms, node.args[k]) == Sort.Bool || SortOf(sorts, terms, node.args[k]).BitVec?
            || SortOf(sorts, terms, node.args[k]) == Sort.Int)
    {
      ConstOfSort(sorts, terms, node.args[k]);
    }
    ArgSortKinds(sorts, terms, node);
  }

  /** The sorts of the arguments of a fitting node. */
  lemma ArgSortKinds(sorts: Sorts, terms: Terms, node: TermData)
    requires Fitting(sorts, terms, node) && Linked(sorts, terms)
    ensures forall k :: 0 <= k < |node.args| ==> node.args[k] < |terms|
    ensures |ArgSorts(sorts, terms, node.args)| == |node.args|
    ensures OnTruths(node.op) ==> forall k :: 0 <= k < |node.args| ==> SortOf(sorts, terms, node.args[k]) == Sort.Bool
    ensures node.op.Ite? ==> |node.args| == 3 && SortOf(sorts, terms, node.args[0]) == Sort.Bool
    ensures FoldsWords(node.op) || node.op.BvNot? || node.op.BvExtract? || node.op.BvConcat? || FoldsCompare(node.op) ==>
      forall k :: 0 <= k < |node.args| ==> SortOf(sorts, terms, node.args[k]).BitVec?
    ensures OnNumbers(node.op) || ComparesNumbers(node.op) ==> forall k :: 0 <= k < |node.args| ==> SortOf(sorts, terms, node.args[k]) == Sort.Int
    ensures node.op.Eq? ==>
      |node.args| == 2 && SortOf(sorts, terms, node.args[1]) == SortOf(sorts, terms, node.args[0]) == ArgSorts(sorts, terms, node.args)[0]
  {
    hide TermSorted, GoodSort;
    var ss := ArgSorts(sorts, terms, node.args);
    forall k | 0 <= k < |node.args| ensures ss[k] == SortOf(sorts, terms, node.args[k]) {}
  }

  method FoldTruths(sorts: SortArena, terms: TermArena, node: TermData) returns (r: Option<nat>)
    requires Open(sorts, terms) && Fitting(sorts.sorts, terms.terms, node) && OnTruths(node.op)
    modifies terms
    ensures Open(sorts, terms) && Grows(sorts.sorts, old(terms.terms), sorts.sorts, terms.terms)
    ensures r.Some? ==> Stands(sorts.sorts, old(terms.terms), node, sorts.sorts, terms.terms, r.value)
    ensures r.None? ==> terms.terms == old(terms.terms)
    ensures AllTruthConst(node.args) ==> r.Some? && r.value <= 1
    ensures old(InertNode(terms.terms, node)) ==> r.None?
  {
    hide Open, Stands, Fitting, AllTruthConst;
    if node.op.Not? {
      r := FoldNot(sorts, terms, node);
    } else if node.op.And? || node.op.Or? {
      var j := FoldJunction(sorts, terms, node);
      r := Some(j);
    } else if node.op.Xor? {
      r := FoldXor(sorts, terms, node);
    } else {
      r := FoldImplies(sorts, terms, node);
    }
  }

  lemma OpenConsts(sorts: SortArena, terms: TermArena, node: TermData)
    requires Open(sorts, terms) && Fitting(sorts.sorts, terms.terms, node)
    ensures Based(sorts.sorts, terms.terms)
    ensures FoldsNode(sorts.sorts, terms.terms, node) ==>
      && Folds(node.op, ArgSorts(sorts.sorts, terms.terms, node.args))
      && (OnTruths(node.op) ==> AllTruthConst(node.args))
      && (node.op.Ite? ==> |node.args| == 3 && node.args[0] <= 1)
      && (FoldsWords(node.op) || node.op.BvNot? || node.op.BvExtract? || node.op.BvConcat? || FoldsCompare(node.op) ==>
           AllBvConst(terms.terms, node.args))
      && (OnNumbers(node.op) || ComparesNumbers(node.op) ==> AllNumberConst(terms.terms, node.args))
      && (node.op.Sub? ==> |node.args| == 2)
      && (node.op.Eq? ==> AllBvConst(terms.terms, node.args) || AllNumberConst(terms.terms, node.args))
  {
    hide SortArena.Valid, TermArena.Valid, Buildable, Fitting, Folds, AllTruthConst, AllBvConst, AllNumberConst;
    BuildableFacts(sorts.sorts, terms.terms);
    if FoldsNode(sorts.sorts, terms.terms, node) { FoldsArgs(sorts.sorts, terms.terms, node); }
  }

  /** The simplifications of one node whose arguments are folded; constants fold to a constant. */
  method FoldNode(sorts: SortArena, terms: TermArena, node: TermData) returns (r: Option<nat>)
    requires Open(sorts, terms) && Fitting(sorts.sorts, terms.terms, node)
    modifies sorts, terms
    ensures Open(sorts, terms) && Grows(old(sorts.sorts), old(terms.terms), sorts.sorts, terms.terms)
    ensures r.Some? ==> Stands(old(sorts.sorts), old(terms.terms), node, sorts.sorts, terms.terms, r.value)
    ensures r.None? ==> sorts.sorts == old(sorts.sorts) && terms.terms == old(terms.terms)
    ensures old(FoldsNode(sorts.sorts, terms.terms, node)) ==> r.Some? && IsConst(terms.terms, r.value)
    ensures Constant(node.op) || old(InertNode(terms.terms, node)) ==> r.None?
  {
    hide Open, Stands, Fitting, FoldsNode, AllTruthConst, AllBvConst, AllNumberConst, IsConst;
    ghost var ss, ts := sorts.sorts, terms.terms;
    OpenConsts(sorts, terms, node);
    if OnTruths(node.op) {
      r := FoldTruths(sorts, terms, node);
    } else if node.op.Ite? {
      r := FoldIte(sorts, terms, node);
    } else if node.op.Eq? {
      r := FoldEq(sorts, terms, node);
    } else if OnWords(node.op) {
      r := FoldOnWords(sorts, terms, node);
    } else if node.op.BvNot? || node.op.BvExtract? {
      r := FoldOnWord(sorts, terms, node);
    } else if node.op.BvConcat? {
      r := FoldConcat(sorts, terms, node);
    } else if FoldsCompare(node.op) {
      r := FoldCompare(sorts, terms, node);
    } else if OnNumbers(node.op) {
      r := FoldNumbers(sorts, terms, node);
    } else if ComparesNumbers(node.op) {
      r := FoldNumberCompare(sorts, terms, node);
    } else {
      r := None;
    }
    if r.Some? { FoldedConst(ss, ts, node, terms.terms, r.value); }
  }

  lemma FoldedConst(sorts: Sorts, terms: Terms, node: TermData, terms': Terms, r: nat)
    requires Based(sorts, terms) && terms <= terms' && Fitting(sorts, terms, node)
    ensures r <= 1 ==> IsConst(terms', r)
    ensures r < |terms'| && (terms'[r].op.BvConst? || terms'[r].op.IntConst?) ==> IsConst(terms', r)
    ensures FoldsNode(sorts, terms, node) && r in node.args ==> IsConst(terms', r)
  {
    hide Fitting, Folds;
  }

  // ---------- terms without variables ----------

  /** Built from constants with operators that constants are folded under. */
  ghost predicate Ground(sorts: Sorts, terms: Terms, id: nat)
    requires Linked(sorts, terms) && id < |terms|
    decreases id
  {
    && (Constant(terms[id].op) || Folds(terms[id].op, ArgSorts(sorts, terms, terms[id].args)))
    && forall k :: 0 <= k < |terms[id].args| ==> Ground(sorts, terms, terms[id].args[k])
  }

  lemma {:induction false} GroundStable(sorts: Sorts, terms: Terms, sorts': Sorts, terms': Terms, id: nat)
    requires ArenaOk(sorts, terms) && ArenaOk(sorts', terms') && Grows(sorts, terms, sorts', terms') && id < |terms|
    requires Linked(sorts, terms) && Linked(sorts', terms')
    ensures Ground(sorts, terms, id) ==> Ground(sorts', terms', id)
    decreases id
  {
    hide ArenaOk, Folds;
    assert terms'[id] == terms[id];
    var args := terms[id].args;
    forall k | 0 <= k < |args|
      ensures Ground(sorts, terms, args[k]) ==> Ground(sorts', terms', args[k])
      ensures SortOf(sorts, terms, args[k]) == SortOf(sorts', terms', args[k])
    {
      GroundStable(sorts, terms, sorts', terms', args[k]);
      SortStable(sorts, terms, sorts', terms', args[k]);
    }
    assert ArgSorts(sorts, terms, args) == ArgSorts(sorts', terms', args);
  }

  /** A node over constants folds, or is a constant. */
  lemma GroundNode(sorts: Sorts, terms: Terms, id: nat, sorts1: Sorts, terms1: Terms, node: TermData)
    requires ArenaOk(sorts, terms) && id < |terms| && Linked(sorts, terms) && Ground(sorts, terms, id)
    requires Fitting(sorts1, terms1, node) && node.op == terms[id].op && |node.args| == |terms[id].args|
    requires forall k :: 0 <= k < |node.args| ==> Keeps(sorts, terms, terms[id].args[k], sorts1, terms1, node.args[k])
    requires forall k :: 0 <= k < |node.args| ==> IsConst(terms1, node.args[k])
    ensures Constant(node.op) || FoldsNode(sorts1, terms1, node)
  {
    hide ArenaOk, Folds, Eval, Fits, IsConst;
    FittingArgs(sorts1, terms1, node);
    var args := terms[id].args;
    forall k | 0 <= k < |args| ensures ArgSorts(sorts1, terms1, node.args)[k] == ArgSorts(sorts, terms, args)[k] {
      assert Keeps(sorts, terms, args[k], sorts1, terms1, node.args[k]);
    }
    assert ArgSorts(sorts1, terms1, node.args) == ArgSorts(sorts, terms, args);
  }

  class ConstantFolder {
    const terms: TermArena
    const sorts: SortArena
    var steps: nat
    const maxSteps: nat

    constructor (terms: TermArena, sorts: SortArena, maxSteps: nat)
      ensures this.terms == terms && this.sorts == sorts && this.maxSteps == maxSteps && steps == 0
    {
      this.terms, this.sorts, this.maxSteps := terms, sorts, maxSteps;
      steps := 0;
    }

    /** A folded form of the term: it means the same under every interpretation, however early the
        step budget cuts the folding short. A ground term that the budget suffices for becomes a constant. */
    method FoldTerm(id: nat) returns (r: nat)
      requires Open(sorts, terms) && id < |terms.terms|
      modifies this, sorts, terms
      ensures Open(sorts, terms) && Grows(old(sorts.sorts), old(terms.terms), sorts.sorts, terms.terms)
      ensures Keeps(old(sorts.sorts), old(terms.terms), id, sorts.sorts, terms.terms, r)
      ensures Linked(old(sorts.sorts), old(terms.terms))
      ensures old(steps) + TreeSize(old(sorts.sorts), old(terms.terms), id) <= maxSteps ==>
        && steps == old(steps) + TreeSize(old(sorts.sorts), old(terms.terms), id)
        && (Ground(old(sorts.sorts), old(terms.terms), id) ==> IsConst(terms.terms, r))
      ensures Inert(old(terms.terms), id) ==> r == id && sorts.sorts == old(sorts.sorts) && terms.terms == old(terms.terms)
      decreases id, 1
    {
      hide SortArena.Valid, TermArena.Valid, Buildable, Keeps, Fitting, SignatureFits, Stands, ArgsSize, Ground, FoldsNode, ArenaOk,
        NodeValue, Eval, InertNode, Pure, PureNode;
      ghost var ss, ts := sorts.sorts, terms.terms;
      BuildableFacts(ss, ts);
      LinkedOk(ss, ts);
      steps := steps + 1;
      if steps > maxSteps {
        KeepsItself(ss, ts, id);
        return id;
      }
      var term := terms.terms[id];
      ghost var enough := old(steps) + TreeSize(ss, ts, id) <= maxSteps;
      var foldedArgs := FoldArgs(id);
      ghost var ss1, ts1 := sorts.sorts, terms.terms;
      ReplacedNode(ss, ts, id, ss1, ts1, foldedArgs);
      var node := TermData(term.op, foldedArgs, term.sort);
      if enough && Ground(ss, ts, id) { GroundNode(ss, ts, id, ss1, ts1, node); }
      var s := FoldNode(sorts, terms, node);
      if s.Some? {
        KeepsFromNode(ss, ts, id, ss1, ts1, node, sorts.sorts, terms.terms, s.value);
        return s.value;
      }
      r := InternNode(sorts, terms, node);
      KeepsFromNode(ss, ts, id, ss1, ts1, node, sorts.sorts, terms.terms, r);
    }

    /** The arguments, folded in order. */
    method FoldArgs(id: nat) returns (foldedArgs: seq<nat>)
      requires Open(sorts, terms) && id < |terms.terms|
      modifies this, sorts, terms
      ensures Open(sorts, terms) && Grows(old(sorts.sorts), old(terms.terms), sorts.sorts, terms.terms)
      ensures Linked(old(sorts.sorts), old(terms.terms)) && |foldedArgs| == |old(terms.terms)[id].args|
      ensures forall k :: 0 <= k < |foldedArgs| ==>
        Keeps(old(sorts.sorts), old(terms.terms), old(terms.terms)[id].args[k], sorts.sorts, terms.terms, foldedArgs[k])
      ensures old(steps) + ArgsSize(old(sorts.sorts), old(terms.terms), id, |foldedArgs|) <= maxSteps ==>
        && steps == old(steps) + ArgsSize(old(sorts.sorts), old(terms.terms), id, |foldedArgs|)
        && (Ground(old(sorts.sorts), old(terms.terms), id) ==> forall k :: 0 <= k < |foldedArgs| ==> IsConst(terms.terms, foldedArgs[k]))
      ensures Inert(old(terms.terms), id) ==>
        foldedArgs == old(terms.terms)[id].args && sorts.sorts == old(sorts.sorts) && terms.terms == old(terms.terms)
      decreases id, 0
    {
      hide SortArena.Valid, TermArena.Valid, Buildable, Keeps, ArgsSize, TreeSize, Ground, IsConst, ArenaOk, InertNode;
      ghost var ss, ts := sorts.sorts, terms.terms;
      BuildableFacts(ss, ts);
      LinkedOk(ss, ts);
      var args := terms.terms[id].args;
      ghost var enough := old(steps) + ArgsSize(ss, ts, id, |args|) <= maxSteps;
      NoArgs(ss, ts, id);
      foldedArgs := [];
      for k := 0 to |args|
        invariant Open(sorts, terms) && Grows(ss, ts, sorts.sorts, terms.terms) && |foldedArgs| == k
        invariant forall j :: 0 <= j < k ==> Keeps(ss, ts, args[j], sorts.sorts, terms.terms, foldedArgs[j])
        invariant enough ==> steps == old(steps) + ArgsSize(ss, ts, id, k)
        invariant enough && Ground(ss, ts, id) ==> forall j :: 0 <= j < k ==> IsConst(terms.terms, foldedArgs[j])
        invariant Inert(ts, id) ==> foldedArgs == args[..k] && sorts.sorts == ss && terms.terms == ts
      {
        ghost var ss1, ts1 := sorts.sorts, terms.terms;
        BuildableFacts(ss1, ts1);
        NextArg(ss, ts, ss1, ts1, id, k);
        NextGround(ss, ts, ss1, ts1, id, k);
        var a := FoldTerm(args[k]);
        BuildableFacts(sorts.sorts, terms.terms);
        forall j | 0 <= j < k ensures Keeps(ss, ts, args[j], sorts.sorts, terms.terms, foldedArgs[j]) {
          KeepsLater(ss, ts, args[j], ss1, ts1, foldedArgs[j], sorts.sorts, terms.terms);
        }
        ConstsLater(ts1, terms.terms, foldedArgs);
        LaterKeeps(ss, ts, args[k], ss1, ts1, sorts.sorts, terms.terms, a);
        foldedArgs := foldedArgs + [a];
      }
    }
  }

  lemma ConstsLater(terms: Terms, terms': Terms, ids: seq<nat>)
    requires terms <= terms'
    ensures forall k :: 0 <= k < |ids| && IsConst(terms, ids[k]) ==> IsConst(terms', ids[k])
  {
  }

  lemma NextGround(sorts: Sorts, terms: Terms, sorts1: Sorts, terms1: Terms, id: nat, k: nat)
    requires ArenaOk(sorts, terms) && ArenaOk(sorts1, terms1) && Grows(sorts, terms, sorts1, terms1)
    requires Linked(sorts, terms) && id < |terms| && k < |terms[id].args| && Linked(sorts1, terms1)
    ensures terms[id].args[k] < |terms1|
    ensures Ground(sorts, terms, id) ==> Ground(sorts1, terms1, terms[id].args[k])
  {
    hide ArenaOk, Folds;
    GroundStable(sorts, terms, sorts1, terms1, terms[id].args[k]);
  }
}
