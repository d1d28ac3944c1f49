/** Linear mixed Boolean-arithmetic: sums of scaled bitwise terms over at most four variables are
    decided by sixteen coefficients, one for each assignment of a single bit. */
module LinearMba {
  import opened Lits
  import BV = BitVectors
  import opened MbaTerms

  // ---------- truth tables ----------

  type Table = bv16

  const ZERO: Table := 0x0000
  const ONE: Table := 0xFFFF
  const VAR0: Table := 0xAAAA
  const VAR1: Table := 0xCCCC
  const VAR2: Table := 0xF0F0
  const VAR3: Table := 0xFF00

  function Amount(i: nat): bv16
    requires i < 16
  {
    (i as bv4) as bv16
  }

  predicate WordBit(t: bv16, a: bv16)
    requires a < 16
  {
    (t >> a) & 1 == 1
  }

  lemma AmountSmall(i: nat)
    requires i < 16
    ensures Amount(i) < 16
  {
  }

  /** Entry `i` of a table. */
  predicate Entry(t: Table, i: nat)
    requires i < 16
  {
    hide *;
    AmountSmall(i);
    WordBit(t, Amount(i))
  }

  lemma EntryIs(t: Table, i: nat)
    requires i < 16
    ensures Amount(i) < 16 && Entry(t, i) == WordBit(t, Amount(i))
  {
    hide Amount, WordBit;
    AmountSmall(i);
  }

  lemma ProjectionBits(i: nat)
    requires i < 16
    ensures Amount(i) < 16
    ensures WordBit(VAR0, Amount(i)) == (i % 2 == 1)
    ensures WordBit(VAR1, Amount(i)) == ((i / 2) % 2 == 1)
    ensures WordBit(VAR2, Amount(i)) == ((i / 4) % 2 == 1)
    ensures WordBit(VAR3, Amount(i)) == ((i / 8) % 2 == 1)
    ensures WordBit(ONE, Amount(i)) && !WordBit(ZERO, Amount(i))
  {
    if i == 0 {} else if i == 1 {} else if i == 2 {} else if i == 3 {} else if i == 4 {} else if i == 5 {} else if i == 6 {}
    else if i == 7 {} else if i == 8 {} else if i == 9 {} else if i == 10 {} else if i == 11 {} else if i == 12 {} else if i == 13 {}
    else if i == 14 {} else {}
  }

  /** The constant tables and the four projections. */
  lemma Projections(i: nat)
    requires i < 16
    ensures Entry(VAR0, i) == (i % 2 == 1) && Entry(VAR1, i) == ((i / 2) % 2 == 1)
    ensures Entry(VAR2, i) == ((i / 4) % 2 == 1) && Entry(VAR3, i) == ((i / 8) % 2 == 1)
    ensures Entry(ONE, i) && !Entry(ZERO, i)
  {
    hide Amount, WordBit;
    ProjectionBits(i);
    EntryIs(VAR0, i);
    EntryIs(VAR1, i);
    EntryIs(VAR2, i);
    EntryIs(VAR3, i);
    EntryIs(ONE, i);
    EntryIs(ZERO, i);
  }

  function AndTable(s: Table, t: Table): Table { s & t }

  function OrTable(s: Table, t: Table): Table { s | t }

  function XorTable(s: Table, t: Table): Table { s ^ t }

  function NotTable(t: Table): Table { !t }

  lemma WordAnd(s: bv16, t: bv16, a: bv16)
    requires a < 16
    ensures WordBit(AndTable(s, t), a) == (WordBit(s, a) && WordBit(t, a))
  {
  }

  lemma WordOr(s: bv16, t: bv16, a: bv16)
    requires a < 16
    ensures WordBit(OrTable(s, t), a) == (WordBit(s, a) || WordBit(t, a))
  {
  }

  lemma RawXor(s: bv16, t: bv16, a: bv16)
    requires a < 16
    ensures ((s ^ t) >> a) & 1 == ((s >> a) & 1) ^ ((t >> a) & 1)
  {
  }

  lemma XorOfBits(x: bv16, y: bv16)
    requires x <= 1 && y <= 1
    ensures (x ^ y == 1) == ((x == 1) != (y == 1))
  {
  }

  lemma LowBit(x: bv16)
    ensures x & 1 <= 1
  {
  }

  lemma WordXor(s: bv16, t: bv16, a: bv16)
    requires a < 16
    ensures WordBit(XorTable(s, t), a) == (WordBit(s, a) != WordBit(t, a))
  {
    RawXor(s, t, a);
    LowBit(s >> a);
    LowBit(t >> a);
    XorOfBits((s >> a) & 1, (t >> a) & 1);
  }

  lemma WordNot(t: bv16, a: bv16)
    requires a < 16
    ensures WordBit(NotTable(t), a) == !WordBit(t, a)
  {
  }

  /** Tables operate entry by entry. */
  lemma EntryOps(s: Table, t: Table, i: nat)
    requires i < 16
    ensures Entry(AndTable(s, t), i) == (Entry(s, i) && Entry(t, i))
    ensures Entry(OrTable(s, t), i) == (Entry(s, i) || Entry(t, i))
    ensures Entry(XorTable(s, t), i) == (Entry(s, i) != Entry(t, i))
    ensures Entry(NotTable(t), i) == !Entry(t, i)
  {
    hide *;
    EntryIs(s, i);
    EntryIs(t, i);
    EntryIs(AndTable(s, t), i);
    EntryIs(OrTable(s, t), i);
    EntryIs(XorTable(s, t), i);
    EntryIs(NotTable(t), i);
    WordAnd(s, t, Amount(i));
    WordOr(s, t, Amount(i));
    WordXor(s, t, Amount(i));
    WordNot(t, Amount(i));
  }

  /** The table of a bitwise term over the numbered variables. */
  function TableOf(t: Term, index: map<Term, nat>): Option<Table>
    requires WellSorted(t)
  {
    ArgSorts(t);
    if t in index then
      match index[t]
      case 0 => Some(VAR0)
      case 1 => Some(VAR1)
      case 2 => Some(VAR2)
      case 3 => Some(VAR3)
      case _ => None
    else
      match t.op
      case BvConst(value, _) => if value == 0 then Some(ZERO) else Some(ONE)
      case BvNot =>
        var a := TableOf(t.args[0], index);
        if a.Some? then Some(NotTable(a.value)) else None
      case BvAnd =>
        var a, b := TableOf(t.args[0], index), TableOf(t.args[1], index);
        if a.Some? && b.Some? then Some(AndTable(a.value, b.value)) else None
      case BvOr =>
        var a, b := TableOf(t.args[0], index), TableOf(t.args[1], index);
        if a.Some? && b.Some? then Some(OrTable(a.value, b.value)) else None
      case BvXor =>
        var a, b := TableOf(t.args[0], index), TableOf(t.args[1], index);
        if a.Some? && b.Some? then Some(XorTable(a.value, b.value)) else None
      case _ => None
  }

  // ---------- assignments of one bit ----------

  ghost function Digit(b: bool, place: nat): nat { if b then place else 0 }

  ghost predicate RhoAt(vars: seq<Term>, rho: Term -> bool, k: nat) { k < |vars| && rho(vars[k]) }

  /** The number of an assignment: variable `k` is its bit `k`. */
  ghost function IndexOf(vars: seq<Term>, rho: Term -> bool): (r: nat)
    ensures r < 16
  {
    Digit(RhoAt(vars, rho, 0), 1) + Digit(RhoAt(vars, rho, 1), 2) + Digit(RhoAt(vars, rho, 2), 4) + Digit(RhoAt(vars, rho, 3), 8)
  }

  lemma IndexDigits(vars: seq<Term>, rho: Term -> bool)
    ensures (IndexOf(vars, rho) % 2 == 1) == RhoAt(vars, rho, 0)
    ensures ((IndexOf(vars, rho) / 2) % 2 == 1) == RhoAt(vars, rho, 1)
    ensures ((IndexOf(vars, rho) / 4) % 2 == 1) == RhoAt(vars, rho, 2)
    ensures ((IndexOf(vars, rho) / 8) % 2 == 1) == RhoAt(vars, rho, 3)
  {
  }

  /** The variables are distinct words and numbered in order. */
  ghost predicate Numbered(vars: seq<Term>, index: map<Term, nat>) {
    && (forall k :: 0 <= k < |vars| ==> vars[k].op.Var? && vars[k] in index && index[vars[k]] == k)
    && (forall t :: t in index ==> index[t] < |vars| && vars[index[t]] == t)
  }

  /** The table tabulates the truth value of the term. */
  lemma {:induction false} TableTruth(t: Term, vars: seq<Term>, index: map<Term, nat>, rho: Term -> bool)
    requires WellSorted(t) && Numbered(vars, index) && TableOf(t, index).Some?
    ensures Supported(t) && Entry(TableOf(t, index).value, IndexOf(vars, rho)) == Truth(t, rho)
    decreases t
  {
    hide Entry, IndexOf, WellSorted, AndTable, OrTable, XorTable, NotTable;
    ArgSorts(t);
    var i := IndexOf(vars, rho);
    Projections(i);
    IndexDigits(vars, rho);
    if t in index {
      assert vars[index[t]] == t;
    } else if t.op.BvNot? {
      TableTruth(t.args[0], vars, index, rho);
      var a := TableOf(t.args[0], index).value;
      EntryOps(a, a, i);
    } else if t.op.BvAnd? || t.op.BvOr? || t.op.BvXor? {
      TableTruth(t.args[0], vars, index, rho);
      TableTruth(t.args[1], vars, index, rho);
      EntryOps(TableOf(t.args[0], index).value, TableOf(t.args[1], index).value, i);
    }
  }

  // ---------- words from coefficients ----------

  /** The sum of 2^j * values[indices[j]]. */
  ghost function WordSum(values: seq<int>, indices: seq<nat>): int
    requires |values| == 16 && forall j :: 0 <= j < |indices| ==> indices[j] < 16
    decreases |indices|
  {
    if indices == [] then 0
    else
      var n := |indices| - 1;
      WordSum(values, indices[..n]) + values[indices[n]] * BV.Pow2(n)
  }

  function AddAll(a: seq<int>, b: seq<int>): (r: seq<int>)
    requires |a| == |b|
    ensures |r| == |a|
  {
    seq(|a|, k requires 0 <= k < |a| => a[k] + b[k])
  }

  function SubAll(a: seq<int>, b: seq<int>): (r: seq<int>)
    requires |a| == |b|
    ensures |r| == |a|
  {
    seq(|a|, k requires 0 <= k < |a| => a[k] - b[k])
  }

  function Scaled(t: Table, coeff: int): (r: seq<int>)
    ensures |r| == 16
  {
    seq(16, k requires 0 <= k < 16 => if Entry(t, k) then coeff else 0)
  }

  lemma TimesSum(a: int, b: int, p: int)
    ensures (a + b) * p == a * p + b * p && (a - b) * p == a * p - b * p
  {
  }

  lemma {:induction false} WordSumAdd(a: seq<int>, b: seq<int>, indices: seq<nat>)
    requires |a| == 16 && |b| == 16 && forall j :: 0 <= j < |indices| ==> indices[j] < 16
    ensures WordSum(AddAll(a, b), indices) == WordSum(a, indices) + WordSum(b, indices)
    ensures WordSum(SubAll(a, b), indices) == WordSum(a, indices) - WordSum(b, indices)
    decreases |indices|
  {
    if indices != [] {
      var n := |indices| - 1;
      WordSumAdd(a, b, indices[..n]);
      TimesSum(a[indices[n]], b[indices[n]], BV.Pow2(n));
    }
  }

  lemma ScaledStep(coeff: int, v: int, b: nat, p: int, c: int)
    requires c == coeff * b
    ensures coeff * v + c * p == coeff * (v + b * p)
  {
    assert coeff * (v + b * p) == coeff * v + coeff * (b * p);
    assert (coeff * b) * p == coeff * (b * p);
  }

  /** A scaled table sums to the scaled word of its bits. */
  lemma {:induction false} WordSumScaled(t: Table, coeff: int, indices: seq<nat>, bits: seq<bool>)
    requires |bits| == |indices| && forall j :: 0 <= j < |indices| ==> indices[j] < 16 && bits[j] == Entry(t, indices[j])
    ensures WordSum(Scaled(t, coeff), indices) == coeff * BV.Value(bits)
    decreases |indices|
  {
    hide Entry;
    if indices != [] {
      var n := |indices| - 1;
      WordSumScaled(t, coeff, indices[..n], bits[..n]);
      ScaledStep(coeff, BV.Value(bits[..n]), BV.Bit(bits[n]), BV.Pow2(n), if bits[n] then coeff else 0);
    }
  }

  // ---------- congruence ----------

  function Times(k: int, m: int): int { k * m }

  ghost predicate Cong(a: int, b: int, m: int) { exists k :: a - b == Times(k, m) }

  lemma CongIntro(a: int, b: int, m: int, k: int)
    requires a == b + k * m
    ensures Cong(a, b, m)
  {
    assert a - b == Times(k, m);
  }

  lemma CongEquivalence(a: int, b: int, c: int, m: int)
    ensures Cong(a, a, m)
    ensures Cong(a, b, m) ==> Cong(b, a, m)
    ensures Cong(a, b, m) && Cong(b, c, m) ==> Cong(a, c, m)
  {
    CongIntro(a, a, m, 0);
    if Cong(a, b, m) {
      var k :| a - b == Times(k, m);
      assert Times(-k, m) == -Times(k, m);
      assert b - a == Times(-k, m);
      if Cong(b, c, m) {
        var l :| b - c == Times(l, m);
        TimesSum(k, l, m);
        assert a - c == Times(k + l, m);
      }
    }
  }

  lemma CongSum(a: int, b: int, c: int, d: int, m: int)
    requires Cong(a, b, m) && Cong(c, d, m)
    ensures Cong(a + c, b + d, m) && Cong(a - c, b - d, m)
  {
    var k :| a - b == Times(k, m);
    var l :| c - d == Times(l, m);
    TimesSum(k, l, m);
    assert (a + c) - (b + d) == Times(k + l, m);
    assert (a - c) - (b - d) == Times(k - l, m);
  }

  lemma CongScale(a: int, b: int, c: int, m: int)
    requires Cong(a, b, m)
    ensures Cong(c * a, c * b, m)
  {
    var k :| a - b == Times(k, m);
    ScaleDistribute(c, a, b, k, m);
    assert c * a - c * b == Times(c * k, m);
  }

  lemma ScaleDistribute(c: int, a: int, b: int, k: int, m: int)
    requires a - b == k * m
    ensures c * a - c * b == (c * k) * m
  {
    assert c * a - c * b == c * (a - b);
    assert c * (k * m) == (c * k) * m;
  }

  lemma CongMod(x: int, m: int)
    requires m > 0
    ensures Cong(x % m, x, m)
  {
    BV.ModSplit(x, m);
    NegTimes(x / m, m);
    CongIntro(x % m, x, m, -(x / m));
  }

  lemma NegTimes(a: int, b: int)
    ensures (-a) * b == -(a * b)
  {
  }

  /** Congruent numbers in range are equal. */
  lemma CongInRange(a: nat, b: nat, m: nat)
    requires Cong(a, b, m) && a < m && b < m
    ensures a == b
  {
    var k :| a - b == Times(k, m);
    BV.DivModUnique(a, m, 0, a, k, b);
  }

  // ---------- what is evaluated ----------

  /** The bitwise term with every constant other than zero replaced by all ones: what its table stands for. */
  ghost function FullBits(t: Term): Term
    requires WellSorted(t)
  {
    ArgSorts(t);
    match t.op
    case BvConst(value, width) => if value == 0 then t else Term(BvConst(BV.Pow2(width) - 1, width), [], t.sort)
    case BvNot => Term(BvNot, [FullBits(t.args[0])], t.sort)
    case BvAnd => Term(BvAnd, [FullBits(t.args[0]), FullBits(t.args[1])], t.sort)
    case BvOr => Term(BvOr, [FullBits(t.args[0]), FullBits(t.args[1])], t.sort)
    case BvXor => Term(BvXor, [FullBits(t.args[0]), FullBits(t.args[1])], t.sort)
    case _ => t
  }

  ghost predicate FullOk(t: Term, f: Term, rho: Term -> bool) {
    && Supported(t) && WellSorted(f) && f.sort == t.sort && Supported(f) && ConstsFull(f) && Truth(f, rho) == Truth(t, rho)
  }

  lemma FullNot(t: Term, rho: Term -> bool)
    requires WellSorted(t) && t.op.BvNot? && WellSorted(t.args[0]) && FullOk(t.args[0], FullBits(t.args[0]), rho)
    ensures FullOk(t, FullBits(t), rho)
  {
    ArgSorts(t);
    var f := FullBits(t.args[0]);
    assert FullBits(t) == Term(BvNot, [f], t.sort);
  }

  lemma PairTruth(op: Op, f: Term, g: Term, s: Sort, rho: Term -> bool)
    requires (op.BvAnd? || op.BvOr? || op.BvXor?) && Supported(f) && Supported(g)
    ensures Supported(Term(op, [f, g], s))
    ensures op.BvAnd? ==> Truth(Term(op, [f, g], s), rho) == (Truth(f, rho) && Truth(g, rho))
    ensures op.BvOr? ==> Truth(Term(op, [f, g], s), rho) == (Truth(f, rho) || Truth(g, rho))
    ensures op.BvXor? ==> Truth(Term(op, [f, g], s), rho) == (Truth(f, rho) != Truth(g, rho))
  {
  }

  lemma PairFull(op: Op, f: Term, g: Term, s: Sort)
    requires (op.BvAnd? || op.BvOr? || op.BvXor?) && ConstsFull(f) && ConstsFull(g)
    ensures ConstsFull(Term(op, [f, g], s))
  {
  }

  lemma FullBitsPair(t: Term)
    requires WellSorted(t) && (t.op.BvAnd? || t.op.BvOr? || t.op.BvXor?)
    ensures |t.args| == 2 && t == Term(t.op, [t.args[0], t.args[1]], t.sort) && t.sort.BitVec?
    ensures t.args[0].sort == t.sort && t.args[1].sort == t.sort && WellSorted(t.args[0]) && WellSorted(t.args[1])
    ensures FullBits(t) == Term(t.op, [FullBits(t.args[0]), FullBits(t.args[1])], t.sort)
  {
    ArgSorts(t);
  }

  lemma FullPair(t: Term, rho: Term -> bool)
    requires WellSorted(t) && (t.op.BvAnd? || t.op.BvOr? || t.op.BvXor?) && WellSorted(t.args[0]) && WellSorted(t.args[1])
    requires FullOk(t.args[0], FullBits(t.args[0]), rho) && FullOk(t.args[1], FullBits(t.args[1]), rho)
    ensures FullOk(t, FullBits(t), rho)
  {
    hide FullBits, Truth, Supported, ConstsFull, WellSorted;
    FullBitsPair(t);
    var f, g := FullBits(t.args[0]), FullBits(t.args[1]);
    PairTruth(t.op, f, g, t.sort, rho);
    PairTruth(t.op, t.args[0], t.args[1], t.sort, rho);
    PairFull(t.op, f, g, t.sort);
    BinopSorted(t.op, f, g, t.sort);
  }

  lemma FullLeaf(t: Term, rho: Term -> bool)
    requires WellSorted(t) && (t.op.Var? || t.op.BvConst?)
    ensures FullOk(t, FullBits(t), rho)
  {
    if t.op.BvConst? { FullConstant(t); }
  }

  lemma FullConstant(t: Term)
    requires WellSorted(t) && t.op.BvConst?
    ensures WellSorted(FullBits(t)) && ConstsFull(FullBits(t)) && FullBits(t).op.BvConst? && FullBits(t).sort == t.sort
    ensures FullBits(t).op.value == 0 <==> t.op.value == 0
  {
  }

  lemma {:induction false} FullBitsOk(t: Term, index: map<Term, nat>, rho: Term -> bool)
    requires WellSorted(t) && t.sort.BitVec? && TableOf(t, index).Some? && (forall v :: v in index ==> v.op.Var?)
    ensures FullOk(t, FullBits(t), rho)
    decreases t
  {
    hide FullOk, FullBits, WellSorted, AndTable, OrTable, XorTable, NotTable;
    ArgSorts(t);
    if t in index || t.op.BvConst? {
      FullLeaf(t, rho);
    } else if t.op.BvNot? {
      FullBitsOk(t.args[0], index, rho);
      FullNot(t, rho);
    } else {
      FullBitsOk(t.args[0], index, rho);
      FullBitsOk(t.args[1], index, rho);
      FullPair(t, rho);
    }
  }

  /** A constant that fits a signed 64-bit integer. */
  function Scalar(t: Term): Option<int> {
    if t.op.BvConst? && t.op.value < 0x8000_0000_0000_0000 then Some(t.op.value) else None
  }

  /** What the evaluator computes the coefficients of: sums, differences and scaled terms as they are,
      bitwise terms with their constants filled. */
  ghost function Saturate(t: Term): Term
    requires WellSorted(t)
  {
    LinearSorts(t);
    match t.op
    case BvAdd => Term(BvAdd, [Saturate(t.args[0]), Saturate(t.args[1])], t.sort)
    case BvSub => Term(BvSub, [Saturate(t.args[0]), Saturate(t.args[1])], t.sort)
    case BvMul =>
      if Scalar(t.args[0]).Some? then Term(BvMul, [t.args[0], Saturate(t.args[1])], t.sort)
      else if Scalar(t.args[1]).Some? then Term(BvMul, [Saturate(t.args[0]), t.args[1]], t.sort)
      else t
    case _ => FullBits(t)
  }

  lemma LinearSorts(t: Term)
    requires WellSorted(t)
    ensures t.op.BvAdd? || t.op.BvSub? || t.op.BvMul? ==>
      && t.sort.BitVec? && |t.args| == 2 && t.args[0].sort == t.sort && t.args[1].sort == t.sort
      && WellSorted(t.args[0]) && WellSorted(t.args[1])
  {
  }

  /** Where every constant that is not a multiplier is 0 or all ones, saturating changes nothing. */
  ghost predicate Saturated(t: Term)
    requires WellSorted(t)
  {
    Saturate(t) == t
  }

  ghost function Indices(vars: seq<Term>, i: Interp, w: nat): (r: seq<nat>)
    ensures |r| == w && forall j :: 0 <= j < w ==> r[j] == IndexOf(vars, BitView(i, j))
  {
    seq(w, j requires 0 <= j < w => IndexOf(vars, BitView(i, j)))
  }

  ghost predicate AddsIn(before: seq<int>, after: seq<int>, coeff: int, u: Term, vars: seq<Term>, w: nat, i: Interp)
    requires |before| == 16 && |after| == 16 && WellSorted(u) && u.sort == BitVec(w) && Fits(i)
  {
    Cong(WordSum(after, Indices(vars, i, w)), WordSum(before, Indices(vars, i, w)) + coeff * BV.Value(Word(u, i)), BV.Pow2(w))
  }

  /** From `before` to `after` the coefficients grew by `coeff` times the word `u`. */
  ghost predicate Adds(before: seq<int>, after: seq<int>, coeff: int, u: Term, vars: seq<Term>, w: nat) {
    && |before| == 16 && |after| == 16 && WellSorted(u) && u.sort == BitVec(w)
    && forall i :: Fits(i) ==> AddsIn(before, after, coeff, u, vars, w, i)
  }

  /** A bitwise term: its table, scaled. */
  lemma BitsAdd(before: seq<int>, t: Term, index: map<Term, nat>, coeff: int, vars: seq<Term>, w: nat)
    requires |before| == 16 && WellSorted(t) && t.sort == BitVec(w) && Numbered(vars, index) && TableOf(t, index).Some?
    ensures WellSorted(FullBits(t)) && Adds(before, AddAll(before, Scaled(TableOf(t, index).value, coeff)), coeff, FullBits(t), vars, w)
  {
    hide Entry, IndexOf, TableOf, WellSorted, FullBits, BitOf;
    var table := TableOf(t, index).value;
    var after := AddAll(before, Scaled(table, coeff));
    NumberedVars(vars, index);
    FullBitsOk(t, index, rho => false);
    var u := FullBits(t);
    forall i | Fits(i) ensures AddsIn(before, after, coeff, u, vars, w, i) {
      var ix, bits := Indices(vars, i, w), Word(u, i);
      forall j | 0 <= j < w ensures bits[j] == Entry(table, ix[j]) {
        FullBitsOk(t, index, BitView(i, j));
        TableTruth(t, vars, index, BitView(i, j));
        BitTruth(u, i, j);
        BitIs(u, i, j);
      }
      WordSumAdd(before, Scaled(table, coeff), ix);
      WordSumScaled(table, coeff, ix, bits);
      CongEquivalence(WordSum(after, ix), 0, 0, BV.Pow2(w));
    }
  }

  lemma BitIs(t: Term, i: Interp, k: nat)
    requires WellSorted(t) && Fits(i) && t.sort.BitVec? && k < t.sort.w
    ensures BitOf(t, i, k) == Word(t, i)[k]
  {
  }

  lemma NumberedVars(vars: seq<Term>, index: map<Term, nat>)
    requires Numbered(vars, index)
    ensures forall v :: v in index ==> v.op.Var?
  {
    forall v | v in index ensures v.op.Var? { assert vars[index[v]] == v; }
  }

  ghost function Combine(op: Op, x: int, y: int): int {
    if op.BvAdd? then x + y else if op.BvSub? then x - y else x * y
  }

  lemma ArithmeticWord(op: Op, a: Term, b: Term, s: Sort, i: Interp)
    requires op.BvAdd? || op.BvSub? || op.BvMul?
    requires WellSorted(a) && WellSorted(b) && a.sort == s && b.sort == s && s.BitVec? && Fits(i)
    ensures WellSorted(Term(op, [a, b], s))
    ensures Cong(BV.Value(Word(Term(op, [a, b], s), i)), Combine(op, BV.Value(Word(a, i)), BV.Value(Word(b, i))), BV.Pow2(s.w))
  {
    hide Cong, BV.Value, BV.Pow2;
    WordBinary(Term(op, [a, b], s), i);
    CongMod(Combine(op, BV.Value(Word(a, i)), BV.Value(Word(b, i))), BV.Pow2(s.w));
  }

  lemma CongChain(after: int, mid: int, before: int, x: int, y: int, z: int, m: int)
    requires Cong(mid, before + x, m) && Cong(after, mid + y, m) && Cong(z, x + y, m)
    ensures Cong(after, before + z, m)
  {
    CongEquivalence(y, y, y, m);
    CongEquivalence(before, before, before, m);
    CongSum(mid, before + x, y, y, m);
    CongEquivalence(after, mid + y, before + x + y, m);
    CongEquivalence(z, x + y, x + y, m);
    CongSum(before, before, x + y, z, m);
    CongEquivalence(after, before + (x + y), before + z, m);
  }

  lemma AddsAt(before: seq<int>, after: seq<int>, coeff: int, u: Term, vars: seq<Term>, w: nat, i: Interp)
    requires Adds(before, after, coeff, u, vars, w) && Fits(i)
    ensures |before| == 16 && |after| == 16 && WellSorted(u) && u.sort == BitVec(w)
    ensures Cong(WordSum(after, Indices(vars, i, w)), WordSum(before, Indices(vars, i, w)) + coeff * BV.Value(Word(u, i)), BV.Pow2(w))
  {
    hide *;
    AddsInstance(before, after, coeff, u, vars, w, i);
    AddsInIs(before, after, coeff, u, vars, w, i);
  }

  lemma AddsInstance(before: seq<int>, after: seq<int>, coeff: int, u: Term, vars: seq<Term>, w: nat, i: Interp)
    requires Adds(before, after, coeff, u, vars, w) && Fits(i)
    ensures |before| == 16 && |after| == 16 && WellSorted(u) && u.sort == BitVec(w) && AddsIn(before, after, coeff, u, vars, w, i)
  {
    hide AddsIn, WellSorted, Fits;
  }

  lemma AddsInIs(before: seq<int>, after: seq<int>, coeff: int, u: Term, vars: seq<Term>, w: nat, i: Interp)
    requires |before| == 16 && |after| == 16 && WellSorted(u) && u.sort == BitVec(w) && Fits(i)
    ensures AddsIn(before, after, coeff, u, vars, w, i) ==
      Cong(WordSum(after, Indices(vars, i, w)), WordSum(before, Indices(vars, i, w)) + coeff * BV.Value(Word(u, i)), BV.Pow2(w))
  {
    hide Cong, WordSum, Indices, Word, WellSorted, Fits, BV.Value, BV.Pow2;
  }

  lemma AddsShape(before: seq<int>, after: seq<int>, coeff: int, u: Term, vars: seq<Term>, w: nat)
    requires Adds(before, after, coeff, u, vars, w)
    ensures |before| == 16 && |after| == 16 && WellSorted(u) && u.sort == BitVec(w)
  {
  }

  /** The sums of three vectors, two of them apart by `c * x` and by `d * y`. */
  lemma SumChain(after: int, mid: int, before: int, coeff: int, x: int, y: int, z: int, minus: bool, m: int)
    requires Cong(mid, before + coeff * x, m) && Cong(after, mid + (if minus then -coeff else coeff) * y, m)
    requires Cong(z, if minus then x - y else x + y, m)
    ensures Cong(after, before + coeff * z, m)
  {
    hide Cong;
    var sum := if minus then x - y else x + y;
    CongScale(z, sum, coeff, m);
    SignedDistribute(coeff, x, y, minus);
    CongChain(after, mid, before, coeff * x, (if minus then -coeff else coeff) * y, coeff * z, m);
  }

  lemma SumAddsAt(s0: seq<int>, s1: seq<int>, s2: seq<int>, coeff: int, a: Term, b: Term, minus: bool, vars: seq<Term>, w: nat, i: Interp)
    requires Adds(s0, s1, coeff, a, vars, w) && Adds(s1, s2, if minus then -coeff else coeff, b, vars, w) && Fits(i)
    ensures |s0| == 16 && |s2| == 16 && WellSorted(Term(if minus then BvSub else BvAdd, [a, b], BitVec(w)))
    ensures AddsIn(s0, s2, coeff, Term(if minus then BvSub else BvAdd, [a, b], BitVec(w)), vars, w, i)
  {
    hide *;
    AddsAt(s0, s1, coeff, a, vars, w, i);
    AddsAt(s1, s2, if minus then -coeff else coeff, b, vars, w, i);
    var op := if minus then BvSub else BvAdd;
    ArithmeticWord(op, a, b, BitVec(w), i);
    var ix, x, y := Indices(vars, i, w), BV.Value(Word(a, i)), BV.Value(Word(b, i));
    CombineIs(op, x, y);
    SumChain(WordSum(s2, ix), WordSum(s1, ix), WordSum(s0, ix), coeff, x, y, BV.Value(Word(Term(op, [a, b], BitVec(w)), i)), minus, BV.Pow2(w));
    AddsInIs(s0, s2, coeff, Term(op, [a, b], BitVec(w)), vars, w, i);
  }

  lemma CombineIs(op: Op, x: int, y: int)
    ensures Combine(op, x, y) == if op.BvAdd? then x + y else if op.BvSub? then x - y else x * y
  {
  }

  /** A sum, or with the sign turned a difference. */
  lemma SumAdds(s0: seq<int>, s1: seq<int>, s2: seq<int>, coeff: int, a: Term, b: Term, minus: bool, vars: seq<Term>, w: nat)
    requires Adds(s0, s1, coeff, a, vars, w) && Adds(s1, s2, if minus then -coeff else coeff, b, vars, w)
    ensures Adds(s0, s2, coeff, Term(if minus then BvSub else BvAdd, [a, b], BitVec(w)), vars, w)
  {
    hide WellSorted, AddsIn;
    AddsShape(s0, s1, coeff, a, vars, w);
    SumAddsAt(s0, s1, s2, coeff, a, b, minus, vars, w, ZeroInterp());
    forall i | Fits(i) { SumAddsAt(s0, s1, s2, coeff, a, b, minus, vars, w, i); }
  }

  lemma SignedDistribute(c: int, x: int, y: int, minus: bool)
    ensures c * (if minus then x - y else x + y) == c * x + (if minus then -c else c) * y
  {
    NegTimes(c, y);
  }

  lemma ProductChain(after: int, before: int, coeff: int, c: int, x: int, z: int, m: int)
    requires Cong(after, before + (coeff * c) * x, m) && Cong(z, c * x, m)
    ensures Cong(after, before + coeff * z, m)
  {
    hide Cong;
    ProductOrder(coeff, c, x);
    CongScale(z, c * x, coeff, m);
    ReplaceAddend(after, before, (coeff * c) * x, coeff * z, m);
  }

  lemma ProductAddsAt(s0: seq<int>, s1: seq<int>, coeff: int, k: Term, a: Term, flip: bool, vars: seq<Term>, w: nat, i: Interp)
    requires WellSorted(k) && k.op.BvConst? && k.sort == BitVec(w) && Adds(s0, s1, coeff * k.op.value, a, vars, w) && Fits(i)
    ensures |s0| == 16 && |s1| == 16 && WellSorted(Term(BvMul, if flip then [a, k] else [k, a], BitVec(w)))
    ensures AddsIn(s0, s1, coeff, Term(BvMul, if flip then [a, k] else [k, a], BitVec(w)), vars, w, i)
  {
    hide *;
    AddsAt(s0, s1, coeff * k.op.value, a, vars, w, i);
    ArithmeticWord(BvMul, if flip then a else k, if flip then k else a, BitVec(w), i);
    WordOfConstant(k, i);
    var ix, x := Indices(vars, i, w), BV.Value(Word(a, i));
    CombineIs(BvMul, k.op.value, x);
    CombineIs(BvMul, x, k.op.value);
    ProductOrder(coeff, k.op.value, x);
    ProductChain(WordSum(s1, ix), WordSum(s0, ix), coeff, k.op.value, x,
                 BV.Value(Word(Term(BvMul, if flip then [a, k] else [k, a], BitVec(w)), i)), BV.Pow2(w));
    AddsInIs(s0, s1, coeff, Term(BvMul, if flip then [a, k] else [k, a], BitVec(w)), vars, w, i);
  }

  /** A scaled term, with the constant on either side. */
  lemma ProductAdds(s0: seq<int>, s1: seq<int>, coeff: int, k: Term, a: Term, flip: bool, vars: seq<Term>, w: nat)
    requires WellSorted(k) && k.op.BvConst? && k.sort == BitVec(w) && Adds(s0, s1, coeff * k.op.value, a, vars, w)
    ensures Adds(s0, s1, coeff, Term(BvMul, if flip then [a, k] else [k, a], BitVec(w)), vars, w)
  {
    hide WellSorted, AddsIn;
    AddsShape(s0, s1, coeff * k.op.value, a, vars, w);
    ProductAddsAt(s0, s1, coeff, k, a, flip, vars, w, ZeroInterp());
    forall i | Fits(i) { ProductAddsAt(s0, s1, coeff, k, a, flip, vars, w, i); }
  }

  lemma ProductOrder(a: int, c: int, x: int)
    ensures (a * c) * x == a * (c * x) && x * c == c * x
  {
  }

  lemma ReplaceAddend(after: int, before: int, x: int, y: int, m: int)
    requires Cong(after, before + x, m) && Cong(y, x, m)
    ensures Cong(after, before + y, m)
  {
    CongEquivalence(before, before, before, m);
    CongEquivalence(y, x, x, m);
    CongSum(before, before, x, y, m);
    CongEquivalence(after, before + x, before + y, m);
  }

  // ---------- coefficient vectors ----------

  class LinearMbaVector {
    const values: array<int>

    ghost predicate Valid() { values.Length == 16 }

    constructor Zero()
      ensures Valid() && fresh(values) && values[..] == Scaled(ZERO, 0)
    {
      var d := new int[16](_ => 0);
      values := d;
    }

    constructor FromTruthTable(t: Table, coeff: int)
      ensures Valid() && fresh(values) && values[..] == Scaled(t, coeff)
    {
      var d := new int[16](_ => 0);
      values := d;
      new;
      hide Entry;
      var i := 0;
      while i < 16
        invariant 0 <= i <= 16 && forall k :: 0 <= k < 16 ==> values[k] == if k < i && Entry(t, k) then coeff else 0
      {
        if Entry(t, i) { values[i] := coeff; }
        i := i + 1;
      }
    }

    method Add(other: LinearMbaVector)
      requires Valid() && other.Valid() && values != other.values
      modifies values
      ensures values[..] == AddAll(old(values[..]), other.values[..])
    {
      var i := 0;
      while i < 16
        invariant 0 <= i <= 16
        invariant forall k :: 0 <= k < 16 ==> values[k] == old(values[k]) + if k < i then other.values[k] else 0
      {
        values[i] := values[i] + other.values[i];
        i := i + 1;
      }
    }

    method Sub(other: LinearMbaVector)
      requires Valid() && other.Valid() && values != other.values
      modifies values
      ensures values[..] == SubAll(old(values[..]), other.values[..])
    {
      var i := 0;
      while i < 16
        invariant 0 <= i <= 16
        invariant forall k :: 0 <= k < 16 ==> values[k] == old(values[k]) - if k < i then other.values[k] else 0
      {
        values[i] := values[i] - other.values[i];
        i := i + 1;
      }
    }
  }

  /** The sixteen coefficients of `coeff` times the term, if the term is linear. */
  ghost function Coefficients(t: Term, coeff: int, index: map<Term, nat>): (r: Option<seq<int>>)
    requires WellSorted(t)
    ensures r.Some? ==> |r.value| == 16
    decreases t
  {
    LinearSorts(t);
    match t.op
    case BvAdd =>
      var a, b := Coefficients(t.args[0], coeff, index), Coefficients(t.args[1], coeff, index);
      if a.Some? && b.Some? then Some(AddAll(a.value, b.value)) else None
    case BvSub =>
      var a, b := Coefficients(t.args[0], coeff, index), Coefficients(t.args[1], -coeff, index);
      if a.Some? && b.Some? then Some(AddAll(a.value, b.value)) else None
    case BvMul =>
      if Scalar(t.args[0]).Some? then Coefficients(t.args[1], coeff * Scalar(t.args[0]).value, index)
      else if Scalar(t.args[1]).Some? then Coefficients(t.args[0], coeff * Scalar(t.args[1]).value, index)
      else None
    case _ =>
      var table := TableOf(t, index);
      if table.Some? then Some(Scaled(table.value, coeff)) else None
  }

  lemma CoefficientsIs(t: Term, coeff: int, index: map<Term, nat>)
    requires WellSorted(t)
    ensures t.op.BvAdd? || t.op.BvSub? || t.op.BvMul? ==> |t.args| == 2 && WellSorted(t.args[0]) && WellSorted(t.args[1])
    ensures t.op.BvAdd? || t.op.BvSub? ==>
      var a, b := Coefficients(t.args[0], coeff, index), Coefficients(t.args[1], if t.op.BvAdd? then coeff else -coeff, index);
      Coefficients(t, coeff, index) == if a.Some? && b.Some? then Some(AddAll(a.value, b.value)) else None
    ensures t.op.BvMul? ==>
      Coefficients(t, coeff, index) ==
        if Scalar(t.args[0]).Some? then Coefficients(t.args[1], coeff * Scalar(t.args[0]).value, index)
        else if Scalar(t.args[1]).Some? then Coefficients(t.args[0], coeff * Scalar(t.args[1]).value, index)
        else None
    ensures !t.op.BvAdd? && !t.op.BvSub? && !t.op.BvMul? ==>
      Coefficients(t, coeff, index) ==
        if TableOf(t, index).Some? then Some(Scaled(TableOf(t, index).value, coeff)) else None
  {
    hide TableOf, Scaled, AddAll, WellSorted;
    LinearSorts(t);
  }

  lemma AddAllTwice(a: seq<int>, b: seq<int>, c: seq<int>)
    requires |a| == |b| == |c| == 16
    ensures AddAll(AddAll(a, b), c) == AddAll(a, AddAll(b, c))
  {
  }

  /** The coefficients of a term stand for it, whatever they are added to. */
  lemma {:induction false} CoefficientsAdd(t: Term, coeff: int, index: map<Term, nat>, vars: seq<Term>, s0: seq<int>)
    requires WellSorted(t) && t.sort.BitVec? && Numbered(vars, index) && |s0| == 16 && Coefficients(t, coeff, index).Some?
    ensures Adds(s0, AddAll(s0, Coefficients(t, coeff, index).value), coeff, Saturate(t), vars, t.sort.w)
    decreases t
  {
    hide WellSorted, Adds, TableOf, FullBits, Saturate, Coefficients, AddAll;
    LinearSorts(t);
    SaturateIs(t);
    CoefficientsIs(t, coeff, index);
    if t.op.BvAdd? || t.op.BvSub? {
      var d := if t.op.BvAdd? then coeff else -coeff;
      var c0, c1 := Coefficients(t.args[0], coeff, index).value, Coefficients(t.args[1], d, index).value;
      CoefficientsAdd(t.args[0], coeff, index, vars, s0);
      CoefficientsAdd(t.args[1], d, index, vars, AddAll(s0, c0));
      AddAllTwice(s0, c0, c1);
      SumAdds(s0, AddAll(s0, c0), AddAll(AddAll(s0, c0), c1), coeff, Saturate(t.args[0]), Saturate(t.args[1]), t.op.BvSub?, vars, t.sort.w);
    } else if t.op.BvMul? {
      var k := if Scalar(t.args[0]).Some? then 0 else 1;
      var d := coeff * Scalar(t.args[k]).value;
      CoefficientsAdd(t.args[1 - k], d, index, vars, s0);
      ProductAdds(s0, AddAll(s0, Coefficients(t.args[1 - k], d, index).value), coeff, t.args[k], Saturate(t.args[1 - k]), k == 1, vars, t.sort.w);
    } else {
      BitsAdd(s0, t, index, coeff, vars, t.sort.w);
    }
  }

  /** Adds `coeff` times the term to the coefficients, if the term is linear. */
  method EvaluateLinearTerm(t: Term, coeff: int, index: map<Term, nat>, acc: LinearMbaVector, ghost vars: seq<Term>) returns (ok: bool)
    requires WellSorted(t) && Numbered(vars, index) && acc.Valid()
    modifies acc.values
    ensures ok && t.sort.BitVec? ==> Adds(old(acc.values[..]), acc.values[..], coeff, Saturate(t), vars, t.sort.w)
    ensures ok ==> Linear(t, index)
    ensures ok <==> Coefficients(t, coeff, index).Some?
    ensures ok ==> acc.values[..] == AddAll(old(acc.values[..]), Coefficients(t, coeff, index).value)
    decreases t
  {
    hide WellSorted, Adds, TableOf, Saturate, Coefficients, AddAll;
    LinearSorts(t);
    CoefficientsIs(t, coeff, index);
    ghost var s0 := acc.values[..];
    if t.op.BvAdd? {
      ok := EvaluateLinearTerm(t.args[0], coeff, index, acc, vars);
      if ok {
        ok := EvaluateLinearTerm(t.args[1], coeff, index, acc, vars);
        if ok { AddAllTwice(s0, Coefficients(t.args[0], coeff, index).value, Coefficients(t.args[1], coeff, index).value); }
      }
    } else if t.op.BvSub? {
      ok := EvaluateLinearTerm(t.args[0], coeff, index, acc, vars);
      if ok {
        ok := EvaluateLinearTerm(t.args[1], -coeff, index, acc, vars);
        if ok { AddAllTwice(s0, Coefficients(t.args[0], coeff, index).value, Coefficients(t.args[1], -coeff, index).value); }
      }
    } else if t.op.BvMul? {
      var left, right := Scalar(t.args[0]), Scalar(t.args[1]);
      if left.Some? {
        ok := EvaluateLinearTerm(t.args[1], coeff * left.value, index, acc, vars);
      } else if right.Some? {
        ok := EvaluateLinearTerm(t.args[0], coeff * right.value, index, acc, vars);
      } else {
        ok := false;
      }
    } else {
      var table := TableOf(t, index);
      ok := table.Some?;
      if ok {
        var v := new LinearMbaVector.FromTruthTable(table.value, coeff);
        acc.Add(v);
      }
    }
    if ok && t.sort.BitVec? { CoefficientsAdd(t, coeff, index, vars, s0); }
  }

  lemma SaturateIs(t: Term)
    requires WellSorted(t)
    ensures t.op.BvAdd? ==> |t.args| == 2 && WellSorted(t.args[0]) && WellSorted(t.args[1])
                            && Saturate(t) == Term(BvAdd, [Saturate(t.args[0]), Saturate(t.args[1])], t.sort)
    ensures t.op.BvSub? ==> |t.args| == 2 && WellSorted(t.args[0]) && WellSorted(t.args[1])
                            && Saturate(t) == Term(BvSub, [Saturate(t.args[0]), Saturate(t.args[1])], t.sort)
    ensures t.op.BvMul? ==> |t.args| == 2 && WellSorted(t.args[0]) && WellSorted(t.args[1])
    ensures t.op.BvMul? && Scalar(t.args[0]).Some? ==> Saturate(t) == Term(BvMul, [t.args[0], Saturate(t.args[1])], t.sort)
    ensures t.op.BvMul? && Scalar(t.args[0]).None? && Scalar(t.args[1]).Some? ==>
      Saturate(t) == Term(BvMul, [Saturate(t.args[0]), t.args[1]], t.sort)
    ensures !t.op.BvAdd? && !t.op.BvSub? && !t.op.BvMul? ==> Saturate(t) == FullBits(t)
  {
    LinearSorts(t);
  }

  // ---------- variables ----------

  ghost function VarsOf(t: Term): set<Term> {
    if t.op.Var? then {t} else set k, v | 0 <= k < |t.args| && v in VarsOf(t.args[k]) :: v
  }

  ghost predicate Distinct(vars: seq<Term>) { forall i, j :: 0 <= i < j < |vars| ==> vars[i] != vars[j] }

  /** The list with the new variables of the first `k` arguments, in the order they are met. */
  ghost function CollectedFrom(t: Term, k: nat, vars: seq<Term>): seq<Term>
    requires k <= |t.args|
    decreases t, k
  {
    if k == 0 then vars else Collected(t.args[k - 1], CollectedFrom(t, k - 1, vars))
  }

  ghost function Collected(t: Term, vars: seq<Term>): seq<Term>
    decreases t, |t.args| + 1
  {
    if t.op.Var? then (if t in vars then vars else vars + [t]) else CollectedFrom(t, |t.args|, vars)
  }

  /** Appends the variables of the term that are not in the list, in the order they are met. */
  method CollectVars(t: Term, vars: seq<Term>) returns (r: seq<Term>)
    requires Distinct(vars)
    ensures r == Collected(t, vars)
    ensures Distinct(r) && forall v :: v in r <==> v in vars || v in VarsOf(t)
    decreases t
  {
    if t.op.Var? {
      r := if t in vars then vars else vars + [t];
      return;
    }
    r := vars;
    var k := 0;
    while k < |t.args|
      invariant k <= |t.args| && Distinct(r) && r == CollectedFrom(t, k, vars)
      invariant forall v :: v in r <==> v in vars || exists j :: 0 <= j < k && v in VarsOf(t.args[j])
    {
      ghost var before := r;
      r := CollectVars(t.args[k], r);
      forall v ensures v in r <==> v in vars || exists j :: 0 <= j < k + 1 && v in VarsOf(t.args[j]) {
        if v in before && v !in vars { var j :| 0 <= j < k && v in VarsOf(t.args[j]); }
      }
      k := k + 1;
    }
  }

  /** The terms the evaluator accepts. */
  ghost predicate Linear(t: Term, index: map<Term, nat>)
    requires WellSorted(t)
  {
    LinearSorts(t);
    match t.op
    case BvAdd => Linear(t.args[0], index) && Linear(t.args[1], index)
    case BvSub => Linear(t.args[0], index) && Linear(t.args[1], index)
    case BvMul =>
      if Scalar(t.args[0]).Some? then Linear(t.args[1], index)
      else Scalar(t.args[1]).Some? && Linear(t.args[0], index)
    case _ => TableOf(t, index).Some?
  }

  /** All variables are of the sort of the term. */
  ghost predicate VarsOfSort(t: Term) {
    forall v :: v in VarsOf(t) ==> v.op.Var? && v.sort == t.sort && WellSorted(v)
  }

  lemma VarsOfPair(t: Term)
    requires |t.args| == 2 && t.args[0].sort == t.sort && t.args[1].sort == t.sort && !t.op.Var?
    requires VarsOfSort(t.args[0]) && VarsOfSort(t.args[1])
    ensures VarsOfSort(t)
  {
  }

  lemma VarsOfNegation(t: Term)
    requires |t.args| == 1 && t.args[0].sort == t.sort && !t.op.Var? && VarsOfSort(t.args[0])
    ensures VarsOfSort(t)
  {
  }

  lemma {:induction false} TableVars(t: Term, index: map<Term, nat>)
    requires WellSorted(t) && TableOf(t, index).Some? && forall v :: v in index ==> v.op.Var?
    ensures VarsOfSort(t)
    decreases t
  {
    hide AndTable, OrTable, XorTable, NotTable, WellSorted, VarsOfSort;
    ArgSorts(t);
    if t in index {
      OneVar(t);
    } else if t.op.BvConst? {
      NoVars(t);
    } else if t.op.BvNot? {
      TableVars(t.args[0], index);
      VarsOfNegation(t);
    } else {
      TableVars(t.args[0], index);
      TableVars(t.args[1], index);
      VarsOfPair(t);
    }
  }

  lemma OneVar(t: Term)
    requires t.op.Var? && WellSorted(t)
    ensures VarsOfSort(t)
  {
  }

  lemma NoVars(t: Term)
    requires WellSorted(t) && t.op.BvConst?
    ensures VarsOf(t) == {} && VarsOfSort(t)
  {
  }

  lemma {:induction false} LinearVars(t: Term, index: map<Term, nat>)
    requires WellSorted(t) && Linear(t, index) && forall v :: v in index ==> v.op.Var?
    ensures VarsOfSort(t)
    ensures t.sort.BitVec? || t.op.Var?
    decreases t
  {
    hide WellSorted, VarsOfSort, TableOf;
    LinearSorts(t);
    if t.op.BvAdd? || t.op.BvSub? {
      LinearVars(t.args[0], index);
      LinearVars(t.args[1], index);
      VarsOfPair(t);
    } else if t.op.BvMul? {
      var k := if Scalar(t.args[0]).Some? then 0 else 1;
      NoVars(t.args[k]);
      LinearVars(t.args[1 - k], index);
      VarsOfPair(t);
    } else {
      TableVars(t, index);
      TableSort(t, index);
    }
  }

  lemma TableSort(t: Term, index: map<Term, nat>)
    requires WellSorted(t) && TableOf(t, index).Some? && forall v :: v in index ==> v.op.Var?
    ensures t.sort.BitVec? || t.op.Var?
  {
    hide AndTable, OrTable, XorTable, NotTable;
  }

  // ---------- targets ----------

  ghost function Zeros(): seq<int> { Scaled(ZERO, 0) }

  lemma ZerosFacts(t: Table, coeff: int)
    ensures |Zeros()| == 16 && AddAll(Zeros(), Scaled(t, coeff)) == Scaled(t, coeff)
    ensures Scaled(ZERO, coeff) == Zeros()
  {
    hide Entry;
    forall k: nat | k < 16 ensures !Entry(ZERO, k) { Projections(k); }
    assert AddAll(Zeros(), Scaled(t, coeff)) == Scaled(t, coeff);
  }

  lemma SubScaled(a: seq<int>, t: Table)
    requires |a| == 16
    ensures SubAll(a, Scaled(t, 1)) == AddAll(a, Scaled(t, -1))
  {
    hide Entry;
  }

  /** Terms of equal coefficients are equal words. */
  lemma SameCoefficients(values: seq<int>, a: Term, b: Term, vars: seq<Term>, w: nat, i: Interp)
    requires Adds(Zeros(), values, 1, a, vars, w) && Adds(Zeros(), values, 1, b, vars, w) && Fits(i)
    ensures Eval(a, i) == Eval(b, i)
  {
    hide WordSum, WellSorted, Cong, Indices, Scaled, Adds, BV.Value, BV.Pow2;
    AddsAt(Zeros(), values, 1, a, vars, w, i);
    AddsAt(Zeros(), values, 1, b, vars, w, i);
    var x, y, z, m := BV.Value(Word(a, i)), BV.Value(Word(b, i)), WordSum(Zeros(), Indices(vars, i, w)), BV.Pow2(w);
    var s := WordSum(values, Indices(vars, i, w));
    CongEquivalence(s, z + x, s, m);
    CongEquivalence(z + x, s, z + y, m);
    CongEquivalence(z, z, z, m);
    CongSum(z + x, z + y, z, z, m);
    CongInRange(x, y, m);
    BV.ValueInjective(Word(a, i), Word(b, i));
  }

  /** A bitwise term without constants other than zero is its own target. */
  lemma BitwiseTarget(u: Term, index: map<Term, nat>, vars: seq<Term>, w: nat)
    requires WellSorted(u) && u.sort == BitVec(w) && Numbered(vars, index) && TableOf(u, index).Some? && FullBits(u) == u
    ensures Adds(Zeros(), Scaled(TableOf(u, index).value, 1), 1, u, vars, w)
  {
    hide Adds, TableOf, FullBits;
    BitsAdd(Zeros(), u, index, 1, vars, w);
    ZerosFacts(TableOf(u, index).value, 1);
  }

  ghost predicate VarAt(x: Term, k: nat, index: map<Term, nat>, w: nat) {
    x.op.Var? && x.sort == BitVec(w) && WellSorted(x) && x in index && index[x] == k
  }

  lemma VariableTables(x: Term, y: Term, index: map<Term, nat>, w: nat)
    requires VarAt(x, 0, index, w) && VarAt(y, 1, index, w)
    ensures TableOf(x, index) == Some(VAR0) && TableOf(y, index) == Some(VAR1) && FullBits(x) == x && FullBits(y) == y
  {
  }

  /** x + y, x - y and y - x. */
  lemma SumTargets(x: Term, y: Term, index: map<Term, nat>, vars: seq<Term>, w: nat)
    requires Numbered(vars, index) && VarAt(x, 0, index, w) && VarAt(y, 1, index, w)
    ensures Adds(Zeros(), AddAll(Scaled(VAR0, 1), Scaled(VAR1, 1)), 1, Term(BvAdd, [x, y], BitVec(w)), vars, w)
    ensures Adds(Zeros(), SubAll(Scaled(VAR0, 1), Scaled(VAR1, 1)), 1, Term(BvSub, [x, y], BitVec(w)), vars, w)
    ensures Adds(Zeros(), SubAll(Scaled(VAR1, 1), Scaled(VAR0, 1)), 1, Term(BvSub, [y, x], BitVec(w)), vars, w)
  {
    hide Adds, TableOf, FullBits, Entry;
    VariableTables(x, y, index, w);
    BitwiseTarget(x, index, vars, w);
    BitwiseTarget(y, index, vars, w);
    var sx, sy := Scaled(VAR0, 1), Scaled(VAR1, 1);
    BitsAdd(sx, y, index, 1, vars, w);
    BitsAdd(sx, y, index, -1, vars, w);
    BitsAdd(sy, x, index, -1, vars, w);
    SubScaled(sx, VAR1);
    SubScaled(sy, VAR0);
    SumAdds(Zeros(), sx, AddAll(sx, sy), 1, x, y, false, vars, w);
    SumAdds(Zeros(), sx, SubAll(sx, sy), 1, x, y, true, vars, w);
    SumAdds(Zeros(), sy, SubAll(sy, sx), 1, y, x, true, vars, w);
  }

  /** x ^ y, x & y and x | y. */
  lemma BitTargets(x: Term, y: Term, index: map<Term, nat>, vars: seq<Term>, w: nat)
    requires Numbered(vars, index) && VarAt(x, 0, index, w) && VarAt(y, 1, index, w)
    ensures Adds(Zeros(), Scaled(XorTable(VAR0, VAR1), 1), 1, Term(BvXor, [x, y], BitVec(w)), vars, w)
    ensures Adds(Zeros(), Scaled(AndTable(VAR0, VAR1), 1), 1, Term(BvAnd, [x, y], BitVec(w)), vars, w)
    ensures Adds(Zeros(), Scaled(OrTable(VAR0, VAR1), 1), 1, Term(BvOr, [x, y], BitVec(w)), vars, w)
  {
    hide Adds, Entry, Scaled, AndTable, OrTable, XorTable;
    PairTarget(BvXor, x, y, index, w);
    PairTarget(BvAnd, x, y, index, w);
    PairTarget(BvOr, x, y, index, w);
    BitwiseTarget(Term(BvXor, [x, y], BitVec(w)), index, vars, w);
    BitwiseTarget(Term(BvAnd, [x, y], BitVec(w)), index, vars, w);
    BitwiseTarget(Term(BvOr, [x, y], BitVec(w)), index, vars, w);
  }

  lemma PairTarget(op: Op, x: Term, y: Term, index: map<Term, nat>, w: nat)
    requires VarAt(x, 0, index, w) && VarAt(y, 1, index, w) && (op.BvXor? || op.BvAnd? || op.BvOr?)
    requires forall v :: v in index ==> v.op.Var?
    ensures var u := Term(op, [x, y], BitVec(w));
            && WellSorted(u) && FullBits(u) == u
            && TableOf(u, index) == Some(if op.BvXor? then XorTable(VAR0, VAR1) else if op.BvAnd? then AndTable(VAR0, VAR1) else OrTable(VAR0, VAR1))
  {
    hide AndTable, OrTable, XorTable, NotTable;
    BinopSorted(op, x, y, BitVec(w));
    VariableTables(x, y, index, w);
    var u := Term(op, [x, y], BitVec(w));
    assert u !in index;
  }

  lemma ZeroTarget(index: map<Term, nat>, vars: seq<Term>, w: nat)
    requires Numbered(vars, index)
    ensures WellSorted(BvConstant(0, w)) && Adds(Zeros(), Zeros(), 1, BvConstant(0, w), vars, w)
  {
    hide Adds, Entry;
    var u := BvConstant(0, w);
    ZeroModulo(BV.Pow2(w));
    NumberedVars(vars, index);
    assert TableOf(u, index) == Some(ZERO) && FullBits(u) == u;
    BitwiseTarget(u, index, vars, w);
    ZerosFacts(ZERO, 1);
  }

  lemma ZeroModulo(m: nat)
    requires m > 0
    ensures 0 % m == 0
  {
  }

  // ---------- simplification ----------

  /** Every variable with its position. */
  ghost function Numbering(vars: seq<Term>): map<Term, nat>
    requires Distinct(vars)
  {
    map k | 0 <= k < |vars| :: vars[k] := k
  }

  method NumberVars(vars: seq<Term>) returns (index: map<Term, nat>)
    requires Distinct(vars) && forall v :: v in vars ==> v.op.Var?
    ensures Numbered(vars, index) && index == Numbering(vars)
  {
    index := map[];
    var i := 0;
    while i < |vars|
      invariant i <= |vars|
      invariant forall k :: 0 <= k < i ==> vars[k] in index && index[vars[k]] == k
      invariant forall t :: t in index ==> index[t] < i && vars[index[t]] == t
    {
      assert vars[i] !in index;
      index := index[vars[i] := i];
      i := i + 1;
    }
  }

  /** The result means what the evaluator took the term for, in every interpretation. */
  ghost predicate Means(u: Term, t: Term)
    requires WellSorted(t)
  {
    && t.sort.BitVec? && WellSorted(Saturate(t)) && WellSorted(u) && u.sort == t.sort
    && forall i :: Fits(i) ==> Eval(u, i) == Eval(Saturate(t), i)
  }

  lemma MeansIntro(values: seq<int>, u: Term, t: Term, vars: seq<Term>, w: nat)
    requires WellSorted(t) && t.sort == BitVec(w)
    requires Adds(Zeros(), values, 1, Saturate(t), vars, w) && Adds(Zeros(), values, 1, u, vars, w)
    ensures Means(u, t)
  {
    hide Adds, Saturate, WellSorted, Eval;
    AddsShape(Zeros(), values, 1, Saturate(t), vars, w);
    AddsShape(Zeros(), values, 1, u, vars, w);
    forall i | Fits(i) ensures Eval(u, i) == Eval(Saturate(t), i) { SameCoefficients(values, u, Saturate(t), vars, w, i); }
  }

  /** One of the nine simpler terms over the two variables. */
  predicate OneOfNine(u: Term, x: Term, y: Term) {
    || u == Term(BvAdd, [x, y], x.sort) || u == Term(BvSub, [x, y], x.sort) || u == Term(BvSub, [y, x], x.sort)
    || u == Term(BvXor, [x, y], x.sort) || u == Term(BvAnd, [x, y], x.sort) || u == Term(BvOr, [x, y], x.sort)
    || u == x || u == y || (x.sort.BitVec? && u == Term(BvConst(0, x.sort.w), [], x.sort))
  }

  /** The first of them with the coefficients. */
  ghost function TargetFor(values: seq<int>, x: Term, y: Term): Option<Term>
    requires x.sort.BitVec?
  {
    if values == AddAll(Scaled(VAR0, 1), Scaled(VAR1, 1)) then Some(Term(BvAdd, [x, y], x.sort))
    else if values == SubAll(Scaled(VAR0, 1), Scaled(VAR1, 1)) then Some(Term(BvSub, [x, y], x.sort))
    else if values == SubAll(Scaled(VAR1, 1), Scaled(VAR0, 1)) then Some(Term(BvSub, [y, x], x.sort))
    else if values == Scaled(XorTable(VAR0, VAR1), 1) then Some(Term(BvXor, [x, y], x.sort))
    else if values == Scaled(AndTable(VAR0, VAR1), 1) then Some(Term(BvAnd, [x, y], x.sort))
    else if values == Scaled(OrTable(VAR0, VAR1), 1) then Some(Term(BvOr, [x, y], x.sort))
    else if values == Scaled(VAR0, 1) then Some(x)
    else if values == Scaled(VAR1, 1) then Some(y)
    else if values == Scaled(ZERO, 0) then Some(Term(BvConst(0, x.sort.w), [], x.sort))
    else None
  }

  /** The term has two variables, and is linear: with these coefficients. */
  ghost function PairCoefficients(t: Term): (c: Option<seq<int>>)
    requires WellSorted(t)
    ensures c.Some? ==> |c.value| == 16 && |Collected(t, [])| == 2
  {
    var vars := Collected(t, []);
    if |vars| == 2 && Distinct(vars) then Coefficients(t, 1, Numbering(vars)) else None
  }

  /** What the term is simplified to, its variables being taken in the order they occur. */
  ghost function Simplified(t: Term): Option<Term>
    requires WellSorted(t)
  {
    var c := PairCoefficients(t);
    var vars := Collected(t, []);
    if c.Some? && vars[0].sort.BitVec? then TargetFor(c.value, vars[0], vars[1]) else None
  }

  /** One of nine simpler terms over the two variables with the same coefficients, if there is one. */
  method Simplify(t: Term) returns (u: Option<Term>)
    requires WellSorted(t)
    ensures u == Simplified(t)
    ensures u.Some? ==> |Collected(t, [])| == 2 && OneOfNine(u.value, Collected(t, [])[0], Collected(t, [])[1])
    ensures u.Some? ==> Means(u.value, t)
  {
    hide WellSorted, Adds, Linear, Saturate, Numbered, Means, VarsOfSort, TableOf, AndTable, OrTable, XorTable,
      Collected, Coefficients, TargetFor, OneOfNine, AddAll;
    var vars := CollectVars(t, []);
    if |vars| == 0 || |vars| > 4 { return None; }
    AllVars(t);
    var index := NumberVars(vars);
    var vec := new LinearMbaVector.Zero();
    ZerosFacts(ZERO, 0);
    var ok := EvaluateLinearTerm(t, 1, index, vec, vars);
    if !ok { return None; }
    AddAllZeros(Coefficients(t, 1, index).value);
    if |vars| != 2 { return None; }
    var x, y := vars[0], vars[1];
    NumberedVars(vars, index);
    LinearVars(t, index);
    TwoVars(t, vars, index);
    u := MatchTarget(vec, x, y, t, index, vars);
  }

  lemma TargetIsOne(values: seq<int>, x: Term, y: Term)
    requires x.sort.BitVec? && TargetFor(values, x, y).Some?
    ensures OneOfNine(TargetFor(values, x, y).value, x, y)
  {
    hide AddAll, SubAll, Scaled, AndTable, OrTable, XorTable;
  }

  lemma AddAllZeros(c: seq<int>)
    requires |c| == 16
    ensures AddAll(Scaled(ZERO, 0), c) == c
  {
  }

  /** Compares the coefficients with those of the nine targets in turn. */
  method MatchTarget(vec: LinearMbaVector, x: Term, y: Term, ghost t: Term, ghost index: map<Term, nat>, ghost vars: seq<Term>)
    returns (u: Option<Term>)
    requires vec.Valid() && WellSorted(t) && t.sort.BitVec? && Numbered(vars, index)
    requires VarAt(x, 0, index, t.sort.w) && VarAt(y, 1, index, t.sort.w)
    requires Adds(Zeros(), vec.values[..], 1, Saturate(t), vars, t.sort.w)
    ensures x.sort.BitVec? && u == TargetFor(vec.values[..], x, y)
    ensures u.Some? ==> OneOfNine(u.value, x, y) && Means(u.value, t)
  {
    hide WellSorted, Adds, Saturate, Numbered, Means, VarAt, AndTable, OrTable, XorTable, Scaled, OneOfNine;
    ghost var w := t.sort.w;
    SortsAt(x, y, index, w);
    if TargetFor(vec.values[..], x, y).Some? { TargetIsOne(vec.values[..], x, y); }
    SumTargets(x, y, index, vars, w);
    BitTargets(x, y, index, vars, w);
    ZeroTarget(index, vars, w);
    VariableTargets(x, y, index, vars, w);
    var vecX := new LinearMbaVector.FromTruthTable(VAR0, 1);
    var vecY := new LinearMbaVector.FromTruthTable(VAR1, 1);
    var sum := new LinearMbaVector.FromTruthTable(VAR0, 1);
    sum.Add(vecY);
    if vec.values[..] == sum.values[..] {
      MeansIntro(vec.values[..], Term(BvAdd, [x, y], x.sort), t, vars, w);
      return BvBinop(BvAdd, x, y);
    }
    var difference := new LinearMbaVector.FromTruthTable(VAR0, 1);
    difference.Sub(vecY);
    if vec.values[..] == difference.values[..] {
      MeansIntro(vec.values[..], Term(BvSub, [x, y], x.sort), t, vars, w);
      return BvBinop(BvSub, x, y);
    }
    var reverse := new LinearMbaVector.FromTruthTable(VAR1, 1);
    reverse.Sub(vecX);
    if vec.values[..] == reverse.values[..] {
      MeansIntro(vec.values[..], Term(BvSub, [y, x], x.sort), t, vars, w);
      return BvBinop(BvSub, y, x);
    }
    var xor := new LinearMbaVector.FromTruthTable(XorTable(VAR0, VAR1), 1);
    if vec.values[..] == xor.values[..] {
      MeansIntro(vec.values[..], Term(BvXor, [x, y], x.sort), t, vars, w);
      return BvBinop(BvXor, x, y);
    }
    var and := new LinearMbaVector.FromTruthTable(AndTable(VAR0, VAR1), 1);
    if vec.values[..] == and.values[..] {
      MeansIntro(vec.values[..], Term(BvAnd, [x, y], x.sort), t, vars, w);
      return BvBinop(BvAnd, x, y);
    }
    var or := new LinearMbaVector.FromTruthTable(OrTable(VAR0, VAR1), 1);
    if vec.values[..] == or.values[..] {
      MeansIntro(vec.values[..], Term(BvOr, [x, y], x.sort), t, vars, w);
      return BvBinop(BvOr, x, y);
    }
    if vec.values[..] == vecX.values[..] {
      MeansIntro(vec.values[..], x, t, vars, w);
      return Some(x);
    }
    if vec.values[..] == vecY.values[..] {
      MeansIntro(vec.values[..], y, t, vars, w);
      return Some(y);
    }
    var zero := new LinearMbaVector.Zero();
    if vec.values[..] == zero.values[..] {
      MeansIntro(vec.values[..], BvConstant(0, w), t, vars, w);
      var width := if x.sort.BitVec? then x.sort.w else 32;
      return Some(BvConstant(0, width));
    }
    return None;
  }

  lemma SortsAt(x: Term, y: Term, index: map<Term, nat>, w: nat)
    requires VarAt(x, 0, index, w) && VarAt(y, 1, index, w)
    ensures x.sort == BitVec(w) && y.sort == BitVec(w) && BvConstant(0, w) == Term(BvConst(0, w), [], BitVec(w))
  {
    ZeroModulo(BV.Pow2(w));
  }

  lemma AllVars(t: Term)
    ensures forall v :: v in VarsOf(t) ==> v.op.Var?
    decreases t
  {
    if !t.op.Var? {
      forall k | 0 <= k < |t.args| ensures forall v :: v in VarsOf(t.args[k]) ==> v.op.Var? { AllVars(t.args[k]); }
    }
  }

  lemma TwoVars(t: Term, vars: seq<Term>, index: map<Term, nat>)
    requires WellSorted(t) && |vars| == 2 && Distinct(vars) && Numbered(vars, index) && VarsOfSort(t) && (t.sort.BitVec? || t.op.Var?)
    requires forall v :: v in vars <==> v in VarsOf(t)
    ensures t.sort.BitVec? && VarAt(vars[0], 0, index, t.sort.w) && VarAt(vars[1], 1, index, t.sort.w)
  {
    assert vars[0] in VarsOf(t) && vars[1] in VarsOf(t);
  }

  lemma VariableTargets(x: Term, y: Term, index: map<Term, nat>, vars: seq<Term>, w: nat)
    requires Numbered(vars, index) && VarAt(x, 0, index, w) && VarAt(y, 1, index, w)
    ensures Adds(Zeros(), Scaled(VAR0, 1), 1, x, vars, w) && Adds(Zeros(), Scaled(VAR1, 1), 1, y, vars, w)
    ensures x.sort == BitVec(w) && y.sort == BitVec(w)
  {
    hide Adds, TableOf, FullBits, Scaled;
    VariableTables(x, y, index, w);
    BitwiseTarget(x, index, vars, w);
    BitwiseTarget(y, index, vars, w);
  }

  // ---------- when the result is equal to the term itself ----------

  /** Constants other than multipliers are 0 or all ones. */
  ghost predicate PlainConstants(t: Term)
    requires WellSorted(t)
  {
    LinearSorts(t);
    match t.op
    case BvAdd => PlainConstants(t.args[0]) && PlainConstants(t.args[1])
    case BvSub => PlainConstants(t.args[0]) && PlainConstants(t.args[1])
    case BvMul =>
      if Scalar(t.args[0]).Some? then PlainConstants(t.args[1])
      else if Scalar(t.args[1]).Some? then PlainConstants(t.args[0])
      else true
    case _ => ConstsFull(t)
  }

  lemma {:induction false} FullBitsSame(t: Term)
    requires WellSorted(t) && ConstsFull(t)
    ensures FullBits(t) == t
    decreases t
  {
    ArgSorts(t);
    if t.op.BvNot? {
      FullBitsSame(t.args[0]);
      assert t.args == [t.args[0]];
    } else if t.op.BvAnd? || t.op.BvOr? || t.op.BvXor? {
      FullBitsSame(t.args[0]);
      FullBitsSame(t.args[1]);
      assert t.args == [t.args[0], t.args[1]];
    }
  }

  lemma {:induction false} SaturateSame(t: Term)
    requires WellSorted(t) && PlainConstants(t)
    ensures Saturate(t) == t
    decreases t
  {
    hide WellSorted;
    LinearSorts(t);
    if t.op.BvAdd? || t.op.BvSub? {
      SaturateSame(t.args[0]);
      SaturateSame(t.args[1]);
      assert t.args == [t.args[0], t.args[1]];
    } else if t.op.BvMul? {
      if Scalar(t.args[0]).Some? { SaturateSame(t.args[1]); } else if Scalar(t.args[1]).Some? { SaturateSame(t.args[0]); }
      assert t.args == [t.args[0], t.args[1]];
    } else {
      FullBitsSame(t);
    }
  }

  /** The simplified term has the value of the original in every interpretation exactly when filling
      the constants does not change the original; it never does when they are 0 or all ones. */
  lemma SimplifyMeaning(t: Term, u: Term)
    requires WellSorted(t) && Means(u, t)
    ensures (forall i :: Fits(i) ==> Eval(u, i) == Eval(t, i)) <==> (forall i :: Fits(i) ==> Eval(Saturate(t), i) == Eval(t, i))
    ensures PlainConstants(t) ==> forall i :: Fits(i) ==> Eval(u, i) == Eval(t, i)
  {
    hide Eval, Saturate, PlainConstants;
    if PlainConstants(t) { SaturateSame(t); }
    if forall i :: Fits(i) ==> Eval(u, i) == Eval(t, i) {
      forall i | Fits(i) ensures Eval(Saturate(t), i) == Eval(t, i) { assert Eval(u, i) == Eval(Saturate(t), i); }
    }
    if forall i :: Fits(i) ==> Eval(Saturate(t), i) == Eval(t, i) {
      forall i | Fits(i) ensures Eval(u, i) == Eval(t, i) { assert Eval(u, i) == Eval(Saturate(t), i); }
    }
  }

  /** Every word all ones. */
  ghost function OnesInterp(): (i: Interp)
    ensures Fits(i)
  {
    Interp((n: nat, s: Sort) => if s.BitVec? then W(BV.Fill(s.w, true)) else ZeroValue(s), (t: nat, s: Sort, vs: seq<Val>) => ZeroValue(s))
  }

  lemma PowerOfEight()
    ensures BV.Pow2(8) == 256
  {
    assert BV.Pow2(4) == 16;
    assert BV.Pow2(8) == 16 * BV.Pow2(4) by { BV.Pow2Add(4, 4); }
  }

  lemma AndOnes(bits: seq<bool>)
    ensures BV.AndBits(BV.Fill(|bits|, true), bits) == bits
  {
  }

  /** `(x & c) + y` when all bits of `x` and `y` are ones: the sum of `c` and 255. */
  lemma SumWithOnes(x: Term, y: Term, c: nat)
    requires WellSorted(x) && WellSorted(y) && x.op.Var? && y.op.Var? && x.sort == y.sort == BitVec(8) && c < 256
    ensures
      var one := Term(BvConst(c, 8), [], BitVec(8));
      var t := Term(BvAdd, [Term(BvAnd, [x, one], BitVec(8)), y], BitVec(8));
      WellSorted(t) && BV.Value(Word(t, OnesInterp())) == (c + 255) % 256
  {
    hide Word, OnesInterp, BV.Value, BV.AndBits, BV.ToBits;
    PowerOfEight();
    var i := OnesInterp();
    var one := Term(BvConst(c, 8), [], BitVec(8));
    var masked := Term(BvAnd, [x, one], BitVec(8));
    var t := Term(BvAdd, [masked, y], BitVec(8));
    assert WellSorted(one);
    BinopSorted(BvAnd, x, one, BitVec(8));
    BinopSorted(BvAdd, masked, y, BitVec(8));
    OnesWord(x);
    OnesWord(y);
    WordOfConstant(one, i);
    WordBinary(masked, i);
    AndOnes(Word(one, i));
    WordBinary(t, i);
    BV.ValueAllTrue(BV.Fill(8, true));
  }

  lemma OnesWord(x: Term)
    requires WellSorted(x) && x.op.Var? && x.sort.BitVec?
    ensures Word(x, OnesInterp()) == BV.Fill(x.sort.w, true)
  {
    EvalIs(x, OnesInterp());
  }

  /** `(x & 1) + y` */
  ghost function WithOne(x: Term, y: Term): Term {
    Term(BvAdd, [Term(BvAnd, [x, Term(BvConst(1, 8), [], BitVec(8))], BitVec(8)), y], BitVec(8))
  }

  lemma CollectedPair(x: Term, y: Term)
    requires x.op.Var? && y.op.Var? && x != y
    ensures Collected(WithOne(x, y), []) == [x, y]
  {
    var one := Term(BvConst(1, 8), [], BitVec(8));
    var masked := Term(BvAnd, [x, one], BitVec(8));
    assert Collected(one, [x]) == [x];
    assert CollectedFrom(masked, 1, []) == [x];
    assert CollectedFrom(masked, 2, []) == [x];
    assert Collected(masked, []) == [x];
    assert CollectedFrom(WithOne(x, y), 1, []) == [x];
    assert CollectedFrom(WithOne(x, y), 2, []) == Collected(y, [x]) == [x, y];
  }

  lemma VarOnes()
    ensures AndTable(VAR0, ONE) == VAR0
  {
  }

  lemma MaskedTable(x: Term, index: map<Term, nat>)
    requires x.op.Var? && WellSorted(x) && x in index && index[x] == 0 && forall v :: v in index ==> v.op.Var?
    requires WellSorted(Term(BvAnd, [x, Term(BvConst(1, 8), [], BitVec(8))], BitVec(8)))
    ensures TableOf(Term(BvAnd, [x, Term(BvConst(1, 8), [], BitVec(8))], BitVec(8)), index) == Some(VAR0)
  {
    hide AndTable, OrTable, XorTable, NotTable, WellSorted;
    var masked := Term(BvAnd, [x, Term(BvConst(1, 8), [], BitVec(8))], BitVec(8));
    ArgSorts(masked);
    assert masked !in index && masked.args[1] !in index;
    VarOnes();
  }

  lemma WithOneCoefficients(x: Term, y: Term)
    requires WellSorted(x) && WellSorted(y) && x.op.Var? && y.op.Var? && x.sort == y.sort == BitVec(8) && x != y
    ensures WellSorted(WithOne(x, y))
    ensures Coefficients(WithOne(x, y), 1, Numbering([x, y])) == Some(AddAll(Scaled(VAR0, 1), Scaled(VAR1, 1)))
  {
    hide TableOf, Scaled, AddAll, WellSorted, Coefficients;
    SumWithOnes(x, y, 1);
    var index := Numbering([x, y]);
    var t := WithOne(x, y);
    LinearSorts(t);
    assert index[[x, y][0]] == 0 && index[[x, y][1]] == 1;
    MaskedTable(x, index);
    SecondTable(y, index);
    CoefficientsIs(t, 1, index);
    CoefficientsIs(t.args[0], 1, index);
    CoefficientsIs(y, 1, index);
  }

  lemma SecondTable(y: Term, index: map<Term, nat>)
    requires WellSorted(y) && y in index && index[y] == 1
    ensures TableOf(y, index) == Some(VAR1)
  {
  }

  /** The constant 1 counts as all ones: `(x & 1) + y` is linear with the coefficients of `x + y`, and
      whatever it is simplified to has another value when all bits of `x` and `y` are ones. */
  lemma OneIsNotAllOnes(x: Term, y: Term)
    requires WellSorted(x) && WellSorted(y) && x.op.Var? && y.op.Var? && x.sort == y.sort == BitVec(8) && x != y
    ensures WellSorted(WithOne(x, y)) && Simplified(WithOne(x, y)) == Some(Term(BvAdd, [x, y], BitVec(8)))
    ensures forall u :: Means(u, WithOne(x, y)) ==> Eval(u, OnesInterp()) != Eval(WithOne(x, y), OnesInterp())
  {
    hide Word, OnesInterp, BV.Value, Coefficients, Collected, Scaled, AddAll, WellSorted, Eval;
    SumWithOnes(x, y, 1);
    SumWithOnes(x, y, 255);
    CollectedPair(x, y);
    WithOneCoefficients(x, y);
    SaturateOne(x, y);
    var t := WithOne(x, y);
    forall u | Means(u, t) ensures Eval(u, OnesInterp()) != Eval(t, OnesInterp()) {
      assert Eval(Saturate(t), OnesInterp()) == W(Word(Saturate(t), OnesInterp()));
      assert Eval(t, OnesInterp()) == W(Word(t, OnesInterp()));
    }
  }

  lemma SaturateOne(x: Term, y: Term)
    requires WellSorted(WithOne(x, y)) && x.op.Var? && y.op.Var?
    ensures Saturate(WithOne(x, y)) ==
      Term(BvAdd, [Term(BvAnd, [x, Term(BvConst(255, 8), [], BitVec(8))], BitVec(8)), y], BitVec(8))
  {
    PowerOfEight();
    var masked := WithOne(x, y).args[0];
    ArgSorts(WithOne(x, y));
    LinearSorts(WithOne(x, y));
    FullBitsPair(masked);
    SaturateIs(WithOne(x, y));
  }
}
