/** The bit-blaster's walk over a term DAG: literals for the bits of every term it meets, cached
    per term, and the proof that the clauses say exactly what the terms mean. */
module BitBlasting {
  import opened Lits
  import opened GateCnf
  import opened BlastCircuits
  import opened BinaryFormat
  import opened Arenas
  import opened TermSemantics
  import opened ArgumentPairs
  import BV = BitVectors

  // ---------- what the variables of the solver stand for ----------

  /** A bit of a word, a truth value, or whether two terms are equal: what a variable without a
      definition stands for. */
  datatype Cell = BitOf(id: nat, k: nat) | TruthOf(id: nat) | Same(a: nat, b: nat)

  /** The arena, the undefined variables, the terms asserted, and the clauses so far. */
  datatype Context = Context(sorts: Sorts, terms: Terms, inputs: map<nat, Cell>, roots: set<nat>, f: Formula)

  ghost predicate CellOk(sorts: Sorts, terms: Terms, cell: Cell)
    requires ArenaOk(sorts, terms)
  {
    match cell
    case BitOf(id, k) => WordSort(sorts, terms, id) && k < SortOf(sorts, terms, id).width
    case TruthOf(id) => TruthSort(sorts, terms, id)
    case Same(a, b) => a < |terms| && b < |terms|
  }

  ghost predicate CellValue(sorts: Sorts, terms: Terms, cell: Cell, i: Interp)
    requires ArenaOk(sorts, terms) && CellOk(sorts, terms, cell) && Fits(i)
  {
    match cell
    case BitOf(id, k) => Eval(sorts, terms, id, i).bits[k]
    case TruthOf(id) => IsTrue(sorts, terms, id, i)
    case Same(a, b) => Eval(sorts, terms, a, i) == Eval(sorts, terms, b, i)
  }

  ghost predicate Scoped(c: Context) {
    ArenaOk(c.sorts, c.terms) && c.f.Wf() && forall v :: v in c.inputs ==> v < c.f.n && CellOk(c.sorts, c.terms, c.inputs[v])
  }

  /** A model of the clauses, and values of the terms' variables, that fit each other. */
  ghost predicate World(c: Context, m: Valuation, i: Interp) {
    && Scoped(c) && Fits(i) && ModelsAll(m, c.f.f)
    && forall v :: v in c.inputs ==> (v in m <==> CellValue(c.sorts, c.terms, c.inputs[v], i))
  }

  /** The literals are the bits of the word in every world. */
  ghost predicate MeansWord(c: Context, id: nat, bits: seq<Lit>) {
    && Scoped(c) && WordSort(c.sorts, c.terms, id) && |bits| == SortOf(c.sorts, c.terms, id).width && Below(bits, c.f.n)
    && forall m: Valuation, i: Interp :: World(c, m, i) ==> Eval(c.sorts, c.terms, id, i) == Word(Bits(m, bits))
  }

  ghost predicate MeansTruth(c: Context, id: nat, l: Lit) {
    && Scoped(c) && TruthSort(c.sorts, c.terms, id) && l.v < c.f.n
    && forall m: Valuation, i: Interp :: World(c, m, i) ==> (IsTrue(c.sorts, c.terms, id, i) <==> Holds(m, l))
  }

  ghost predicate MeansName(c: Context, name: seq<byte>, l: Lit) {
    && Scoped(c) && l.v < c.f.n
    && forall m: Valuation, i: Interp :: World(c, m, i) ==> i.vars(name, Sort.Bool) == Truth(Holds(m, l))
  }

  ghost predicate MeansSame(c: Context, a: nat, b: nat, l: Lit) {
    && Scoped(c) && a < |c.terms| && b < |c.terms| && l.v < c.f.n
    && forall m: Valuation, i: Interp :: World(c, m, i) ==>
      (Holds(m, l) <==> Eval(c.sorts, c.terms, a, i) == Eval(c.sorts, c.terms, b, i))
  }

  /** The interpretation makes the asserted terms true. */
  ghost predicate Rooted(sorts: Sorts, terms: Terms, roots: set<nat>, i: Interp) {
    ArenaOk(sorts, terms) && Fits(i) && forall r :: r in roots ==> r < |terms| && IsTrue(sorts, terms, r, i)
  }

  /** Every model of the base and all values of the terms' variables that make the asserted terms
      true are part of a world. */
  ghost predicate Realizable(c: Context, base: Formula) {
    && base.n <= c.f.n && (forall v :: v in c.inputs ==> base.n <= v)
    && forall m0: Valuation, i: Interp :: ModelsAll(m0, base.f) && Rooted(c.sorts, c.terms, c.roots, i) ==>
      exists m: Valuation :: World(c, m, i) && SameBelow(m0, m, base.n)
  }

  datatype Caches = Caches(words: map<nat, seq<Lit>>, truths: map<nat, Lit>, names: map<seq<byte>, Lit>)

  ghost predicate Cached(c: Context, k: Caches) {
    && Scoped(c)
    && (forall id :: id in k.words ==> MeansWord(c, id, k.words[id]))
    && (forall id :: id in k.truths ==> MeansTruth(c, id, k.truths[id]))
    && (forall name :: name in k.names ==> MeansName(c, name, k.names[name]))
  }

  ghost predicate RootsHold(c: Context) {
    forall m: Valuation, i: Interp :: World(c, m, i) ==> Rooted(c.sorts, c.terms, c.roots, i)
  }

  /** The clauses are exact: in every world cached literals have the values of their terms and the
      asserted terms are true, and no values of the variables that make them true are lost. */
  ghost predicate Exact(c: Context, k: Caches, base: Formula) {
    Cached(c, k) && Realizable(c, base) && RootsHold(c)
  }

  lemma RootsExtend(c: Context, c': Context)
    requires RootsHold(c) && Extends(c, c') && c'.roots == c.roots
    ensures RootsHold(c')
  {
    hide World, Rooted, Scoped;
  }

  // ---------- steps of the walk ----------

  /** The worlds of `c'` are worlds of `c`. */
  ghost predicate Extends(c: Context, c': Context) {
    && c'.sorts == c.sorts && c'.terms == c.terms && Scoped(c') && c.f.n <= c'.f.n
    && forall m: Valuation, i: Interp :: World(c', m, i) ==> World(c, m, i)
  }

  lemma ExtendsTrans(c: Context, d: Context, e: Context)
    requires Extends(c, d) && Extends(d, e)
    ensures Extends(c, e)
  {
  }

  lemma CachedExtends(c: Context, c': Context, k: Caches)
    requires Cached(c, k) && Extends(c, c')
    ensures Cached(c', k)
  {
    hide MeansWord, MeansTruth, MeansName, ArenaOk;
    forall id | id in k.words ensures MeansWord(c', id, k.words[id]) { WordExtends(c, c', id, k.words[id]); }
    forall id | id in k.truths ensures MeansTruth(c', id, k.truths[id]) { TruthExtends(c, c', id, k.truths[id]); }
    forall name | name in k.names ensures MeansName(c', name, k.names[name]) { NameExtends(c, c', name, k.names[name]); }
  }

  lemma WordExtends(c: Context, c': Context, id: nat, bits: seq<Lit>)
    requires MeansWord(c, id, bits) && Extends(c, c')
    ensures MeansWord(c', id, bits)
  {
    hide World, ArenaOk, Eval, Bits;
  }

  lemma TruthExtends(c: Context, c': Context, id: nat, l: Lit)
    requires MeansTruth(c, id, l) && Extends(c, c')
    ensures MeansTruth(c', id, l)
  {
    hide World, ArenaOk, Eval, Bits;
  }

  lemma NameExtends(c: Context, c': Context, name: seq<byte>, l: Lit)
    requires MeansName(c, name, l) && Extends(c, c')
    ensures MeansName(c', name, l)
  {
    hide World, ArenaOk, Eval, Bits;
  }

  lemma ScopedArena(c: Context)
    requires Scoped(c)
    ensures ArenaOk(c.sorts, c.terms) && c.f.Wf()
  {
  }

  /** Clauses that define fresh variables. */
  lemma Advance(c: Context, y: Formula, k: Caches, base: Formula)
    requires Exact(c, k, base) && Builds(c.f, y)
    ensures Exact(c.(f := y), k, base) && Extends(c, c.(f := y))
  {
    hide Cached, Realizable, World, RootsHold;
    assert Scoped(c) by { CachedScoped(c, k); }
    AdvanceWorlds(c, y);
    CachedExtends(c, c.(f := y), k);
    AdvanceRealizable(c, y, base);
    RootsExtend(c, c.(f := y));
  }

  lemma CachedScoped(c: Context, k: Caches)
    requires Cached(c, k)
    ensures Scoped(c)
  {
  }

  lemma AdvanceWorlds(c: Context, y: Formula)
    requires Scoped(c) && Builds(c.f, y)
    ensures Extends(c, c.(f := y))
  {
    hide ArenaOk, CellOk, CellValue, Fits;
  }

  lemma AdvanceRealizable(c: Context, y: Formula, base: Formula)
    requires Scoped(c) && Builds(c.f, y) && Realizable(c, base)
    ensures Realizable(c.(f := y), base)
  {
    hide ArenaOk, CellOk, CellValue, Fits, ModelsAll, Formula.Wf, Builds;
    var c' := c.(f := y);
    assert c.f.Wf();
    BuildsConservative(c.f, y);
    AdvanceWorlds(c, y);
    forall m0: Valuation, i: Interp | ModelsAll(m0, base.f) && Rooted(c.sorts, c.terms, c.roots, i)
      ensures exists m: Valuation :: World(c', m, i) && SameBelow(m0, m, base.n)
    {
      var m: Valuation :| World(c, m, i) && SameBelow(m0, m, base.n);
      var m': Valuation :| ModelsAll(m', y.f) && SameBelow(m, m', c.f.n);
      assert World(c', m', i);
      assert SameBelow(m0, m', base.n);
    }
  }

  /** The undefined variables from `n` on, for the cells. */
  ghost function InputsAt(n: nat, cells: seq<Cell>): map<nat, Cell> {
    map v: nat | n <= v < n + |cells| :: CellAt(n, cells, v)
  }

  ghost function CellAt(n: nat, cells: seq<Cell>, v: nat): Cell
    requires n <= v < n + |cells|
  {
    cells[v - n]
  }

  ghost function WithInputs(c: Context, cells: seq<Cell>): Context {
    Context(c.sorts, c.terms, c.inputs + InputsAt(c.f.n, cells), c.roots, Formula(c.f.n + |cells|, c.f.f))
  }

  /** Variables without clauses. */
  lemma AddInputs(c: Context, cells: seq<Cell>, k: Caches, base: Formula)
    requires Exact(c, k, base) && forall j :: 0 <= j < |cells| ==> CellOk(c.sorts, c.terms, cells[j])
    ensures Exact(WithInputs(c, cells), k, base) && Extends(c, WithInputs(c, cells))
  {
    hide Cached, Realizable, World, CellOk, ArenaOk, RootsHold;
    assert Scoped(c) by { CachedScoped(c, k); }
    InputsScoped(c, cells);
    InputWorlds(c, cells);
    CachedExtends(c, WithInputs(c, cells), k);
    InputsRealizable(c, cells, base);
    RootsExtend(c, WithInputs(c, cells));
  }

  lemma InputsScoped(c: Context, cells: seq<Cell>)
    requires Scoped(c) && forall j :: 0 <= j < |cells| ==> CellOk(c.sorts, c.terms, cells[j])
    ensures Scoped(WithInputs(c, cells))
  {
    hide CellOk, ArenaOk;
    var c' := WithInputs(c, cells);
    forall v | v in c'.inputs ensures v < c'.f.n && CellOk(c'.sorts, c'.terms, c'.inputs[v]) {
      if v < c.f.n { assert v in c.inputs; }
    }
  }

  lemma InputWorlds(c: Context, cells: seq<Cell>)
    requires Scoped(c) && Scoped(WithInputs(c, cells))
    ensures Extends(c, WithInputs(c, cells))
  {
    hide ArenaOk, CellOk, CellValue, Fits;
    var c' := WithInputs(c, cells);
    forall m: Valuation, i: Interp | World(c', m, i) ensures World(c, m, i) {
      forall v | v in c.inputs ensures v in m <==> CellValue(c.sorts, c.terms, c.inputs[v], i) {
        assert v in c'.inputs && c'.inputs[v] == c.inputs[v];
      }
    }
  }

  lemma InputsRealizable(c: Context, cells: seq<Cell>, base: Formula)
    requires Scoped(c) && Scoped(WithInputs(c, cells)) && Realizable(c, base)
    requires forall j :: 0 <= j < |cells| ==> CellOk(c.sorts, c.terms, cells[j])
    ensures Realizable(WithInputs(c, cells), base)
  {
    hide ArenaOk, CellOk, CellValue, Fits, ModelsAll;
    var c' := WithInputs(c, cells);
    forall m0: Valuation, i: Interp | ModelsAll(m0, base.f) && Rooted(c.sorts, c.terms, c.roots, i)
      ensures exists m: Valuation :: World(c', m, i) && SameBelow(m0, m, base.n)
    {
      var m: Valuation :| World(c, m, i) && SameBelow(m0, m, base.n);
      var n := c.f.n;
      var m' := iset v: nat | if n <= v < n + |cells| then CellValue(c.sorts, c.terms, cells[v - n], i) else v in m;
      assert SameBelow(m, m', n);
      UnmentionedKeeps(m, m', c.f);
      forall v | v in c'.inputs ensures v in m' <==> CellValue(c'.sorts, c'.terms, c'.inputs[v], i) {
        if v < n { assert v in c.inputs; } else { assert c'.inputs[v] == cells[v - n]; }
      }
      assert World(c', m', i);
      assert SameBelow(m0, m', base.n);
    }
  }

  lemma UnmentionedKeeps(m: Valuation, m': Valuation, f: Formula)
    requires f.Wf() && ModelsAll(m, f.f) && SameBelow(m, m', f.n)
    ensures ModelsAll(m', f.f)
  {
    forall c | c in f.f ensures SatClause(m', c) {
      var l :| l in c && Holds(m, l);
      assert Holds(m', l);
    }
  }

  lemma Start(sorts: Sorts, terms: Terms, f: Formula)
    requires ArenaOk(sorts, terms) && f.Wf()
    ensures Exact(Context(sorts, terms, map[], {}, f), Caches(map[], map[], map[]), f)
  {
    var c := Context(sorts, terms, map[], {}, f);
    forall m0: Valuation, i: Interp | ModelsAll(m0, f.f) && Rooted(sorts, terms, {}, i)
      ensures exists m: Valuation :: World(c, m, i) && SameBelow(m0, m, f.n)
    {
      assert World(c, m0, i) && SameBelow(m0, m0, f.n);
    }
  }

  // ---------- operators on literals ----------

  /** A literal is a bit of a sequence. */
  lemma BitsAppend(m: Valuation, a: seq<Lit>, b: seq<Lit>)
    ensures Bits(m, a + b) == Bits(m, a) + Bits(m, b)
  {
  }

  lemma BitsNegated(m: Valuation, a: seq<Lit>)
    ensures Bits(m, Negated(a)) == BV.NotBits(Bits(m, a))
  {
    forall k | 0 <= k < |a| ensures Bits(m, Negated(a))[k] == !Bits(m, a)[k] { HoldsNot(m, a[k]); }
  }

  lemma BitsRepeat(m: Valuation, n: nat, l: Lit)
    ensures Bits(m, Repeat(n, l)) == BV.Fill(n, Holds(m, l))
  {
  }

  lemma BitsSlice(m: Valuation, a: seq<Lit>, lo: nat, hi: nat)
    requires lo <= hi <= |a|
    ensures Bits(m, a[lo..hi]) == Bits(m, a)[lo..hi]
  {
  }

  /** A gate per bit. */
  method GateVec(op: Op, a: seq<Lit>, b: seq<Lit>, circuits: BitBlaster, solver: Sink) returns (r: seq<Lit>)
    requires circuits.Ready(solver) && Below(a, solver.numVars) && Below(b, solver.numVars) && |a| == |b|
    requires op.BvAnd? || op.BvOr? || op.BvXor?
    modifies solver
    ensures circuits.Ready(solver) && Builds(old(solver.State()), solver.State())
    ensures |r| == |a| && Below(r, solver.numVars)
    ensures forall m: Valuation :: ModelsAll(m, solver.clauses) ==> Bits(m, r) == BitwiseOn(op, Bits(m, a), Bits(m, b))
  {
    hide Grown, ModelsAll, Holds, Formula.Wf;
    GrownRefl(solver.State());
    r := [];
    for k := 0 to |a|
      invariant circuits.Ready(solver) && Builds(old(solver.State()), solver.State())
      invariant |r| == k && Below(r, solver.numVars)
      invariant forall m: Valuation :: ModelsAll(m, solver.clauses) ==> forall j :: 0 <= j < k ==>
        (Holds(m, r[j]) <==> BitGate(op, Holds(m, a[j]), Holds(m, b[j])))
    {
      assert a[k] in a && b[k] in b;
      var g;
      if op.BvAnd? {
        g := GateAnd(a[k], b[k], solver);
      } else if op.BvOr? {
        g := GateOr(a[k], b[k], solver);
      } else {
        g := GateXor(a[k], b[k], solver);
      }
      r := r + [g];
    }
  }

  predicate BitGate(op: Op, x: bool, y: bool) {
    if op.BvAnd? then x && y else if op.BvOr? then x || y else x != y
  }

  method RunBitwise(op: Op, a: seq<Lit>, b: seq<Lit>, circuits: BitBlaster, solver: Sink) returns (r: seq<Lit>)
    requires circuits.Ready(solver) && Below(a, solver.numVars) && Below(b, solver.numVars) && |a| == |b|
    requires Bitwise(op)
    modifies solver
    ensures circuits.Ready(solver) && Builds(old(solver.State()), solver.State())
    ensures |r| == |a| && Below(r, solver.numVars)
    ensures forall m: Valuation :: ModelsAll(m, solver.clauses) ==> Bits(m, r) == BitwiseOn(op, Bits(m, a), Bits(m, b))
  {
    hide Grown, ModelsAll, Holds, Formula.Wf, Bits;
    if op.BvAnd? || op.BvOr? || op.BvXor? {
      r := GateVec(op, a, b, circuits, solver);
    } else {
      var plain := if op.BvNand? then BvAnd else if op.BvNor? then BvOr else BvXor;
      var s := GateVec(plain, a, b, circuits, solver);
      r := Negated(s);
      NegatedBelow(s, solver.numVars);
      forall m: Valuation | ModelsAll(m, solver.clauses) ensures Bits(m, r) == BitwiseOn(op, Bits(m, a), Bits(m, b)) {
        BitsNegated(m, s);
      }
    }
  }

  predicate Shifts(op: Op) { op.BvShl? || op.BvLshr? || op.BvAshr? }

  method RunDivision(op: Op, a: seq<Lit>, b: seq<Lit>, circuits: BitBlaster, solver: Sink) returns (r: seq<Lit>)
    requires circuits.Ready(solver) && Below(a, solver.numVars) && Below(b, solver.numVars) && |a| == |b| > 0
    requires op.BvUdiv? || op.BvUrem? || op.BvSdiv? || op.BvSrem? || op.BvSmod?
    modifies circuits, solver
    ensures circuits.Ready(solver) && Builds(old(solver.State()), solver.State())
    ensures |r| == |a| && Below(r, solver.numVars)
    ensures forall m: Valuation :: ModelsAll(m, solver.clauses) ==> Val(m, r) == ArithmeticOn(op, Val(m, a), Val(m, b), |a|)
  {
    hide Grown, ModelsAll, Formula.Wf, Val, BV.Pow2, BV.BvAdd, BV.BvSub, BV.BvMul, BV.BvUdiv, BV.BvUrem, BV.BvSdiv, BV.BvSrem,
      BV.BvSmod, BV.BvShl, BV.BvLshr, BV.BvAshr, BitBlaster.Ready, Builds;
    match op {
      case BvUdiv =>
        var rest;
        r, rest := circuits.CircuitUdivUrem(a, b, solver);
      case BvUrem =>
        var q;
        q, r := circuits.CircuitUdivUrem(a, b, solver);
      case BvSdiv => r := circuits.CircuitSdiv(a, b, solver);
      case BvSrem => r := circuits.CircuitSrem(a, b, solver);
      case BvSmod => r := circuits.CircuitSmod(a, b, solver);
    }
  }

  method RunArithmetic(op: Op, a: seq<Lit>, b: seq<Lit>, circuits: BitBlaster, solver: Sink) returns (r: seq<Lit>)
    requires circuits.Ready(solver) && Below(a, solver.numVars) && Below(b, solver.numVars) && |a| == |b| > 0
    requires OnWords(op) && !Bitwise(op) && (Shifts(op) ==> |a| <= 64)
    modifies circuits, solver
    ensures circuits.Ready(solver) && Builds(old(solver.State()), solver.State())
    ensures |r| == |a| && Below(r, solver.numVars)
    ensures forall m: Valuation :: ModelsAll(m, solver.clauses) ==> Val(m, r) == ArithmeticOn(op, Val(m, a), Val(m, b), |a|)
  {
    hide Grown, ModelsAll, Formula.Wf, Val, BV.Pow2, BV.BvAdd, BV.BvSub, BV.BvMul, BV.BvUdiv, BV.BvUrem, BV.BvSdiv, BV.BvSrem,
      BV.BvSmod, BV.BvShl, BV.BvLshr, BV.BvAshr, BitBlaster.Ready, Builds;
    if op.BvAdd? {
      r := circuits.CircuitAdder(a, b, solver);
    } else if op.BvSub? {
      r := circuits.CircuitSubtractor(a, b, solver);
    } else if op.BvMul? {
      r := circuits.CircuitMultiplier(a, b, solver);
    } else if op.BvShl? {
      r := circuits.CircuitShl(a, b, solver);
    } else if op.BvLshr? {
      r := circuits.CircuitLshr(a, b, solver);
    } else if op.BvAshr? {
      r := circuits.CircuitAshr(a, b, solver);
    } else {
      r := RunDivision(op, a, b, circuits, solver);
    }
  }

  /** The circuit of an operator on two words. */
  method RunOnWords(op: Op, a: seq<Lit>, b: seq<Lit>, circuits: BitBlaster, solver: Sink) returns (r: seq<Lit>)
    requires circuits.Ready(solver) && Below(a, solver.numVars) && Below(b, solver.numVars) && |a| == |b| > 0
    requires OnWords(op) && (Shifts(op) ==> |a| <= 64)
    modifies circuits, solver
    ensures circuits.Ready(solver) && Builds(old(solver.State()), solver.State())
    ensures |r| == |a| && Below(r, solver.numVars)
    ensures forall m: Valuation :: ModelsAll(m, solver.clauses) ==> Bits(m, r) == WordsFrom(op, Bits(m, a), Bits(m, b))
  {
    hide Grown, ModelsAll, Formula.Wf, BV.Pow2, BV.Value, BitBlaster.Ready, Builds, ArithmeticOn, BitwiseOn, Bits;
    if Bitwise(op) {
      r := RunBitwise(op, a, b, circuits, solver);
    } else {
      r := RunArithmetic(op, a, b, circuits, solver);
      forall m: Valuation | ModelsAll(m, solver.clauses) ensures Bits(m, r) == WordsFrom(op, Bits(m, a), Bits(m, b)) {
        BV.LowBitsOfValue(Bits(m, r), ArithmeticOn(op, Val(m, a), Val(m, b), |a|));
      }
    }
  }

  /** Boolean operators that the blaster answers with a fresh variable, whatever their arguments. */
  predicate NoCircuit(op: Op) {
    && !op.True? && !op.False? && !op.Var? && !OnTruths(op) && !op.Ite? && !op.Eq? && !op.Distinct? && !HasCircuit(op)
  }

  /** Such an operator, or its negation. */
  predicate Unclaused(terms: Terms, id: nat) {
    id < |terms| && (NoCircuit(terms[id].op) || (terms[id].op.Not? && |terms[id].args| == 1 && Uncircuited(terms, terms[id].args[0])))
  }

  predicate Uncircuited(terms: Terms, id: nat) { id < |terms| && NoCircuit(terms[id].op) }

  lemma NegatedOnly(terms: Terms, id: nat)
    requires Unclaused(terms, id) && OnTruths(terms[id].op)
    ensures terms[id].op.Not? && |terms[id].args| == 1 && Unclaused(terms, terms[id].args[0])
  {
  }

  /** A comparison, or equality for the non-strict ones. */
  method RunCompare(op: Op, a: seq<Lit>, b: seq<Lit>, circuits: BitBlaster, solver: Sink) returns (r: Lit)
    requires circuits.Ready(solver) && Below(a, solver.numVars) && Below(b, solver.numVars) && |a| == |b| > 0
    requires HasCircuit(op)
    modifies circuits, solver
    ensures circuits.Ready(solver) && Builds(old(solver.State()), solver.State())
    ensures r.v < solver.numVars
    ensures forall m: Valuation :: ModelsAll(m, solver.clauses) ==> (Holds(m, r) <==> WordsCompare(op, Bits(m, a), Bits(m, b)))
  {
    hide Grown, ModelsAll, Formula.Wf, BV.Pow2, BV.Value, BitBlaster.Ready, Holds;
    var strict;
    if op.BvUlt? || op.BvUle? {
      strict := circuits.CircuitUlt(a, b, solver);
    } else if op.BvUgt? || op.BvUge? {
      strict := circuits.CircuitUlt(b, a, solver);
    } else {
      strict := circuits.CircuitSlt(a, b, solver);
    }
    if op.BvUlt? || op.BvUgt? || op.BvSlt? {
      return strict;
    }
    var eq := circuits.CircuitEq(a, b, solver);
    r := Either(strict, eq, circuits, solver);
    forall m: Valuation | ModelsAll(m, solver.clauses) ensures Holds(m, r) <==> WordsCompare(op, Bits(m, a), Bits(m, b)) {
      SignedEqual(Val(m, a), Val(m, b), |a|);
    }
  }

  method Either(a: Lit, b: Lit, circuits: BitBlaster, solver: Sink) returns (r: Lit)
    requires circuits.Ready(solver) && a.v < solver.numVars && b.v < solver.numVars
    modifies solver
    ensures circuits.Ready(solver) && Builds(old(solver.State()), solver.State())
    ensures r.v < solver.numVars
    ensures forall m: Valuation :: ModelsAll(m, solver.clauses) ==> (Holds(m, r) <==> Holds(m, a) || Holds(m, b))
  {
    hide Grown, ModelsAll, Holds;
    r := GateOr(a, b, solver);
  }

  method Both(a: Lit, b: Lit, circuits: BitBlaster, solver: Sink) returns (r: Lit)
    requires circuits.Ready(solver) && a.v < solver.numVars && b.v < solver.numVars
    modifies solver
    ensures circuits.Ready(solver) && Builds(old(solver.State()), solver.State())
    ensures r.v < solver.numVars
    ensures forall m: Valuation :: ModelsAll(m, solver.clauses) ==> (Holds(m, r) <==> Holds(m, a) && Holds(m, b))
  {
    hide Grown, ModelsAll, Holds;
    r := GateAnd(a, b, solver);
  }

  method Differ(a: Lit, b: Lit, circuits: BitBlaster, solver: Sink) returns (r: Lit)
    requires circuits.Ready(solver) && a.v < solver.numVars && b.v < solver.numVars
    modifies solver
    ensures circuits.Ready(solver) && Builds(old(solver.State()), solver.State())
    ensures r.v < solver.numVars
    ensures forall m: Valuation :: ModelsAll(m, solver.clauses) ==> (Holds(m, r) <==> Holds(m, a) != Holds(m, b))
  {
    hide Grown, ModelsAll, Holds;
    r := GateXor(a, b, solver);
  }

  method Choose(c: Lit, t: Lit, e: Lit, circuits: BitBlaster, solver: Sink) returns (r: Lit)
    requires circuits.Ready(solver) && c.v < solver.numVars && t.v < solver.numVars && e.v < solver.numVars
    modifies solver
    ensures circuits.Ready(solver) && Builds(old(solver.State()), solver.State())
    ensures r.v < solver.numVars
    ensures forall m: Valuation :: ModelsAll(m, solver.clauses) ==> (Holds(m, r) <==> if Holds(m, c) then Holds(m, t) else Holds(m, e))
  {
    hide Grown, ModelsAll, Holds;
    r := GateIte(c, t, e, solver);
  }

  lemma SignedEqual(x: nat, y: nat, w: nat)
    requires w > 0 && BV.InRange(x, w) && BV.InRange(y, w)
    ensures BV.Signed(x, w) == BV.Signed(y, w) <==> x == y
  {
  }

  // ---------- operators that only move bits ----------

  /** The place `rot` further on a circle of `len` places. */
  function Turned(k: nat, rot: nat, len: nat): (r: nat)
    requires k < len && rot < len
    ensures r == if k + rot < len then k + rot else k + rot - len
  {
    BV.ModUnique(k + rot, len, if k + rot < len then 0 else 1, if k + rot < len then k + rot else k + rot - len);
    (k + rot) % len
  }

  /** Bit `k` of `a` moves to bit `k + n`, past the end back to the start. */
  method RotateLeft(a: seq<Lit>, n: nat) returns (r: seq<Lit>)
    requires |a| > 0
    ensures |r| == |a| && (forall l :: l in r ==> l in a)
    ensures forall m: Valuation :: Bits(m, r) == Rotated(Bits(m, a), n % |a|)
  {
    hide Turned;
    var len := |a|;
    var rot := n % len;
    r := a;
    for k := 0 to len
      invariant |r| == len && (forall l :: l in r ==> l in a)
      invariant forall j :: 0 <= j < k ==> r[Turned(j, rot, len)] == a[j]
    {
      assert a[k] in a;
      r := r[Turned(k, rot, len) := a[k]];
    }
    forall m: Valuation ensures Bits(m, r) == Rotated(Bits(m, a), rot) { RotatedBits(m, a, r, rot); }
  }

  lemma RotatedBits(m: Valuation, a: seq<Lit>, r: seq<Lit>, rot: nat)
    requires |r| == |a| > rot
    requires forall j :: 0 <= j < |a| ==> r[Turned(j, rot, |a|)] == a[j]
    ensures Bits(m, r) == Rotated(Bits(m, a), rot)
  {
    hide Turned;
    var len := |a|;
    forall k | 0 <= k < len ensures Bits(m, r)[k] == Rotated(Bits(m, a), rot)[k] {
      var j := if k < rot then k + len - rot else k - rot;
      assert r[Turned(j, rot, len)] == a[j];
    }
  }

  /** Bit `k + n` of `a`, past the end counted from the start, moves to bit `k`. */
  method RotateRight(a: seq<Lit>, n: nat) returns (r: seq<Lit>)
    requires |a| > 0
    ensures |r| == |a| && (forall l :: l in r ==> l in a)
    ensures forall m: Valuation :: Bits(m, r) == Rotated(Bits(m, a), |a| - n % |a|)
  {
    hide Turned;
    var len := |a|;
    var rot := n % len;
    r := a;
    for k := 0 to len
      invariant |r| == len && (forall l :: l in r ==> l in a)
      invariant forall j :: 0 <= j < k ==> r[j] == a[Turned(j, rot, len)]
    {
      assert a[Turned(k, rot, len)] in a;
      r := r[k := a[Turned(k, rot, len)]];
    }
    forall m: Valuation ensures Bits(m, r) == Rotated(Bits(m, a), len - rot) {
      RotatedBack(m, a, r, rot);
    }
  }

  lemma RotatedBack(m: Valuation, a: seq<Lit>, r: seq<Lit>, rot: nat)
    requires |r| == |a| > rot
    requires forall j :: 0 <= j < |a| ==> r[j] == a[Turned(j, rot, |a|)]
    ensures Bits(m, r) == Rotated(Bits(m, a), |a| - rot)
  {
    hide Turned;
    var len := |a|;
    forall k | 0 <= k < len ensures Bits(m, r)[k] == Rotated(Bits(m, a), len - rot)[k] {
      assert r[k] == a[Turned(k, rot, len)];
    }
  }

  method RepeatWord(a: seq<Lit>, n: nat) returns (r: seq<Lit>)
    ensures |r| == |a| * n && (forall l :: l in r ==> l in a)
    ensures forall m: Valuation :: Bits(m, r) == Repeated(Bits(m, a), n)
  {
    r := [];
    for k := 0 to n
      invariant |r| == |a| * k && (forall l :: l in r ==> l in a)
      invariant forall m: Valuation :: Bits(m, r) == Repeated(Bits(m, a), k)
    {
      forall m: Valuation ensures Bits(m, r + a) == Repeated(Bits(m, a), k + 1) { BitsAppend(m, r, a); }
      r := r + a;
    }
  }

  /** Every bit complemented. */
  lemma NotMoves(a: seq<Lit>)
    ensures forall n: nat :: Below(a, n) ==> Below(Negated(a), n)
    ensures forall m: Valuation :: Bits(m, Negated(a)) == BV.NotBits(Bits(m, a))
  {
    forall n: nat | Below(a, n) ensures Below(Negated(a), n) { NegatedBelow(a, n); }
    forall m: Valuation ensures Bits(m, Negated(a)) == BV.NotBits(Bits(m, a)) { BitsNegated(m, a); }
  }

  /** The top bit repeated above. */
  lemma SignMoves(a: seq<Lit>, k: nat)
    requires |a| > 0
    ensures forall n: nat :: Below(a, n) ==> Below(a + Repeat(k, a[|a| - 1]), n)
    ensures forall m: Valuation :: Bits(m, a + Repeat(k, a[|a| - 1])) == Bits(m, a) + BV.Fill(k, Bits(m, a)[|a| - 1])
  {
    hide Bits, Holds;
    var sign := a[|a| - 1];
    assert sign in a;
    forall m: Valuation ensures Bits(m, a + Repeat(k, sign)) == Bits(m, a) + BV.Fill(k, Bits(m, a)[|a| - 1]) {
      BitsAppend(m, a, Repeat(k, sign));
      BitsRepeat(m, k, sign);
      BitAt(m, a, |a| - 1);
    }
  }

  lemma ExtractMoves(a: seq<Lit>, low: nat, high: nat)
    requires low <= high < |a|
    ensures forall n: nat :: Below(a, n) ==> Below(a[low..high + 1], n)
    ensures forall m: Valuation :: Bits(m, a[low..high + 1]) == Bits(m, a)[low..high + 1]
  {
    forall m: Valuation ensures Bits(m, a[low..high + 1]) == Bits(m, a)[low..high + 1] { BitsSlice(m, a, low, high + 1); }
  }

  /** The operators that need no clauses. */
  method MoveBits(op: Op, a: seq<Lit>) returns (r: seq<Lit>)
    requires |a| > 0 && OnWord(op) && !op.BvNeg? && !op.BvZeroExtend? && (op.BvExtract? ==> op.low <= op.high < |a|)
    ensures |r| == WidthOf(op, |a|)
    ensures forall n: nat :: Below(a, n) ==> Below(r, n)
    ensures forall m: Valuation :: Bits(m, r) == WordFrom(op, Bits(m, a))
  {
    hide Bits, Rotated, Repeated, Negation, Holds, BV.NotBits, BV.Fill;
    match op {
      case BvNot =>
        r := Negated(a);
        NotMoves(a);
      case BvRotateLeft(n) => r := RotateLeft(a, n);
      case BvRotateRight(n) => r := RotateRight(a, n);
      case BvExtract(high, low) =>
        r := a[low..high + 1];
        ExtractMoves(a, low, high);
      case BvSignExtend(n) =>
        r := a + Repeat(n, a[|a| - 1]);
        SignMoves(a, n);
      case BvRepeat(n) => r := RepeatWord(a, n);
    }
  }

  lemma BuildsRefl(x: Formula)
    requires x.Wf()
    ensures Builds(x, x)
  {
  }

  method RunOnWord(op: Op, a: seq<Lit>, circuits: BitBlaster, solver: Sink) returns (r: seq<Lit>)
    requires circuits.Ready(solver) && Below(a, solver.numVars) && |a| > 0
    requires OnWord(op) && (op.BvExtract? ==> op.low <= op.high < |a|)
    modifies circuits, solver
    ensures circuits.Ready(solver) && Builds(old(solver.State()), solver.State())
    ensures |r| == WidthOf(op, |a|) && Below(r, solver.numVars)
    ensures forall m: Valuation :: ModelsAll(m, solver.clauses) ==> Bits(m, r) == WordFrom(op, Bits(m, a))
  {
    hide Grown, ModelsAll, Formula.Wf, Bits, Rotated, Repeated, Negation, Holds, Builds, BV.Pow2, BV.Value;
    if op.BvNeg? {
      r := circuits.CircuitNeg(a, solver);
      forall m: Valuation | ModelsAll(m, solver.clauses) ensures Bits(m, r) == Negation(Bits(m, a)) {
        SameWord(m, r, Negation(Bits(m, a)));
      }
    } else if op.BvZeroExtend? {
      var f := circuits.GetFalseLit(solver);
      BuildsBelow(a, old(solver.State()), solver.State());
      r := a + Repeat(op.n, f);
      forall m: Valuation | ModelsAll(m, solver.clauses) ensures Bits(m, r) == Bits(m, a) + BV.Fill(op.n, false) {
        BitsAppend(m, a, Repeat(op.n, f));
        BitsRepeat(m, op.n, f);
      }
    } else {
      BuildsRefl(solver.State());
      r := MoveBits(op, a);
    }
  }

  lemma BuildsBelow(a: seq<Lit>, x: Formula, y: Formula)
    requires Below(a, x.n) && Builds(x, y)
    ensures Below(a, y.n)
  {
  }

  lemma SameWord(m: Valuation, r: seq<Lit>, bits: seq<bool>)
    requires |r| == |bits| && BV.Value(Bits(m, r)) == BV.Value(bits)
    ensures Bits(m, r) == bits
  {
    BV.ValueInjective(Bits(m, r), bits);
  }

  lemma BitAt(m: Valuation, a: seq<Lit>, k: nat)
    requires k < |a|
    ensures Bits(m, a)[k] == Holds(m, a[k])
  {
  }

  /** The literals of a constant. */
  method ConstantBits(value: nat, width: nat, t: Lit) returns (r: seq<Lit>)
    ensures |r| == width && (forall l :: l in r ==> l == t || l == t.Not())
    ensures forall m: Valuation :: Holds(m, t) ==> Bits(m, r) == BV.LowBits(value, width)
  {
    hide Holds;
    r := [];
    for k := 0 to width
      invariant |r| == k && (forall l :: l in r ==> l == t || l == t.Not())
      invariant forall m: Valuation :: Holds(m, t) ==> BV.Value(Bits(m, r)) == value % BV.Pow2(k)
    {
      var bit := (value / BV.Pow2(k)) % 2 == 1;
      ghost var was := r;
      r := r + [if bit then t else t.Not()];
      forall m: Valuation | Holds(m, t) ensures BV.Value(Bits(m, r)) == value % BV.Pow2(k + 1) {
        HoldsNot(m, t);
        ValAppend(m, was, if bit then t else t.Not());
        NextDigit(value, k);
        BV.BitTimes(bit, BV.Pow2(k));
      }
    }
    forall m: Valuation | Holds(m, t) ensures Bits(m, r) == BV.LowBits(value, width) {
      BV.ValueInjective(Bits(m, r), BV.LowBits(value, width));
    }
  }

  /** The next binary digit of a number. */
  lemma NextDigit(v: nat, k: nat)
    ensures v % BV.Pow2(k + 1) == v % BV.Pow2(k) + (if (v / BV.Pow2(k)) % 2 == 1 then BV.Pow2(k) else 0)
  {
    hide BV.Pow2;
    assert BV.Pow2(k + 1) == 2 * BV.Pow2(k) by { PowNext(k); }
    Digit(v, BV.Pow2(k));
  }

  lemma PowNext(k: nat)
    ensures BV.Pow2(k + 1) == 2 * BV.Pow2(k)
  {
  }

  lemma Digit(v: nat, p: nat)
    requires p > 0
    ensures v % (2 * p) == v % p + (if (v / p) % 2 == 1 then p else 0)
  {
    BV.ModSplit(v, p);
    BV.ModSplit(v / p, 2);
    var q, d := v / p / 2, (v / p) % 2;
    assert (q * 2 + d) * p == q * (2 * p) + d * p;
    BV.ModUnique(v, 2 * p, q, d * p + v % p);
  }

  // ---------- the meaning of a node from the meanings of its arguments ----------

  lemma WordsStep(c: Context, id: nat, a: seq<Lit>, b: seq<Lit>, r: seq<Lit>)
    requires Scoped(c) && id < |c.terms| && OnWords(c.terms[id].op) && |c.terms[id].args| == 2
    requires MeansWord(c, c.terms[id].args[0], a) && MeansWord(c, c.terms[id].args[1], b)
    requires |r| == |a| == |b| > 0 && Below(r, c.f.n)
    requires forall m: Valuation :: ModelsAll(m, c.f.f) ==> Bits(m, r) == WordsFrom(c.terms[id].op, Bits(m, a), Bits(m, b))
    ensures MeansWord(c, id, r)
  {
    hide ArenaOk, Eval, WordsFrom, Bits, Holds;
    OnWordsShape(c.sorts, c.terms, id);
    forall m: Valuation, i: Interp | World(c, m, i) ensures Eval(c.sorts, c.terms, id, i) == Word(Bits(m, r)) {
      EvalOnWords(c.sorts, c.terms, id, i);
    }
  }

  lemma WordStep(c: Context, id: nat, a: seq<Lit>, r: seq<Lit>)
    requires Scoped(c) && id < |c.terms| && OnWord(c.terms[id].op) && |c.terms[id].args| == 1
    requires MeansWord(c, c.terms[id].args[0], a) && |a| > 0 && Below(r, c.f.n)
    requires c.terms[id].op.BvExtract? ==> c.terms[id].op.low <= c.terms[id].op.high < |a|
    requires |r| == WidthOf(c.terms[id].op, |a|)
    requires forall m: Valuation :: ModelsAll(m, c.f.f) ==> Bits(m, r) == WordFrom(c.terms[id].op, Bits(m, a))
    ensures MeansWord(c, id, r)
  {
    hide ArenaOk, Eval, WordFrom, WidthOf, Bits, Holds;
    OnWordShape(c.sorts, c.terms, id);
    forall m: Valuation, i: Interp | World(c, m, i) ensures Eval(c.sorts, c.terms, id, i) == Word(Bits(m, r)) {
      EvalOnWord(c.sorts, c.terms, id, i);
    }
  }

  lemma ConcatStep(c: Context, id: nat, a: seq<Lit>, b: seq<Lit>)
    requires Scoped(c) && id < |c.terms| && c.terms[id].op.BvConcat? && |c.terms[id].args| == 2
    requires MeansWord(c, c.terms[id].args[0], a) && MeansWord(c, c.terms[id].args[1], b)
    ensures MeansWord(c, id, b + a)
  {
    hide ArenaOk, Eval, Bits, Holds;
    ConcatShape(c.sorts, c.terms, id);
    forall m: Valuation, i: Interp | World(c, m, i) ensures Eval(c.sorts, c.terms, id, i) == Word(Bits(m, b + a)) {
      EvalConcat(c.sorts, c.terms, id, i);
      BitsAppend(m, b, a);
    }
  }

  lemma CompareStep(c: Context, id: nat, a: seq<Lit>, b: seq<Lit>, l: Lit)
    requires Scoped(c) && id < |c.terms| && ComparesWords(c.terms[id].op) && |c.terms[id].args| == 2
    requires MeansWord(c, c.terms[id].args[0], a) && MeansWord(c, c.terms[id].args[1], b)
    requires |a| == |b| > 0 && l.v < c.f.n
    requires forall m: Valuation :: ModelsAll(m, c.f.f) ==> (Holds(m, l) <==> WordsCompare(c.terms[id].op, Bits(m, a), Bits(m, b)))
    ensures MeansTruth(c, id, l)
  {
    hide ArenaOk, Eval, WordsCompare, Bits, Holds;
    ComparesWordsShape(c.sorts, c.terms, id);
    forall m: Valuation, i: Interp | World(c, m, i) ensures IsTrue(c.sorts, c.terms, id, i) <==> Holds(m, l) {
      EvalComparesWords(c.sorts, c.terms, id, i);
    }
  }

  lemma IteWordStep(c: Context, id: nat, cond: Lit, t: seq<Lit>, e: seq<Lit>, r: seq<Lit>)
    requires Scoped(c) && WordSort(c.sorts, c.terms, id) && c.terms[id].op.Ite? && |c.terms[id].args| == 3
    requires MeansTruth(c, c.terms[id].args[0], cond)
    requires MeansWord(c, c.terms[id].args[1], t) && MeansWord(c, c.terms[id].args[2], e)
    requires |r| == |t| && Below(r, c.f.n)
    requires forall m: Valuation :: ModelsAll(m, c.f.f) ==> Bits(m, r) == if Holds(m, cond) then Bits(m, t) else Bits(m, e)
    ensures MeansWord(c, id, r)
  {
    hide ArenaOk, Eval, IsTrue, Bits, Holds;
    PolymorphicShape(c.sorts, c.terms, id);
    forall m: Valuation, i: Interp | World(c, m, i) ensures Eval(c.sorts, c.terms, id, i) == Word(Bits(m, r)) {
      EvalPolymorphic(c.sorts, c.terms, id, i);
    }
  }

  lemma IteTruthStep(c: Context, id: nat, cond: Lit, t: Lit, e: Lit, l: Lit)
    requires Scoped(c) && TruthSort(c.sorts, c.terms, id) && c.terms[id].op.Ite? && |c.terms[id].args| == 3
    requires MeansTruth(c, c.terms[id].args[0], cond)
    requires MeansTruth(c, c.terms[id].args[1], t) && MeansTruth(c, c.terms[id].args[2], e) && l.v < c.f.n
    requires forall m: Valuation :: ModelsAll(m, c.f.f) ==> (Holds(m, l) <==> if Holds(m, cond) then Holds(m, t) else Holds(m, e))
    ensures MeansTruth(c, id, l)
  {
    hide ArenaOk, Eval, Holds;
    forall m: Valuation, i: Interp | World(c, m, i) ensures IsTrue(c.sorts, c.terms, id, i) <==> Holds(m, l) {
      EvalPolymorphic(c.sorts, c.terms, id, i);
    }
  }

  lemma ConstantStep(c: Context, id: nat, r: seq<Lit>, t: Lit)
    requires Scoped(c) && id < |c.terms| && c.terms[id].op.BvConst? && WordSort(c.sorts, c.terms, id)
    requires |r| == SortOf(c.sorts, c.terms, id).width && t.v < c.f.n && forall l :: l in r ==> l == t || l == t.Not()
    requires forall m: Valuation :: ModelsAll(m, c.f.f) ==> Bits(m, r) == BV.LowBits(c.terms[id].op.value, |r|)
    ensures MeansWord(c, id, r)
  {
    hide ArenaOk, Eval, Bits, BV.ToBits, BV.Value;
    forall m: Valuation, i: Interp | World(c, m, i) ensures Eval(c.sorts, c.terms, id, i) == Word(Bits(m, r)) {
      EvalConstant(c.sorts, c.terms, id, i);
      var v, w := c.terms[id].op.value, |r|;
      BV.ValueInjective(BV.LowBits(v, w), BV.ToBits(v, w));
    }
  }

  // ---------- equality ----------

  lemma SameWords(c: Context, a: nat, b: nat, x: seq<Lit>, y: seq<Lit>, l: Lit)
    requires MeansWord(c, a, x) && MeansWord(c, b, y) && |x| == |y| && l.v < c.f.n
    requires forall m: Valuation :: ModelsAll(m, c.f.f) ==> (Holds(m, l) <==> Val(m, x) == Val(m, y))
    ensures MeansSame(c, a, b, l)
  {
    hide ArenaOk, Eval, Bits, Holds, BV.Value;
    forall m: Valuation, i: Interp | World(c, m, i)
      ensures Holds(m, l) <==> Eval(c.sorts, c.terms, a, i) == Eval(c.sorts, c.terms, b, i)
    {
      BV.ValueInjective(Bits(m, x), Bits(m, y));
    }
  }

  lemma TruthIs(c: Context, id: nat, i: Interp)
    requires Scoped(c) && TruthSort(c.sorts, c.terms, id) && Fits(i)
    ensures Eval(c.sorts, c.terms, id, i) == Truth(IsTrue(c.sorts, c.terms, id, i))
  {
    hide ArenaOk;
  }

  lemma SameTruths(c: Context, a: nat, b: nat, x: Lit, y: Lit, l: Lit)
    requires MeansTruth(c, a, x) && MeansTruth(c, b, y) && l.v < c.f.n
    requires forall m: Valuation :: ModelsAll(m, c.f.f) ==> (Holds(m, l) <==> Holds(m, x) != Holds(m, y))
    ensures MeansSame(c, a, b, l.Not())
  {
    hide ArenaOk, Eval, IsTrue, Holds;
    forall m: Valuation, i: Interp | World(c, m, i)
      ensures Holds(m, l.Not()) <==> Eval(c.sorts, c.terms, a, i) == Eval(c.sorts, c.terms, b, i)
    {
      HoldsNot(m, l);
      TruthIs(c, a, i);
      TruthIs(c, b, i);
    }
  }

  lemma EqStep(c: Context, id: nat, l: Lit)
    requires Scoped(c) && id < |c.terms| && c.terms[id].op.Eq? && |c.terms[id].args| == 2
    requires MeansSame(c, c.terms[id].args[0], c.terms[id].args[1], l)
    ensures MeansTruth(c, id, l)
  {
    hide ArenaOk, Eval, IsTrue, Holds;
    PolymorphicShape(c.sorts, c.terms, id);
    forall m: Valuation, i: Interp | World(c, m, i) ensures IsTrue(c.sorts, c.terms, id, i) <==> Holds(m, l) {
      EvalPolymorphic(c.sorts, c.terms, id, i);
    }
  }

  // ---------- conjunctions, disjunctions and pairwise distinctness ----------

  ghost predicate ManyTrue(c: Context, conj: bool, ids: seq<nat>, i: Interp)
    requires ArenaOk(c.sorts, c.terms) && Fits(i) && forall k :: 0 <= k < |ids| ==> ids[k] < |c.terms|
  {
    if conj then forall k :: 0 <= k < |ids| ==> IsTrue(c.sorts, c.terms, ids[k], i)
    else exists k :: 0 <= k < |ids| && IsTrue(c.sorts, c.terms, ids[k], i)
  }

  /** The literal is the conjunction, or the disjunction, of the terms. */
  ghost predicate MeansMany(c: Context, conj: bool, ids: seq<nat>, l: Lit) {
    && Scoped(c) && l.v < c.f.n && (forall k :: 0 <= k < |ids| ==> ids[k] < |c.terms|)
    && forall m: Valuation, i: Interp :: World(c, m, i) ==> (Holds(m, l) <==> ManyTrue(c, conj, ids, i))
  }

  lemma ManyExtends(c: Context, c': Context, conj: bool, ids: seq<nat>, l: Lit)
    requires MeansMany(c, conj, ids, l) && Extends(c, c')
    ensures MeansMany(c', conj, ids, l)
  {
    hide ArenaOk, IsTrue, CellOk, CellValue;
    forall m: Valuation, i: Interp | World(c', m, i) ensures Holds(m, l) <==> ManyTrue(c', conj, ids, i) {
      assert ManyTrue(c', conj, ids, i) <==> ManyTrue(c, conj, ids, i);
    }
  }

  lemma ManyOne(c: Context, conj: bool, id: nat, l: Lit)
    requires MeansTruth(c, id, l)
    ensures MeansMany(c, conj, [id], l)
  {
    hide ArenaOk, IsTrue, Holds, CellOk, CellValue;
    forall m: Valuation, i: Interp | World(c, m, i) ensures Holds(m, l) <==> ManyTrue(c, conj, [id], i) {
      assert [id][0] == id;
    }
  }

  lemma ManyNext(c: Context, conj: bool, ids: seq<nat>, id: nat, l: Lit, b: Lit, r: Lit)
    requires MeansMany(c, conj, ids, l) && MeansTruth(c, id, b) && r.v < c.f.n
    requires forall m: Valuation :: ModelsAll(m, c.f.f) ==>
      (Holds(m, r) <==> if conj then Holds(m, l) && Holds(m, b) else Holds(m, l) || Holds(m, b))
    ensures MeansMany(c, conj, ids + [id], r)
  {
    hide ArenaOk, IsTrue, Holds;
    forall m: Valuation, i: Interp | World(c, m, i) ensures Holds(m, r) <==> ManyTrue(c, conj, ids + [id], i) {
      ManyAppend(c, conj, ids, id, i);
    }
  }

  lemma ManyAppend(c: Context, conj: bool, ids: seq<nat>, id: nat, i: Interp)
    requires ArenaOk(c.sorts, c.terms) && Fits(i) && id < |c.terms| && forall k :: 0 <= k < |ids| ==> ids[k] < |c.terms|
    ensures ManyTrue(c, conj, ids + [id], i) <==>
      if conj then ManyTrue(c, conj, ids, i) && IsTrue(c.sorts, c.terms, id, i)
      else ManyTrue(c, conj, ids, i) || IsTrue(c.sorts, c.terms, id, i)
  {
    hide ArenaOk, IsTrue;
    var more := ids + [id];
    assert more[|ids|] == id;
    assert forall k :: 0 <= k < |ids| ==> more[k] == ids[k];
  }

  lemma ManyStep(c: Context, id: nat, l: Lit)
    requires Scoped(c) && id < |c.terms| && (c.terms[id].op.And? || c.terms[id].op.Or?)
    requires MeansMany(c, c.terms[id].op.And?, c.terms[id].args, l)
    ensures MeansTruth(c, id, l)
  {
    hide ArenaOk, IsTrue, Holds;
    TruthsShape(c.sorts, c.terms, id);
    forall m: Valuation, i: Interp | World(c, m, i) ensures IsTrue(c.sorts, c.terms, id, i) <==> Holds(m, l) {
      EvalTruths(c.sorts, c.terms, id, i);
    }
  }

  /** A Boolean connective on one or two arguments. */
  lemma TruthStep(c: Context, id: nat, x: Lit, y: Lit, l: Lit)
    requires Scoped(c) && id < |c.terms| && l.v < c.f.n
    requires c.terms[id].op.Not? || c.terms[id].op.Xor? || c.terms[id].op.Implies?
    requires |c.terms[id].args| == (if c.terms[id].op.Not? then 1 else 2)
    requires MeansTruth(c, c.terms[id].args[0], x) && (!c.terms[id].op.Not? ==> MeansTruth(c, c.terms[id].args[1], y))
    requires forall m: Valuation :: ModelsAll(m, c.f.f) ==>
      (Holds(m, l) <==> if c.terms[id].op.Not? then !Holds(m, x) else if c.terms[id].op.Xor? then Holds(m, x) != Holds(m, y) else !Holds(m, x) || Holds(m, y))
    ensures MeansTruth(c, id, l)
  {
    hide ArenaOk, IsTrue, Holds;
    TruthsShape(c.sorts, c.terms, id);
    forall m: Valuation, i: Interp | World(c, m, i) ensures IsTrue(c.sorts, c.terms, id, i) <==> Holds(m, l) {
      EvalTruths(c.sorts, c.terms, id, i);
    }
  }

  /** The literals say that the pairs of terms differ. */
  ghost predicate MeansApart(c: Context, pairs: seq<(nat, nat)>, ls: seq<Lit>) {
    |pairs| == |ls| && forall k :: 0 <= k < |ls| ==> MeansSame(c, pairs[k].0, pairs[k].1, ls[k].Not())
  }

  lemma SameExtends(c: Context, c': Context, a: nat, b: nat, l: Lit)
    requires MeansSame(c, a, b, l) && Extends(c, c')
    ensures MeansSame(c', a, b, l)
  {
    hide World, ArenaOk, Eval;
  }

  lemma ApartExtends(c: Context, c': Context, pairs: seq<(nat, nat)>, ls: seq<Lit>)
    requires MeansApart(c, pairs, ls) && Extends(c, c')
    ensures MeansApart(c', pairs, ls)
  {
    hide World, ArenaOk, Eval, MeansSame;
    forall k | 0 <= k < |ls| ensures MeansSame(c', pairs[k].0, pairs[k].1, ls[k].Not()) {
      SameExtends(c, c', pairs[k].0, pairs[k].1, ls[k].Not());
    }
  }

  lemma DistinctStep(c: Context, id: nat, pairs: seq<(nat, nat)>, ls: seq<Lit>, l: Lit)
    requires Scoped(c) && id < |c.terms| && c.terms[id].op.Distinct? && l.v < c.f.n
    requires MeansApart(c, pairs, ls) && Paired(c.terms[id].args, pairs, |c.terms[id].args|, 0)
    requires forall m: Valuation :: ModelsAll(m, c.f.f) ==> (Holds(m, l) <==> forall k :: 0 <= k < |ls| ==> Holds(m, ls[k]))
    ensures MeansTruth(c, id, l)
  {
    hide ArenaOk, IsTrue, Holds, Eval, Paired, MeansApart;
    PolymorphicShape(c.sorts, c.terms, id);
    forall m: Valuation, i: Interp | World(c, m, i) ensures IsTrue(c.sorts, c.terms, id, i) <==> Holds(m, l) {
      EvalPolymorphic(c.sorts, c.terms, id, i);
      PairsDiffer(c, id, pairs, ls, m, i);
    }
  }

  /** Which pairs differ under an interpretation. */
  ghost predicate Apart(c: Context, p: (nat, nat), i: Interp)
    requires ArenaOk(c.sorts, c.terms) && Fits(i) && p.0 < |c.terms| && p.1 < |c.terms|
  {
    Eval(c.sorts, c.terms, p.0, i) != Eval(c.sorts, c.terms, p.1, i)
  }

  lemma PairLiteral(c: Context, p: (nat, nat), l: Lit, m: Valuation, i: Interp)
    requires World(c, m, i) && MeansSame(c, p.0, p.1, l.Not())
    ensures Scoped(c) && Fits(i) && p.0 < |c.terms| && p.1 < |c.terms|
    ensures Holds(m, l) <==> Apart(c, p, i)
  {
    hide ArenaOk, Eval;
    HoldsNot(m, l);
  }

  /** Whether a pair of existing terms differs. */
  ghost function ApartTest(c: Context, i: Interp): ((nat, nat)) -> bool
    requires ArenaOk(c.sorts, c.terms) && Fits(i)
  {
    (q: (nat, nat)) => q.0 < |c.terms| && q.1 < |c.terms| && Apart(c, q, i)
  }

  lemma TestIs(c: Context, i: Interp, x: nat, y: nat)
    requires ArenaOk(c.sorts, c.terms) && Fits(i) && x < |c.terms| && y < |c.terms|
    ensures ApartTest(c, i)((x, y)) <==> Eval(c.sorts, c.terms, x, i) != Eval(c.sorts, c.terms, y, i)
  {
    hide ArenaOk, Fits, Eval;
  }

  lemma LiteralTest(c: Context, pairs: seq<(nat, nat)>, ls: seq<Lit>, m: Valuation, i: Interp)
    requires World(c, m, i) && MeansApart(c, pairs, ls)
    ensures ArenaOk(c.sorts, c.terms) && Fits(i) && |pairs| == |ls|
    ensures forall k :: 0 <= k < |ls| ==> (Holds(m, ls[k]) <==> ApartTest(c, i)(pairs[k]))
  {
    hide ArenaOk, Fits, Holds, Eval, World, Scoped, MeansSame, Apart;
    WorldFacts(c, m, i);
    forall k | 0 <= k < |ls| ensures Holds(m, ls[k]) <==> ApartTest(c, i)(pairs[k]) {
      PairLiteral(c, pairs[k], ls[k], m, i);
    }
  }

  lemma PairsDiffer(c: Context, id: nat, pairs: seq<(nat, nat)>, ls: seq<Lit>, m: Valuation, i: Interp)
    requires World(c, m, i) && id < |c.terms| && forall k :: 0 <= k < |c.terms[id].args| ==> c.terms[id].args[k] < id
    requires MeansApart(c, pairs, ls) && Paired(c.terms[id].args, pairs, |c.terms[id].args|, 0)
    ensures (forall k :: 0 <= k < |ls| ==> Holds(m, ls[k])) <==>
      (forall j, k :: 0 <= j < k < |c.terms[id].args| ==>
        Eval(c.sorts, c.terms, c.terms[id].args[j], i) != Eval(c.sorts, c.terms, c.terms[id].args[k], i))
  {
    hide *;
    WorldFacts(c, m, i);
    LiteralTest(c, pairs, ls, m, i);
    var args, p := c.terms[id].args, ApartTest(c, i);
    PairsCover(args, pairs, p);
    forall x, y | 0 <= x < y < |args|
      ensures p((args[x], args[y])) <==> Eval(c.sorts, c.terms, args[x], i) != Eval(c.sorts, c.terms, args[y], i)
    {
      TestIs(c, i, args[x], args[y]);
    }
  }

  lemma WorldFacts(c: Context, m: Valuation, i: Interp)
    requires World(c, m, i)
    ensures Scoped(c) && ArenaOk(c.sorts, c.terms) && Fits(i) && ModelsAll(m, c.f.f)
  {
  }

  // ---------- terms without undefined parts ----------

  ghost predicate VarCell(terms: Terms, cell: Cell) {
    || (cell.BitOf? && cell.id < |terms| && terms[cell.id].op.Var?)
    || (cell.TruthOf? && cell.id < |terms| && terms[cell.id].op.Var?)
  }

  /** Every undefined variable belongs to a variable of the terms. */
  ghost predicate OnlyVars(terms: Terms, inputs: map<nat, Cell>) {
    forall v :: v in inputs ==> VarCell(terms, inputs[v])
  }

  /** The undefined variable of a cell of a variable is in the caches. */
  ghost predicate CellCached(terms: Terms, k: Caches, v: nat, cell: Cell) {
    && (cell.BitOf? ==> cell.id in k.words && cell.k < |k.words[cell.id]| && k.words[cell.id][cell.k] == Lit(v, false))
    && (cell.TruthOf? ==> (
          && cell.id < |terms| && terms[cell.id].op.Var?
          && terms[cell.id].op.name in k.names && k.names[terms[cell.id].op.name] == Lit(v, false)))
  }

  ghost predicate Owned(terms: Terms, inputs: map<nat, Cell>, k: Caches) {
    forall v :: v in inputs && VarCell(terms, inputs[v]) ==> CellCached(terms, k, v, inputs[v])
  }

  ghost predicate ShiftsNarrow(sorts: Sorts, terms: Terms)
    requires ArenaOk(sorts, terms)
  {
    forall id :: 0 <= id < |terms| && Shifts(terms[id].op) && WordSort(sorts, terms, id) ==> SortOf(sorts, terms, id).width <= 64
  }

  ghost predicate CachesGrow(k: Caches, k': Caches) {
    && (forall id :: id in k.words ==> id in k'.words && k'.words[id] == k.words[id])
    && (forall id :: id in k.truths ==> id in k'.truths && k'.truths[id] == k.truths[id])
    && (forall n :: n in k.names ==> n in k'.names && k'.names[n] == k.names[n])
  }

  lemma OwnedGrows(terms: Terms, inputs: map<nat, Cell>, k: Caches, k': Caches)
    requires Owned(terms, inputs, k) && CachesGrow(k, k')
    ensures Owned(terms, inputs, k')
  {
  }

  lemma CachesGrowTrans(k: Caches, k1: Caches, k2: Caches)
    requires CachesGrow(k, k1) && CachesGrow(k1, k2)
    ensures CachesGrow(k, k2)
  {
  }

  /** What a call leaves behind: fewer worlds, larger caches. */
  ghost predicate Step(c: Context, k: Caches, c': Context, k': Caches) {
    Extends(c, c') && CachesGrow(k, k')
  }

  lemma StepTrans(c: Context, k: Caches, c1: Context, k1: Caches, c2: Context, k2: Caches)
    requires Step(c, k, c1, k1) && Step(c1, k1, c2, k2)
    ensures Step(c, k, c2, k2)
  {
    ExtendsTrans(c, c1, c2);
    CachesGrowTrans(k, k1, k2);
  }

  lemma StepRefl(c: Context, k: Caches)
    requires Scoped(c)
    ensures Step(c, k, c, k)
  {
    hide Scoped, World;
  }

  /** Caching a term that was not cached when the step began. */
  lemma StoreWord(c0: Context, k0: Caches, c: Context, k: Caches, base: Formula, id: nat, bits: seq<Lit>)
    requires Step(c0, k0, c, k) && Exact(c, k, base) && MeansWord(c, id, bits) && id !in k0.words
    ensures Exact(c, k.(words := k.words[id := bits]), base)
    ensures Step(c0, k0, c, k.(words := k.words[id := bits]))
  {
    hide MeansWord, MeansTruth, MeansName, Realizable, RootsHold, Extends, Scoped;
  }

  lemma StoreTruth(c0: Context, k0: Caches, c: Context, k: Caches, base: Formula, id: nat, l: Lit)
    requires Step(c0, k0, c, k) && Exact(c, k, base) && MeansTruth(c, id, l) && id !in k0.truths
    ensures Exact(c, k.(truths := k.truths[id := l]), base)
    ensures Step(c0, k0, c, k.(truths := k.truths[id := l]))
  {
    hide MeansWord, MeansTruth, MeansName, Realizable, RootsHold, Extends, Scoped;
  }

  lemma OwnedStore(terms: Terms, inputs: map<nat, Cell>, k: Caches, id: nat, bits: seq<Lit>)
    requires Owned(terms, inputs, k) && id < |terms| && !terms[id].op.Var?
    ensures Owned(terms, inputs, k.(words := k.words[id := bits]))
  {
  }

  lemma OwnedTruth(terms: Terms, inputs: map<nat, Cell>, k: Caches, id: nat, l: Lit)
    requires Owned(terms, inputs, k)
    ensures Owned(terms, inputs, k.(truths := k.truths[id := l]))
  {
  }

  lemma StoreName(c: Context, k: Caches, base: Formula, name: seq<byte>, l: Lit)
    requires Exact(c, k, base) && MeansName(c, name, l) && name !in k.names
    ensures Exact(c, k.(names := k.names[name := l]), base)
    ensures CachesGrow(k, k.(names := k.names[name := l])) && Scoped(c)
  {
    hide MeansWord, MeansTruth, MeansName, Realizable, RootsHold, Scoped;
  }

  lemma ExactFacts(c: Context, k: Caches, base: Formula)
    requires Exact(c, k, base)
    ensures Scoped(c) && ArenaOk(c.sorts, c.terms) && c.f.Wf()
    ensures forall id :: id in k.words ==> MeansWord(c, id, k.words[id])
    ensures forall id :: id in k.truths ==> MeansTruth(c, id, k.truths[id])
    ensures forall n :: n in k.names ==> MeansName(c, n, k.names[n])
  {
    hide MeansWord, MeansTruth, MeansName, Realizable, RootsHold, ArenaOk, CellOk;
  }

  lemma WordFacts(c: Context, id: nat, bits: seq<Lit>)
    requires MeansWord(c, id, bits)
    ensures Scoped(c) && ArenaOk(c.sorts, c.terms) && WordSort(c.sorts, c.terms, id)
    ensures |bits| == SortOf(c.sorts, c.terms, id).width && Below(bits, c.f.n)
  {
    hide ArenaOk, CellOk;
  }

  lemma TruthFacts(c: Context, id: nat, l: Lit)
    requires MeansTruth(c, id, l)
    ensures Scoped(c) && ArenaOk(c.sorts, c.terms) && TruthSort(c.sorts, c.terms, id) && l.v < c.f.n
  {
    hide ArenaOk, CellOk;
  }

  lemma AdvanceStep(c: Context, y: Formula, k: Caches, base: Formula)
    requires Exact(c, k, base) && Builds(c.f, y)
    ensures Exact(c.(f := y), k, base) && Step(c, k, c.(f := y), k)
  {
    hide Exact, Builds, Extends;
    Advance(c, y, k, base);
  }

  // ---------- fresh variables ----------

  function LitsFrom(n: nat, w: nat): (r: seq<Lit>)
    ensures |r| == w && forall k :: 0 <= k < w ==> r[k] == Lit(n + k, false)
  {
    seq(w, k requires 0 <= k < w => Lit(n + k, false))
  }

  function BitCells(id: nat, w: nat): (r: seq<Cell>)
    ensures |r| == w && forall k :: 0 <= k < w ==> r[k] == BitOf(id, k)
  {
    seq(w, k requires 0 <= k < w => BitOf(id, k))
  }

  lemma FreshBit(c: Context, id: nat, w: nat, k: nat, m: Valuation, i: Interp)
    requires Scoped(c) && WordSort(c.sorts, c.terms, id) && SortOf(c.sorts, c.terms, id).width == w && k < w
    requires World(WithInputs(c, BitCells(id, w)), m, i)
    ensures Eval(c.sorts, c.terms, id, i).Word? && |Eval(c.sorts, c.terms, id, i).bits| == w
    ensures Eval(c.sorts, c.terms, id, i).bits[k] == Holds(m, Lit(c.f.n + k, false))
  {
    hide TermSorted, Fits, CellOk;
    var c' := WithInputs(c, BitCells(id, w));
    assert (c.f.n + k) in c'.inputs && c'.inputs[c.f.n + k] == BitOf(id, k);
  }

  /** The bits of a term as fresh variables. */
  lemma FreshWordMeans(c: Context, id: nat)
    requires Scoped(c) && WordSort(c.sorts, c.terms, id)
    requires Scoped(WithInputs(c, BitCells(id, SortOf(c.sorts, c.terms, id).width)))
    ensures MeansWord(WithInputs(c, BitCells(id, SortOf(c.sorts, c.terms, id).width)), id, LitsFrom(c.f.n, SortOf(c.sorts, c.terms, id).width))
  {
    hide TermSorted, Scoped, Fits, World, Eval, Holds;
    assert ArenaOk(c.sorts, c.terms) by { ScopedArena(c); }
    var w := SortOf(c.sorts, c.terms, id).width;
    var c', bits := WithInputs(c, BitCells(id, w)), LitsFrom(c.f.n, w);
    forall m: Valuation, i: Interp | World(c', m, i)
      ensures ArenaOk(c.sorts, c.terms) && Fits(i) && Eval(c.sorts, c.terms, id, i) == Word(Bits(m, bits))
    {
      WorldFacts(c', m, i);
      WordBits(c.sorts, c.terms, id, i);
      var x := Eval(c.sorts, c.terms, id, i);
      forall k | 0 <= k < w ensures Bits(m, bits)[k] == x.bits[k] { FreshBit(c, id, w, k, m, i); }
      assert Bits(m, bits) == x.bits;
    }
  }

  lemma WordBits(sorts: Sorts, terms: Terms, id: nat, i: Interp)
    requires ArenaOk(sorts, terms) && WordSort(sorts, terms, id) && Fits(i)
    ensures Eval(sorts, terms, id, i).Word? && |Eval(sorts, terms, id, i).bits| == SortOf(sorts, terms, id).width
  {
  }

  lemma FreshTruthMeans(c: Context, id: nat)
    requires Scoped(c) && TruthSort(c.sorts, c.terms, id) && Scoped(WithInputs(c, [TruthOf(id)]))
    ensures MeansTruth(WithInputs(c, [TruthOf(id)]), id, Lit(c.f.n, false))
  {
    hide TermSorted, Scoped, Fits, IsTrue;
    assert ArenaOk(c.sorts, c.terms) by { ScopedArena(c); }
    var c' := WithInputs(c, [TruthOf(id)]);
    forall m: Valuation, i: Interp | World(c', m, i) ensures IsTrue(c.sorts, c.terms, id, i) <==> Holds(m, Lit(c.f.n, false)) {
      assert c.f.n in c'.inputs && c'.inputs[c.f.n] == TruthOf(id);
    }
  }

  lemma FreshSameMeans(c: Context, a: nat, b: nat)
    requires Scoped(c) && a < |c.terms| && b < |c.terms| && Scoped(WithInputs(c, [Same(a, b)]))
    ensures MeansSame(WithInputs(c, [Same(a, b)]), a, b, Lit(c.f.n, false))
  {
    hide TermSorted, Scoped, Fits, Eval;
    assert ArenaOk(c.sorts, c.terms) by { ScopedArena(c); }
    var c' := WithInputs(c, [Same(a, b)]);
    forall m: Valuation, i: Interp | World(c', m, i)
      ensures Holds(m, Lit(c.f.n, false)) <==> Eval(c.sorts, c.terms, a, i) == Eval(c.sorts, c.terms, b, i)
    {
      assert c.f.n in c'.inputs && c'.inputs[c.f.n] == Same(a, b);
    }
  }

  /** A Boolean variable and its name have one literal. */
  lemma NameMeans(c: Context, id: nat, l: Lit)
    requires id < |c.terms| && c.terms[id].op.Var?
    requires Scoped(c) && TruthSort(c.sorts, c.terms, id)
    ensures MeansTruth(c, id, l) <==> MeansName(c, c.terms[id].op.name, l)
  {
    hide TermSorted, IsTrue, Eval;
    forall m: Valuation, i: Interp | World(c, m, i)
      ensures IsTrue(c.sorts, c.terms, id, i) <==> i.vars(c.terms[id].op.name, Sort.Bool) == Truth(true)
      ensures i.vars(c.terms[id].op.name, Sort.Bool).Truth?
    {
      EvalVar(c.sorts, c.terms, id, i);
      VarSort(i, c.terms[id].op.name);
      TruthMeansTrue(c, id, i);
    }
  }

  lemma VarSort(i: Interp, name: seq<byte>)
    requires Fits(i)
    ensures i.vars(name, Sort.Bool).Truth?
  {
    assert HasSort(i.vars(name, Sort.Bool), Sort.Bool);
  }

  lemma TruthMeansTrue(c: Context, id: nat, i: Interp)
    requires ArenaOk(c.sorts, c.terms) && Fits(i) && id < |c.terms|
    ensures IsTrue(c.sorts, c.terms, id, i) <==> Eval(c.sorts, c.terms, id, i) == Truth(true)
  {
    hide TermSorted, Eval, Fits;
  }

  /** New undefined variables belong to cells that the caches know. */
  lemma OwnedFresh(terms: Terms, c: Context, cells: seq<Cell>, k: Caches, k': Caches)
    requires Owned(terms, c.inputs, k) && CachesGrow(k, k') && Scoped(c)
    requires forall j :: 0 <= j < |cells| && VarCell(terms, cells[j]) ==> CellCached(terms, k', c.f.n + j, cells[j])
    ensures Owned(terms, WithInputs(c, cells).inputs, k')
  {
    hide TermSorted, CellOk, VarCell;
    OwnedGrows(terms, c.inputs, k, k');
    var inputs' := WithInputs(c, cells).inputs;
    forall v | v in inputs' && VarCell(terms, inputs'[v]) ensures CellCached(terms, k', v, inputs'[v]) {
      if v >= c.f.n { assert inputs'[v] == cells[v - c.f.n]; }
    }
  }

  lemma FreshWordStep(c: Context, k: Caches, base: Formula, id: nat)
    requires Exact(c, k, base) && Owned(c.terms, c.inputs, k) && id !in k.words
    requires ArenaOk(c.sorts, c.terms) && WordSort(c.sorts, c.terms, id)
    ensures
      var w := SortOf(c.sorts, c.terms, id).width;
      var c', bits := WithInputs(c, BitCells(id, w)), LitsFrom(c.f.n, w);
      var k' := k.(words := k.words[id := bits]);
      && Exact(c', k', base) && Step(c, k, c', k') && Owned(c.terms, c'.inputs, k') && MeansWord(c', id, bits)
      && (c.terms[id].op.Var? && OnlyVars(c.terms, c.inputs) ==> OnlyVars(c.terms, c'.inputs))
  {
    hide TermSorted, Exact, MeansWord, Owned, Extends, Scoped;
    var w := SortOf(c.sorts, c.terms, id).width;
    var cells, bits := BitCells(id, w), LitsFrom(c.f.n, w);
    var c', k' := WithInputs(c, cells), k.(words := k.words[id := bits]);
    ExactFacts(c, k, base);
    AddInputs(c, cells, k, base);
    ExactFacts(c', k, base);
    FreshWordMeans(c, id);
    StoreWord(c, k, c', k, base, id, bits);
    OwnedFresh(c.terms, c, cells, k, k');
    forall v | v in c'.inputs && OnlyVars(c.terms, c.inputs) && c.terms[id].op.Var? ensures VarCell(c.terms, c'.inputs[v]) {
      if v in InputsAt(c.f.n, cells) { assert c'.inputs[v] == BitOf(id, v - c.f.n); }
    }
  }

  lemma FreshTruthStep(c: Context, k: Caches, base: Formula, id: nat)
    requires Exact(c, k, base) && Owned(c.terms, c.inputs, k)
    requires ArenaOk(c.sorts, c.terms) && TruthSort(c.sorts, c.terms, id) && !c.terms[id].op.Var?
    ensures
      var c' := WithInputs(c, [TruthOf(id)]);
      && Exact(c', k, base) && Step(c, k, c', k) && Owned(c.terms, c'.inputs, k) && MeansTruth(c', id, Lit(c.f.n, false))
  {
    hide TermSorted, Exact, MeansTruth, Owned, Extends, Scoped;
    var cells := [TruthOf(id)];
    ExactFacts(c, k, base);
    AddInputs(c, cells, k, base);
    ExactFacts(WithInputs(c, cells), k, base);
    FreshTruthMeans(c, id);
    OwnedFresh(c.terms, c, cells, k, k);
  }

  lemma FreshNameStep(c: Context, k: Caches, base: Formula, id: nat)
    requires Exact(c, k, base) && Owned(c.terms, c.inputs, k)
    requires ArenaOk(c.sorts, c.terms) && TruthSort(c.sorts, c.terms, id) && c.terms[id].op.Var? && c.terms[id].op.name !in k.names
    ensures
      var c', l := WithInputs(c, [TruthOf(id)]), Lit(c.f.n, false);
      var k' := k.(names := k.names[c.terms[id].op.name := l]);
      && Exact(c', k', base) && Step(c, k, c', k') && Owned(c.terms, c'.inputs, k') && MeansTruth(c', id, l)
      && (OnlyVars(c.terms, c.inputs) ==> OnlyVars(c.terms, c'.inputs))
  {
    hide TermSorted, Exact, MeansTruth, MeansName, Owned, Extends, Scoped;
    var cells, l, name := [TruthOf(id)], Lit(c.f.n, false), c.terms[id].op.name;
    var c', k' := WithInputs(c, cells), k.(names := k.names[name := l]);
    ExactFacts(c, k, base);
    AddInputs(c, cells, k, base);
    ExactFacts(c', k, base);
    FreshTruthMeans(c, id);
    NameMeans(c', id, l);
    StoreName(c', k, base, name, l);
    OwnedFresh(c.terms, c, cells, k, k');
    forall v | v in c'.inputs && OnlyVars(c.terms, c.inputs) ensures VarCell(c.terms, c'.inputs[v]) {
      if v in InputsAt(c.f.n, cells) { assert c'.inputs[v] == TruthOf(id); }
    }
  }

  lemma FreshSameStep(c: Context, k: Caches, base: Formula, a: nat, b: nat)
    requires Exact(c, k, base) && Owned(c.terms, c.inputs, k) && a < |c.terms| && b < |c.terms|
    ensures
      var c' := WithInputs(c, [Same(a, b)]);
      && Exact(c', k, base) && Step(c, k, c', k) && Owned(c.terms, c'.inputs, k) && MeansSame(c', a, b, Lit(c.f.n, false))
  {
    hide TermSorted, Exact, MeansSame, Owned, Extends, Scoped;
    var cells := [Same(a, b)];
    ExactFacts(c, k, base);
    AddInputs(c, cells, k, base);
    ExactFacts(WithInputs(c, cells), k, base);
    FreshSameMeans(c, a, b);
    OwnedFresh(c.terms, c, cells, k, k);
  }

  method NextVar(circuits: BitBlaster, solver: Sink) returns (v: nat)
    requires circuits.Ready(solver)
    modifies solver`numVars
    ensures circuits.Ready(solver) && v == old(solver.numVars) && solver.numVars == v + 1
  {
    v := solver.NewVar();
  }

  /** As many fresh variables as a word has bits. */
  method FreshLits(width: nat, circuits: BitBlaster, solver: Sink) returns (bits: seq<Lit>)
    requires circuits.Ready(solver)
    modifies solver`numVars
    ensures circuits.Ready(solver) && bits == LitsFrom(old(solver.numVars), width) && solver.numVars == old(solver.numVars) + width
  {
    hide BitBlaster.Ready;
    bits := [];
    for j := 0 to width
      invariant circuits.Ready(solver) && solver.numVars == old(solver.numVars) + j && bits == LitsFrom(old(solver.numVars), j)
    {
      var v := NextVar(circuits, solver);
      bits := bits + [Lit(v, false)];
    }
  }

  lemma CachedWord(c: Context, k: Caches, base: Formula, id: nat)
    requires Exact(c, k, base) && id in k.words
    ensures MeansWord(c, id, k.words[id])
  {
    hide MeansWord, MeansTruth, MeansName, Realizable, RootsHold, Scoped;
  }

  lemma CachedTruth(c: Context, k: Caches, base: Formula, id: nat)
    requires Exact(c, k, base) && id in k.truths
    ensures MeansTruth(c, id, k.truths[id])
  {
    hide MeansWord, MeansTruth, MeansName, Realizable, RootsHold, Scoped;
  }

  lemma CachedName(c: Context, k: Caches, base: Formula, name: seq<byte>)
    requires Exact(c, k, base) && name in k.names
    ensures MeansName(c, name, k.names[name])
  {
    hide MeansWord, MeansTruth, MeansName, Realizable, RootsHold, Scoped;
  }

  lemma StepExtends(c: Context, k: Caches, c': Context, k': Caches)
    requires Step(c, k, c', k')
    ensures Extends(c, c')
  {
  }

  lemma NarrowShift(sorts: Sorts, terms: Terms, id: nat)
    requires ArenaOk(sorts, terms) && ShiftsNarrow(sorts, terms) && WordSort(sorts, terms, id)
    ensures Shifts(terms[id].op) ==> SortOf(sorts, terms, id).width <= 64
  {
    hide TermSorted;
  }

  /** A word without a circuit that is no variable. */
  lemma FallbackWord(sorts: Sorts, terms: Terms, id: nat)
    requires ArenaOk(sorts, terms) && WordSort(sorts, terms, id)
    ensures var op := terms[id].op;
      OnWords(op) || OnWord(op) || op.BvConcat? || op.Ite? || op.BvConst? || op.Var? || !Handled(sorts, terms, id)
  {
    hide ArenaOk;
    NodeOk(sorts, terms, id);
  }

  lemma ArgsEarlier(sorts: Sorts, terms: Terms, id: nat)
    requires ArenaOk(sorts, terms) && id < |terms|
    ensures forall k :: 0 <= k < |terms[id].args| ==> terms[id].args[k] < id
    ensures SortOf(sorts, terms, id).BitVec? ==> SortOf(sorts, terms, id).width > 0
  {
    assert TermSorted(sorts, terms, id);
  }

  lemma LiteralStep(c: Context, id: nat, t: Lit)
    requires Scoped(c) && id < |c.terms| && (c.terms[id].op.True? || c.terms[id].op.False?)
    requires TruthSort(c.sorts, c.terms, id) && t.v < c.f.n && forall m: Valuation :: ModelsAll(m, c.f.f) ==> Holds(m, t)
    ensures MeansTruth(c, id, if c.terms[id].op.True? then t else t.Not())
  {
    hide ArenaOk, Eval;
    forall m: Valuation, i: Interp | World(c, m, i) ensures IsTrue(c.sorts, c.terms, id, i) <==> c.terms[id].op.True? {
      EvalConstant(c.sorts, c.terms, id, i);
    }
  }

  lemma EmptyMany(c: Context, id: nat, t: Lit)
    requires Scoped(c) && id < |c.terms| && (c.terms[id].op.And? || c.terms[id].op.Or?) && c.terms[id].args == []
    requires t.v < c.f.n && forall m: Valuation :: ModelsAll(m, c.f.f) ==> Holds(m, t)
    ensures MeansTruth(c, id, if c.terms[id].op.And? then t else t.Not())
  {
    hide ArenaOk, IsTrue;
    TruthsShape(c.sorts, c.terms, id);
    forall m: Valuation, i: Interp | World(c, m, i) ensures IsTrue(c.sorts, c.terms, id, i) <==> c.terms[id].op.And? {
      EvalTruths(c.sorts, c.terms, id, i);
    }
  }

  lemma ManyBelow(c: Context, conj: bool, ids: seq<nat>, l: Lit)
    requires MeansMany(c, conj, ids, l)
    ensures l.v < c.f.n
  {
    hide ArenaOk, Scoped;
  }

  lemma ApartBelow(c: Context, pairs: seq<(nat, nat)>, ls: seq<Lit>)
    requires MeansApart(c, pairs, ls)
    ensures |pairs| == |ls| && Below(ls, c.f.n)
  {
    hide ArenaOk, Scoped;
    forall l | l in ls ensures l.v < c.f.n {
      var k :| 0 <= k < |ls| && ls[k] == l;
      assert MeansSame(c, pairs[k].0, pairs[k].1, ls[k].Not());
    }
  }

  lemma ApartMore(c: Context, pairs: seq<(nat, nat)>, ls: seq<Lit>, a: nat, b: nat, l: Lit)
    requires MeansApart(c, pairs, ls) && MeansSame(c, a, b, l)
    ensures MeansApart(c, pairs + [(a, b)], ls + [l.Not()])
  {
    hide MeansSame;
    assert l.Not().Not() == l;
  }

  lemma NoneApart(c: Context, args: seq<nat>)
    ensures MeansApart(c, [], []) && Paired(args, [], 0, 0)
  {
  }

  lemma FewApart(c: Context, args: seq<nat>)
    requires |args| <= 1
    ensures MeansApart(c, [], []) && Paired(args, [], |args|, 0)
  {
  }

  /** Gates from the first literal on. */
  method Conjunction(ls: seq<Lit>, circuits: BitBlaster, solver: Sink) returns (r: Lit)
    requires circuits.Ready(solver) && Below(ls, solver.numVars) && ls != []
    modifies solver
    ensures circuits.Ready(solver) && Builds(old(solver.State()), solver.State()) && r.v < solver.numVars
    ensures forall m: Valuation :: ModelsAll(m, solver.clauses) ==> (Holds(m, r) <==> forall k :: 0 <= k < |ls| ==> Holds(m, ls[k]))
  {
    hide Grown, ModelsAll, Holds, Formula.Wf;
    GrownRefl(solver.State());
    assert ls[0] in ls;
    r := ls[0];
    for j := 1 to |ls|
      invariant circuits.Ready(solver) && Builds(old(solver.State()), solver.State()) && r.v < solver.numVars
      invariant forall m: Valuation :: ModelsAll(m, solver.clauses) ==> (Holds(m, r) <==> forall k :: 0 <= k < j ==> Holds(m, ls[k]))
    {
      assert ls[j] in ls;
      r := GateAnd(r, ls[j], solver);
    }
  }

  /** A truth without a circuit that is no variable. */
  lemma FallbackTruth(sorts: Sorts, terms: Terms, id: nat)
    requires ArenaOk(sorts, terms) && TruthSort(sorts, terms, id)
    ensures var op := terms[id].op;
      || op.True? || op.False? || op.Var? || OnTruths(op) || op.Ite? || op.Eq? || op.Distinct? || HasCircuit(op)
      || !Handled(sorts, terms, id)
  {
    hide ArenaOk;
    NodeOk(sorts, terms, id);
  }

  // ---------- the walk ----------

  class TermBlaster {
    const sorts: Sorts
    const terms: Terms
    const circuits: BitBlaster
    var termBits: map<nat, seq<Lit>>
    var boolCache: map<nat, Lit>
    var varLits: map<seq<byte>, Lit>
    /** The cells of the undefined variables, the terms asserted, and the formula at the start. */
    ghost var inputs: map<nat, Cell>
    ghost var roots: set<nat>
    ghost var base: Formula

    ghost function Here(solver: Sink): Context
      reads this, solver
    {
      Context(sorts, terms, inputs, roots, solver.State())
    }

    ghost function Known(): Caches
      reads this
    {
      Caches(termBits, boolCache, varLits)
    }

    ghost predicate Valid(solver: Sink)
      reads this, circuits, solver
    {
      && circuits.Ready(solver) && Exact(Here(solver), Known(), base)
      && ArenaOk(sorts, terms) && ShiftsNarrow(sorts, terms) && Owned(terms, inputs, Known())
    }

    constructor (sorts: Sorts, terms: Terms, solver: Sink)
      requires ArenaOk(sorts, terms) && ShiftsNarrow(sorts, terms) && solver.State().Wf()
      ensures this.sorts == sorts && this.terms == terms && fresh(circuits)
      ensures Valid(solver) && base == solver.State() && inputs == map[] && roots == {} && Known() == Caches(map[], map[], map[])
    {
      hide TermSorted, ShiftsNarrow, Exact;
      this.sorts, this.terms := sorts, terms;
      circuits := new BitBlaster();
      termBits, boolCache, varLits := map[], map[], map[];
      inputs, roots, base := map[], {}, solver.State();
      new;
      Start(sorts, terms, solver.State());
    }

    /** What every call keeps. */
    twostate predicate Kept(solver: Sink)
      reads this, solver
    {
      Step(old(Here(solver)), old(Known()), Here(solver), Known()) && base == old(base) && roots == old(roots)
    }

    /** Blasting a pure term adds only variables of its variables. */
    twostate predicate KeptPure(id: nat)
      requires ArenaOk(sorts, terms) && id < |terms|
      reads this
    {
      Pure(sorts, terms, id) && OnlyVars(terms, old(inputs)) ==> OnlyVars(terms, inputs)
    }

    /** Fresh variables for the bits of a variable, or of a term that has no circuit. */
    method FreshWord(id: nat, solver: Sink) returns (bits: seq<Lit>)
      requires Valid(solver) && WordSort(sorts, terms, id) && id !in termBits
      modifies this, circuits, solver
      ensures Valid(solver) && Kept(solver) && id in termBits && termBits[id] == bits
      ensures MeansWord(Here(solver), id, bits)
      ensures terms[id].op.Var? ==> (OnlyVars(terms, old(inputs)) ==> OnlyVars(terms, inputs))
      ensures solver.clauses == old(solver.clauses)
    {
      hide TermSorted, ShiftsNarrow, Exact, MeansWord, Owned, BitBlaster.Ready, CellCached, VarCell, Step, World;
      var width := SortOf(sorts, terms, id).width;
      ghost var c, k := Here(solver), Known();
      ghost var n := solver.numVars;
      bits := FreshLits(width, circuits, solver);
      ghost var cells := BitCells(id, width);
      inputs := inputs + InputsAt(n, cells);
      termBits := termBits[id := bits];
      FreshWordStep(c, k, base, id);
      assert Here(solver) == WithInputs(c, cells) && Known() == k.(words := k.words[id := bits]);
    }

    /** The bits of a bit-vector term. */
    method BlastBv(id: nat, solver: Sink) returns (bits: seq<Lit>)
      requires Valid(solver) && WordSort(sorts, terms, id)
      modifies this, circuits, solver
      ensures Valid(solver) && Kept(solver) && id in termBits && termBits[id] == bits
      ensures MeansWord(Here(solver), id, bits) && KeptPure(id)
      ensures terms[id].op.Var? ==> solver.clauses == old(solver.clauses)
      decreases id, 5
    {
      hide TermSorted, Exact, MeansWord, Owned, BitBlaster.Ready, Step, NodeSorted, Scoped;
      ghost var c0, k0 := Here(solver), Known();
      ExactFacts(c0, k0, base);
      StepRefl(c0, k0);
      if id in termBits {
        CachedWord(c0, k0, base, id);
        return termBits[id];
      }
      ArgsEarlier(sorts, terms, id);
      if Pure(sorts, terms, id) { PureArgs(sorts, terms, id); }
      var op := terms[id].op;
      if OnWords(op) {
        bits := BlastOnWords(id, solver);
      } else if OnWord(op) {
        bits := BlastOnWord(id, solver);
      } else if op.BvConcat? {
        bits := BlastConcat(id, solver);
      } else if op.Ite? {
        bits := BlastIte(id, solver);
      } else if op.BvConst? {
        bits := BlastConstant(id, solver);
      } else {
        bits := FreshWord(id, solver);
        FallbackWord(sorts, terms, id);
        return;
      }
      StoreWord(c0, k0, Here(solver), Known(), base, id, bits);
      OwnedStore(terms, inputs, Known(), id, bits);
      termBits := termBits[id := bits];
    }

    /** The bits of the two arguments of a term. */
    method BlastPair(id: nat, solver: Sink) returns (a: seq<Lit>, b: seq<Lit>)
      requires Valid(solver) && id < |terms| && |terms[id].args| == 2 && terms[id].args[0] < id && terms[id].args[1] < id
      requires WordSort(sorts, terms, terms[id].args[0]) && WordSort(sorts, terms, terms[id].args[1])
      modifies this, circuits, solver
      ensures Valid(solver) && Kept(solver)
      ensures MeansWord(Here(solver), terms[id].args[0], a) && MeansWord(Here(solver), terms[id].args[1], b)
      ensures KeptPureArgs(id)
      decreases id, 2
    {
      hide TermSorted, Exact, MeansWord, Owned, BitBlaster.Ready, Step, NodeSorted, Scoped, Pure;
      ghost var c0, k0 := Here(solver), Known();
      a := BlastBv(terms[id].args[0], solver);
      ghost var c1, k1 := Here(solver), Known();
      b := BlastBv(terms[id].args[1], solver);
      StepTrans(c0, k0, c1, k1, Here(solver), Known());
      StepExtends(c1, k1, Here(solver), Known());
      WordExtends(c1, Here(solver), terms[id].args[0], a);
    }

    twostate predicate KeptPureArgs(id: nat)
      requires ArenaOk(sorts, terms) && id < |terms| && forall k :: 0 <= k < |terms[id].args| ==> terms[id].args[k] < id
      reads this
    {
      (forall k :: 0 <= k < |terms[id].args| ==> Pure(sorts, terms, terms[id].args[k])) && OnlyVars(terms, old(inputs)) ==>
        OnlyVars(terms, inputs)
    }

    method BlastOnWords(id: nat, solver: Sink) returns (bits: seq<Lit>)
      requires Valid(solver) && id < |terms| && OnWords(terms[id].op)
      requires forall k :: 0 <= k < |terms[id].args| ==> terms[id].args[k] < id
      modifies this, circuits, solver
      ensures Valid(solver) && Kept(solver) && MeansWord(Here(solver), id, bits) && KeptPureArgs(id)
      decreases id, 3
    {
      hide TermSorted, Exact, MeansWord, Owned, BitBlaster.Ready, Step, NodeSorted, Scoped, Pure, Builds, WordsFrom;
      OnWordsShape(sorts, terms, id);
      NarrowShift(sorts, terms, id);
      ghost var c0, k0 := Here(solver), Known();
      var a, b := BlastPair(id, solver);
      ghost var c1, k1 := Here(solver), Known();
      WordFacts(c1, terms[id].args[0], a);
      WordFacts(c1, terms[id].args[1], b);
      bits := RunOnWords(terms[id].op, a, b, circuits, solver);
      AdvanceStep(c1, solver.State(), k1, base);
      StepTrans(c0, k0, c1, k1, Here(solver), Known());
      StepExtends(c1, k1, Here(solver), Known());
      WordExtends(c1, Here(solver), terms[id].args[0], a);
      WordExtends(c1, Here(solver), terms[id].args[1], b);
      ExactFacts(Here(solver), Known(), base);
      WordsStep(Here(solver), id, a, b, bits);
    }

    method BlastOnWord(id: nat, solver: Sink) returns (bits: seq<Lit>)
      requires Valid(solver) && id < |terms| && OnWord(terms[id].op)
      requires forall k :: 0 <= k < |terms[id].args| ==> terms[id].args[k] < id
      modifies this, circuits, solver
      ensures Valid(solver) && Kept(solver) && MeansWord(Here(solver), id, bits) && KeptPureArgs(id)
      decreases id, 3
    {
      hide TermSorted, Exact, MeansWord, Owned, BitBlaster.Ready, Step, NodeSorted, Scoped, Pure, Builds, WordFrom, WidthOf;
      OnWordShape(sorts, terms, id);
      ghost var c0, k0 := Here(solver), Known();
      var a := BlastBv(terms[id].args[0], solver);
      ghost var c1, k1 := Here(solver), Known();
      WordFacts(c1, terms[id].args[0], a);
      bits := RunOnWord(terms[id].op, a, circuits, solver);
      AdvanceStep(c1, solver.State(), k1, base);
      StepTrans(c0, k0, c1, k1, Here(solver), Known());
      StepExtends(c1, k1, Here(solver), Known());
      WordExtends(c1, Here(solver), terms[id].args[0], a);
      ExactFacts(Here(solver), Known(), base);
      WordStep(Here(solver), id, a, bits);
    }

    /** The first argument is the high part. */
    method BlastConcat(id: nat, solver: Sink) returns (bits: seq<Lit>)
      requires Valid(solver) && id < |terms| && terms[id].op.BvConcat?
      requires forall k :: 0 <= k < |terms[id].args| ==> terms[id].args[k] < id
      modifies this, circuits, solver
      ensures Valid(solver) && Kept(solver) && MeansWord(Here(solver), id, bits) && KeptPureArgs(id)
      decreases id, 3
    {
      hide TermSorted, Exact, MeansWord, Owned, BitBlaster.Ready, Step, NodeSorted, Scoped, Pure;
      ConcatShape(sorts, terms, id);
      var a, b := BlastPair(id, solver);
      bits := b + a;
      ExactFacts(Here(solver), Known(), base);
      ConcatStep(Here(solver), id, a, b);
    }

    method BlastConstant(id: nat, solver: Sink) returns (bits: seq<Lit>)
      requires Valid(solver) && WordSort(sorts, terms, id) && terms[id].op.BvConst?
      requires forall k :: 0 <= k < |terms[id].args| ==> terms[id].args[k] < id
      modifies this, circuits, solver
      ensures Valid(solver) && Kept(solver) && MeansWord(Here(solver), id, bits) && KeptPureArgs(id)
      decreases id, 3
    {
      hide TermSorted, Exact, MeansWord, Owned, BitBlaster.Ready, Step, NodeSorted, Scoped, Pure, Builds, Holds, ModelsAll;
      ghost var c0, k0 := Here(solver), Known();
      var t := circuits.GetTrueLit(solver);
      AdvanceStep(c0, solver.State(), k0, base);
      bits := ConstantBits(terms[id].op.value, SortOf(sorts, terms, id).width, t);
      ExactFacts(Here(solver), Known(), base);
      ConstantStep(Here(solver), id, bits, t);
    }

    method BlastIte(id: nat, solver: Sink) returns (bits: seq<Lit>)
      requires Valid(solver) && WordSort(sorts, terms, id) && terms[id].op.Ite?
      requires forall k :: 0 <= k < |terms[id].args| ==> terms[id].args[k] < id
      modifies this, circuits, solver
      ensures Valid(solver) && Kept(solver) && MeansWord(Here(solver), id, bits) && KeptPureArgs(id)
      decreases id, 3
    {
      hide TermSorted, Exact, MeansWord, MeansTruth, Owned, BitBlaster.Ready, Step, NodeSorted, Scoped, Pure, Builds, Bits;
      PolymorphicShape(sorts, terms, id);
      var args := terms[id].args;
      ghost var c0, k0 := Here(solver), Known();
      var cond := BlastBool(args[0], solver);
      ghost var c1, k1 := Here(solver), Known();
      var t := BlastBv(args[1], solver);
      ghost var c2, k2 := Here(solver), Known();
      StepTrans(c0, k0, c1, k1, c2, k2);
      StepExtends(c1, k1, c2, k2);
      TruthExtends(c1, c2, args[0], cond);
      var e := BlastBv(args[2], solver);
      ghost var c3, k3 := Here(solver), Known();
      StepTrans(c0, k0, c2, k2, c3, k3);
      StepExtends(c2, k2, c3, k3);
      TruthExtends(c2, c3, args[0], cond);
      WordExtends(c2, c3, args[1], t);
      TruthFacts(c3, args[0], cond);
      WordFacts(c3, args[1], t);
      WordFacts(c3, args[2], e);
      bits := circuits.IteVec(cond, t, e, solver);
      AdvanceStep(c3, solver.State(), k3, base);
      StepTrans(c0, k0, c3, k3, Here(solver), Known());
      StepExtends(c3, k3, Here(solver), Known());
      TruthExtends(c3, Here(solver), args[0], cond);
      WordExtends(c3, Here(solver), args[1], t);
      WordExtends(c3, Here(solver), args[2], e);
      ExactFacts(Here(solver), Known(), base);
      IteWordStep(Here(solver), id, cond, t, e, bits);
    }

    /** The literal of a Boolean term. */
    method BlastBool(id: nat, solver: Sink) returns (l: Lit)
      requires Valid(solver) && TruthSort(sorts, terms, id)
      modifies this, circuits, solver
      ensures Valid(solver) && Kept(solver) && id in boolCache && boolCache[id] == l
      ensures MeansTruth(Here(solver), id, l) && KeptPure(id)
      ensures terms[id].op.Var? || Unclaused(terms, id) ==> solver.clauses == old(solver.clauses)
      decreases id, 5
    {
      hide TermSorted, Exact, MeansTruth, Owned, BitBlaster.Ready, Step, NodeSorted, Scoped;
      ghost var c0, k0 := Here(solver), Known();
      ExactFacts(c0, k0, base);
      StepRefl(c0, k0);
      if id in boolCache {
        CachedTruth(c0, k0, base, id);
        return boolCache[id];
      }
      ArgsEarlier(sorts, terms, id);
      if Pure(sorts, terms, id) { PureArgs(sorts, terms, id); }
      l := BlastNode(id, solver);
      StoreTruth(c0, k0, Here(solver), Known(), base, id, l);
      OwnedTruth(terms, inputs, Known(), id, l);
      boolCache := boolCache[id := l];
    }

    /** The literal of a Boolean term that is not cached, by its operator. */
    method BlastNode(id: nat, solver: Sink) returns (l: Lit)
      requires Valid(solver) && TruthSort(sorts, terms, id)
      requires forall k :: 0 <= k < |terms[id].args| ==> terms[id].args[k] < id
      modifies this, circuits, solver
      ensures Valid(solver) && Kept(solver) && MeansTruth(Here(solver), id, l)
      ensures Handled(sorts, terms, id) ==> KeptPureArgs(id)
      ensures terms[id].op.Var? || Unclaused(terms, id) ==> solver.clauses == old(solver.clauses)
      decreases id, 4
    {
      hide TermSorted, Exact, MeansTruth, Owned, BitBlaster.Ready, Step, NodeSorted, Scoped, Pure;
      var op := terms[id].op;
      if op.True? || op.False? {
        l := BlastLiteral(id, solver);
      } else if op.Var? {
        l := BlastName(id, solver);
      } else if op.And? || op.Or? {
        l := BlastMany(id, solver);
      } else if op.Not? || op.Xor? || op.Implies? {
        l := BlastConnective(id, solver);
      } else if op.Ite? {
        l := BlastChoice(id, solver);
      } else if op.Eq? {
        PolymorphicShape(sorts, terms, id);
        l := BlastSame(id, terms[id].args[0], terms[id].args[1], solver);
        ExactFacts(Here(solver), Known(), base);
        EqStep(Here(solver), id, l);
      } else if op.Distinct? {
        l := BlastDistinct(id, solver);
      } else if HasCircuit(op) {
        l := BlastCompare(id, solver);
      } else {
        l := FreshTruth(id, solver);
        FallbackTruth(sorts, terms, id);
      }
    }

    /** A fresh variable for the truth of a term without a circuit. */
    method FreshTruth(id: nat, solver: Sink) returns (l: Lit)
      requires Valid(solver) && TruthSort(sorts, terms, id) && !terms[id].op.Var?
      modifies this, circuits, solver
      ensures Valid(solver) && Kept(solver) && MeansTruth(Here(solver), id, l)
      ensures solver.clauses == old(solver.clauses) && l == Lit(old(solver.numVars), false)
    {
      hide TermSorted, ShiftsNarrow, Exact, MeansTruth, Owned, BitBlaster.Ready, CellCached, VarCell, Step, World;
      ghost var c, k := Here(solver), Known();
      var v := NextVar(circuits, solver);
      l := Lit(v, false);
      inputs := inputs + InputsAt(v, [TruthOf(id)]);
      FreshTruthStep(c, k, base, id);
      assert Here(solver) == WithInputs(c, [TruthOf(id)]);
    }

    method BlastLiteral(id: nat, solver: Sink) returns (l: Lit)
      requires Valid(solver) && TruthSort(sorts, terms, id) && (terms[id].op.True? || terms[id].op.False?)
      modifies this, circuits, solver
      ensures Valid(solver) && Kept(solver) && MeansTruth(Here(solver), id, l) && inputs == old(inputs)
    {
      hide TermSorted, Exact, MeansTruth, Owned, BitBlaster.Ready, Step, NodeSorted, Scoped, Builds, Holds, ModelsAll;
      ghost var c0, k0 := Here(solver), Known();
      var t := circuits.GetTrueLit(solver);
      l := if terms[id].op.True? then t else t.Not();
      AdvanceStep(c0, solver.State(), k0, base);
      ExactFacts(Here(solver), Known(), base);
      LiteralStep(Here(solver), id, t);
    }

    /** A Boolean variable has one literal per name. */
    method BlastName(id: nat, solver: Sink) returns (l: Lit)
      requires Valid(solver) && TruthSort(sorts, terms, id) && terms[id].op.Var?
      modifies this, circuits, solver
      ensures Valid(solver) && Kept(solver) && MeansTruth(Here(solver), id, l)
      ensures OnlyVars(terms, old(inputs)) ==> OnlyVars(terms, inputs)
      ensures solver.clauses == old(solver.clauses)
    {
      hide TermSorted, ShiftsNarrow, Exact, MeansTruth, MeansName, Owned, BitBlaster.Ready, CellCached, VarCell, Step, World;
      ghost var c, k := Here(solver), Known();
      ExactFacts(c, k, base);
      StepRefl(c, k);
      var name := terms[id].op.name;
      if name in varLits {
        l := varLits[name];
        CachedName(c, k, base, name);
        NameMeans(c, id, l);
        return;
      }
      var v := NextVar(circuits, solver);
      l := Lit(v, false);
      inputs := inputs + InputsAt(v, [TruthOf(id)]);
      varLits := varLits[name := l];
      FreshNameStep(c, k, base, id);
      assert Here(solver) == WithInputs(c, [TruthOf(id)]);
    }

    /** Conjunctions and disjunctions: a gate after each argument but the first. */
    method BlastMany(id: nat, solver: Sink) returns (l: Lit)
      requires Valid(solver) && TruthSort(sorts, terms, id) && (terms[id].op.And? || terms[id].op.Or?)
      requires forall k :: 0 <= k < |terms[id].args| ==> terms[id].args[k] < id
      modifies this, circuits, solver
      ensures Valid(solver) && Kept(solver) && MeansTruth(Here(solver), id, l) && KeptPureArgs(id)
      decreases id, 3
    {
      hide TermSorted, Exact, MeansTruth, MeansMany, Owned, BitBlaster.Ready, Step, NodeSorted, Scoped, Builds, Holds, ModelsAll, Pure;
      TruthsShape(sorts, terms, id);
      var args := terms[id].args;
      ghost var c0, k0, conj := Here(solver), Known(), terms[id].op.And?;
      if args == [] {
        var t := circuits.GetTrueLit(solver);
        l := if terms[id].op.And? then t else t.Not();
        AdvanceStep(c0, solver.State(), k0, base);
        ExactFacts(Here(solver), Known(), base);
        EmptyMany(Here(solver), id, t);
        return;
      }
      l := BlastBool(args[0], solver);
      ManyOne(Here(solver), conj, args[0], l);
      assert args[..1] == [args[0]];
      for j := 1 to |args|
        invariant Valid(solver) && Kept(solver) && MeansMany(Here(solver), conj, args[..j], l)
        invariant (forall k :: 0 <= k < j ==> Pure(sorts, terms, args[k])) && OnlyVars(terms, old(inputs)) ==> OnlyVars(terms, inputs)
      {
        ghost var c1, k1 := Here(solver), Known();
        l := ManyMore(id, j, l, solver);
        StepTrans(c0, k0, c1, k1, Here(solver), Known());
        assert args[..j] + [args[j]] == args[..j + 1];
      }
      assert args[..|args|] == args;
      ExactFacts(Here(solver), Known(), base);
      ManyStep(Here(solver), id, l);
    }

    /** One more argument of a conjunction or disjunction. */
    method ManyMore(id: nat, j: nat, l: Lit, solver: Sink) returns (r: Lit)
      requires Valid(solver) && id < |terms| && (terms[id].op.And? || terms[id].op.Or?) && j < |terms[id].args|
      requires terms[id].args[j] < id && TruthSort(sorts, terms, terms[id].args[j])
      requires MeansMany(Here(solver), terms[id].op.And?, terms[id].args[..j], l)
      modifies this, circuits, solver
      ensures Valid(solver) && Kept(solver) && KeptPure(terms[id].args[j])
      ensures MeansMany(Here(solver), terms[id].op.And?, terms[id].args[..j] + [terms[id].args[j]], r)
      decreases id, 2
    {
      hide TermSorted, Exact, MeansTruth, MeansMany, Owned, BitBlaster.Ready, Step, NodeSorted, Scoped, Builds, Holds, ModelsAll, Pure;
      ghost var c0, k0, conj, ids := Here(solver), Known(), terms[id].op.And?, terms[id].args[..j];
      var x := terms[id].args[j];
      var b := BlastBool(x, solver);
      ghost var c1, k1 := Here(solver), Known();
      StepExtends(c0, k0, c1, k1);
      ManyExtends(c0, c1, conj, ids, l);
      ManyBelow(c1, conj, ids, l);
      TruthFacts(c1, x, b);
      if terms[id].op.And? {
        r := Both(l, b, circuits, solver);
      } else {
        r := Either(l, b, circuits, solver);
      }
      AdvanceStep(c1, solver.State(), k1, base);
      StepTrans(c0, k0, c1, k1, Here(solver), Known());
      StepExtends(c1, k1, Here(solver), Known());
      ManyExtends(c1, Here(solver), conj, ids, l);
      TruthExtends(c1, Here(solver), x, b);
      ManyNext(Here(solver), conj, ids, x, l, b, r);
    }

    method BlastConnective(id: nat, solver: Sink) returns (l: Lit)
      requires Valid(solver) && TruthSort(sorts, terms, id) && (terms[id].op.Not? || terms[id].op.Xor? || terms[id].op.Implies?)
      requires forall k :: 0 <= k < |terms[id].args| ==> terms[id].args[k] < id
      modifies this, circuits, solver
      ensures Valid(solver) && Kept(solver) && MeansTruth(Here(solver), id, l) && KeptPureArgs(id)
      ensures Unclaused(terms, id) ==> solver.clauses == old(solver.clauses)
      decreases id, 3
    {
      hide TermSorted, Exact, MeansTruth, Owned, BitBlaster.Ready, Step, NodeSorted, Scoped, Builds, Holds, ModelsAll, Pure, NoCircuit;
      TruthsShape(sorts, terms, id);
      if Unclaused(terms, id) { NegatedOnly(terms, id); }
      var args, op := terms[id].args, terms[id].op;
      ghost var c0, k0 := Here(solver), Known();
      var x := BlastBool(args[0], solver);
      ghost var c1, k1 := Here(solver), Known();
      TruthFacts(c1, args[0], x);
      if op.Not? {
        l := x.Not();
        forall m: Valuation ensures Holds(m, l) <==> !Holds(m, x) { HoldsNot(m, x); }
        TruthStep(c1, id, x, x, l);
        return;
      }
      var y := BlastBool(args[1], solver);
      ghost var c2, k2 := Here(solver), Known();
      StepTrans(c0, k0, c1, k1, c2, k2);
      StepExtends(c1, k1, c2, k2);
      TruthExtends(c1, c2, args[0], x);
      TruthFacts(c2, args[0], x);
      TruthFacts(c2, args[1], y);
      if op.Xor? {
        l := Differ(x, y, circuits, solver);
      } else {
        l := Either(x.Not(), y, circuits, solver);
        forall m: Valuation ensures Holds(m, x.Not()) <==> !Holds(m, x) { HoldsNot(m, x); }
      }
      AdvanceStep(c2, solver.State(), k2, base);
      StepTrans(c0, k0, c2, k2, Here(solver), Known());
      StepExtends(c2, k2, Here(solver), Known());
      TruthExtends(c2, Here(solver), args[0], x);
      TruthExtends(c2, Here(solver), args[1], y);
      ExactFacts(Here(solver), Known(), base);
      TruthStep(Here(solver), id, x, y, l);
    }

    method BlastChoice(id: nat, solver: Sink) returns (l: Lit)
      requires Valid(solver) && TruthSort(sorts, terms, id) && terms[id].op.Ite?
      requires forall k :: 0 <= k < |terms[id].args| ==> terms[id].args[k] < id
      modifies this, circuits, solver
      ensures Valid(solver) && Kept(solver) && MeansTruth(Here(solver), id, l) && KeptPureArgs(id)
      decreases id, 3
    {
      hide TermSorted, Exact, MeansTruth, Owned, BitBlaster.Ready, Step, NodeSorted, Scoped, Pure, Builds, Holds, ModelsAll;
      PolymorphicShape(sorts, terms, id);
      var args := terms[id].args;
      ghost var c0, k0 := Here(solver), Known();
      var cond := BlastBool(args[0], solver);
      ghost var c1, k1 := Here(solver), Known();
      var t := BlastBool(args[1], solver);
      ghost var c2, k2 := Here(solver), Known();
      StepTrans(c0, k0, c1, k1, c2, k2);
      StepExtends(c1, k1, c2, k2);
      TruthExtends(c1, c2, args[0], cond);
      var e := BlastBool(args[2], solver);
      ghost var c3, k3 := Here(solver), Known();
      StepTrans(c0, k0, c2, k2, c3, k3);
      StepExtends(c2, k2, c3, k3);
      TruthExtends(c2, c3, args[0], cond);
      TruthExtends(c2, c3, args[1], t);
      TruthFacts(c3, args[0], cond);
      TruthFacts(c3, args[1], t);
      TruthFacts(c3, args[2], e);
      l := Choose(cond, t, e, circuits, solver);
      AdvanceStep(c3, solver.State(), k3, base);
      StepTrans(c0, k0, c3, k3, Here(solver), Known());
      StepExtends(c3, k3, Here(solver), Known());
      TruthExtends(c3, Here(solver), args[0], cond);
      TruthExtends(c3, Here(solver), args[1], t);
      TruthExtends(c3, Here(solver), args[2], e);
      ExactFacts(Here(solver), Known(), base);
      IteTruthStep(Here(solver), id, cond, t, e, l);
    }

    method BlastCompare(id: nat, solver: Sink) returns (l: Lit)
      requires Valid(solver) && TruthSort(sorts, terms, id) && HasCircuit(terms[id].op)
      requires forall k :: 0 <= k < |terms[id].args| ==> terms[id].args[k] < id
      modifies this, circuits, solver
      ensures Valid(solver) && Kept(solver) && MeansTruth(Here(solver), id, l) && KeptPureArgs(id)
      decreases id, 3
    {
      hide TermSorted, Exact, MeansWord, MeansTruth, Owned, BitBlaster.Ready, Step, NodeSorted, Scoped, Pure, Builds, WordsCompare, Holds;
      ComparesWordsShape(sorts, terms, id);
      ghost var c0, k0 := Here(solver), Known();
      var a, b := BlastPair(id, solver);
      ghost var c1, k1 := Here(solver), Known();
      WordFacts(c1, terms[id].args[0], a);
      WordFacts(c1, terms[id].args[1], b);
      l := RunCompare(terms[id].op, a, b, circuits, solver);
      AdvanceStep(c1, solver.State(), k1, base);
      StepTrans(c0, k0, c1, k1, Here(solver), Known());
      StepExtends(c1, k1, Here(solver), Known());
      WordExtends(c1, Here(solver), terms[id].args[0], a);
      WordExtends(c1, Here(solver), terms[id].args[1], b);
      ExactFacts(Here(solver), Known(), base);
      CompareStep(Here(solver), id, a, b, l);
    }

    /** Whether two terms of one sort are equal: bit by bit, by truth, or a fresh variable. */
    method BlastSame(id: nat, a: nat, b: nat, solver: Sink) returns (l: Lit)
      requires Valid(solver) && a < id && b < id && id < |terms| && SortOf(sorts, terms, a) == SortOf(sorts, terms, b)
      modifies this, circuits, solver
      ensures Valid(solver) && Kept(solver) && MeansSame(Here(solver), a, b, l)
      ensures Comparable(sorts, terms, a) && Pure(sorts, terms, a) && Pure(sorts, terms, b) && OnlyVars(terms, old(inputs)) ==>
        OnlyVars(terms, inputs)
      decreases id, 2
    {
      hide TermSorted, Exact, MeansWord, MeansTruth, MeansSame, Owned, BitBlaster.Ready, Step, NodeSorted, Scoped, Pure, Builds, Holds;
      if SortOf(sorts, terms, a).BitVec? {
        l := BlastSameWords(id, a, b, solver);
      } else if SortOf(sorts, terms, a) == Sort.Bool {
        l := BlastSameTruths(id, a, b, solver);
      } else {
        ghost var c, k := Here(solver), Known();
        var v := NextVar(circuits, solver);
        l := Lit(v, false);
        inputs := inputs + InputsAt(v, [Same(a, b)]);
        FreshSameStep(c, k, base, a, b);
        assert Here(solver) == WithInputs(c, [Same(a, b)]);
      }
    }

    method BlastSameWords(id: nat, a: nat, b: nat, solver: Sink) returns (l: Lit)
      requires Valid(solver) && a < id && b < id && id < |terms| && SortOf(sorts, terms, a) == SortOf(sorts, terms, b)
      requires SortOf(sorts, terms, a).BitVec?
      modifies this, circuits, solver
      ensures Valid(solver) && Kept(solver) && MeansSame(Here(solver), a, b, l)
      ensures Pure(sorts, terms, a) && Pure(sorts, terms, b) && OnlyVars(terms, old(inputs)) ==> OnlyVars(terms, inputs)
      decreases id, 1
    {
      hide TermSorted, Exact, MeansWord, MeansSame, Owned, BitBlaster.Ready, Step, NodeSorted, Scoped, Pure, Builds, Holds, Val;
      ghost var c0, k0 := Here(solver), Known();
      var x := BlastBv(a, solver);
      ghost var c1, k1 := Here(solver), Known();
      var y := BlastBv(b, solver);
      ghost var c2, k2 := Here(solver), Known();
      StepTrans(c0, k0, c1, k1, c2, k2);
      StepExtends(c1, k1, c2, k2);
      WordExtends(c1, c2, a, x);
      WordFacts(c2, a, x);
      WordFacts(c2, b, y);
      l := circuits.CircuitEq(x, y, solver);
      AdvanceStep(c2, solver.State(), k2, base);
      StepTrans(c0, k0, c2, k2, Here(solver), Known());
      StepExtends(c2, k2, Here(solver), Known());
      WordExtends(c2, Here(solver), a, x);
      WordExtends(c2, Here(solver), b, y);
      SameWords(Here(solver), a, b, x, y, l);
    }

    method BlastSameTruths(id: nat, a: nat, b: nat, solver: Sink) returns (l: Lit)
      requires Valid(solver) && a < id && b < id && id < |terms| && TruthSort(sorts, terms, a) && TruthSort(sorts, terms, b)
      modifies this, circuits, solver
      ensures Valid(solver) && Kept(solver) && MeansSame(Here(solver), a, b, l)
      ensures Pure(sorts, terms, a) && Pure(sorts, terms, b) && OnlyVars(terms, old(inputs)) ==> OnlyVars(terms, inputs)
      decreases id, 1
    {
      hide TermSorted, Exact, MeansTruth, MeansSame, Owned, BitBlaster.Ready, Step, NodeSorted, Scoped, Pure, Builds, Holds;
      ghost var c0, k0 := Here(solver), Known();
      var x := BlastBool(a, solver);
      ghost var c1, k1 := Here(solver), Known();
      var y := BlastBool(b, solver);
      ghost var c2, k2 := Here(solver), Known();
      StepTrans(c0, k0, c1, k1, c2, k2);
      StepExtends(c1, k1, c2, k2);
      TruthExtends(c1, c2, a, x);
      TruthFacts(c2, a, x);
      TruthFacts(c2, b, y);
      var d := Differ(x, y, circuits, solver);
      l := d.Not();
      AdvanceStep(c2, solver.State(), k2, base);
      StepTrans(c0, k0, c2, k2, Here(solver), Known());
      StepExtends(c2, k2, Here(solver), Known());
      TruthExtends(c2, Here(solver), a, x);
      TruthExtends(c2, Here(solver), b, y);
      SameTruths(Here(solver), a, b, x, y, d);
    }

    /** Pairwise distinctness; at most one argument is always distinct. */
    method BlastDistinct(id: nat, solver: Sink) returns (l: Lit)
      requires Valid(solver) && TruthSort(sorts, terms, id) && terms[id].op.Distinct?
      requires forall k :: 0 <= k < |terms[id].args| ==> terms[id].args[k] < id
      modifies this, circuits, solver
      ensures Valid(solver) && Kept(solver) && MeansTruth(Here(solver), id, l)
      ensures (|terms[id].args| <= 1 || Comparable(sorts, terms, terms[id].args[0])) ==> KeptPureArgs(id)
      decreases id, 3
    {
      hide TermSorted, Exact, MeansTruth, MeansApart, Paired, Owned, BitBlaster.Ready, Step, NodeSorted, Scoped, Builds, Holds, ModelsAll, Pure;
      var args := terms[id].args;
      ghost var c0, k0 := Here(solver), Known();
      if |args| <= 1 {
        l := circuits.GetTrueLit(solver);
        AdvanceStep(c0, solver.State(), k0, base);
        ExactFacts(Here(solver), Known(), base);
        FewApart(Here(solver), args);
        DistinctStep(Here(solver), id, [], [], l);
        return;
      }
      var ls, pairs := BlastPairs(id, solver);
      ghost var c1, k1 := Here(solver), Known();
      PairsExist(args, pairs);
      ApartBelow(c1, pairs, ls);
      l := Conjunction(ls, circuits, solver);
      AdvanceStep(c1, solver.State(), k1, base);
      StepTrans(c0, k0, c1, k1, Here(solver), Known());
      StepExtends(c1, k1, Here(solver), Known());
      ApartExtends(c1, Here(solver), pairs, ls);
      ExactFacts(Here(solver), Known(), base);
      DistinctStep(Here(solver), id, pairs, ls, l);
    }

    /** A literal per pair of argument positions, saying that the two arguments differ. */
    method BlastPairs(id: nat, solver: Sink) returns (diffLits: seq<Lit>, ghost pairs: seq<(nat, nat)>)
      requires Valid(solver) && TruthSort(sorts, terms, id) && terms[id].op.Distinct?
      requires forall k :: 0 <= k < |terms[id].args| ==> terms[id].args[k] < id
      modifies this, circuits, solver
      ensures Valid(solver) && Kept(solver)
      ensures MeansApart(Here(solver), pairs, diffLits) && Paired(terms[id].args, pairs, |terms[id].args|, 0)
      ensures |terms[id].args| > 0 && Comparable(sorts, terms, terms[id].args[0]) ==> KeptPureArgs(id)
      decreases id, 3, 2
    {
      hide TermSorted, Exact, MeansApart, MeansSame, Paired, Owned, BitBlaster.Ready, Step, NodeSorted, Scoped, Pure;
      PolymorphicShape(sorts, terms, id);
      var args := terms[id].args;
      ghost var c0, k0 := Here(solver), Known();
      ExactFacts(c0, k0, base);
      StepRefl(c0, k0);
      diffLits, pairs := [], [];
      NoneApart(c0, args);
      for i := 0 to |args|
        invariant Valid(solver) && Kept(solver)
        invariant MeansApart(Here(solver), pairs, diffLits) && Paired(args, pairs, i, 0)
        invariant |args| > 0 && Comparable(sorts, terms, args[0]) ==> KeptPureArgs(id)
      {
        PairedStart(args, pairs, i);
        for j := i + 1 to |args|
          invariant Valid(solver) && Kept(solver)
          invariant MeansApart(Here(solver), pairs, diffLits) && Paired(args, pairs, i, j)
          invariant |args| > 0 && Comparable(sorts, terms, args[0]) ==> KeptPureArgs(id)
        {
          ghost var c1, k1 := Here(solver), Known();
          var d := BlastApart(id, i, j, diffLits, pairs, solver);
          StepTrans(c0, k0, c1, k1, Here(solver), Known());
          PairedNext(args, pairs, i, j);
          diffLits, pairs := diffLits + [d], pairs + [(args[i], args[j])];
        }
        PairedRow(args, pairs, i);
      }
    }

    method BlastApart(id: nat, i: nat, j: nat, ls: seq<Lit>, ghost pairs: seq<(nat, nat)>, solver: Sink) returns (d: Lit)
      requires Valid(solver) && id < |terms| && terms[id].op.Distinct? && i < j < |terms[id].args|
      requires forall k :: 0 <= k < |terms[id].args| ==> terms[id].args[k] < id && SortOf(sorts, terms, terms[id].args[k]) == SortOf(sorts, terms, terms[id].args[0])
      requires MeansApart(Here(solver), pairs, ls)
      modifies this, circuits, solver
      ensures Valid(solver) && Kept(solver)
      ensures MeansApart(Here(solver), pairs + [(terms[id].args[i], terms[id].args[j])], ls + [d])
      ensures Comparable(sorts, terms, terms[id].args[0]) ==> KeptPureArgs(id)
      decreases id, 3, 1
    {
      hide TermSorted, Exact, MeansSame, MeansApart, Owned, BitBlaster.Ready, Step, NodeSorted, Scoped, Pure;
      var a, b := terms[id].args[i], terms[id].args[j];
      ghost var c0, k0 := Here(solver), Known();
      var l := BlastSame(id, a, b, solver);
      d := l.Not();
      StepExtends(c0, k0, Here(solver), Known());
      ApartExtends(c0, Here(solver), pairs, ls);
      ApartMore(Here(solver), pairs, ls, a, b, l);
    }
  }

  // ---------- models and interpretations ----------

  ghost predicate NamedWord(c: Context, k: Caches, name: seq<byte>, s: Sort, id: nat) {
    && ArenaOk(c.sorts, c.terms) && id in k.words && id < |c.terms| && c.terms[id].op == Op.Var(name) && s.BitVec?
    && SortOf(c.sorts, c.terms, id) == s && |k.words[id]| == s.width
  }

  /** The values that a model gives to the variables of the terms. */
  ghost function VarsOf(c: Context, k: Caches, m: Valuation, name: seq<byte>, s: Sort): (v: Value)
    ensures HasSort(v, s)
  {
    if s == Sort.Bool && name in k.names then Truth(Holds(m, k.names[name]))
    else if exists id :: NamedWord(c, k, name, s, id) then
      var id :| NamedWord(c, k, name, s, id);
      Word(Bits(m, k.words[id]))
    else DefaultValue(s)
  }

  ghost function InterpOf(c: Context, k: Caches, m: Valuation): (i: Interp)
    ensures Fits(i)
  {
    Interp((n: seq<byte>, s: Sort) => VarsOf(c, k, m, n, s), (op: Op, s: Sort, vs: seq<Value>) => DefaultValue(s))
  }

  /** Every model of the clauses gives the variables values under which every cached literal has the
      value of its term, when all undefined variables belong to variables. */
  lemma ModelIsWorld(c: Context, k: Caches, base: Formula, m: Valuation)
    requires Exact(c, k, base) && Owned(c.terms, c.inputs, k) && OnlyVars(c.terms, c.inputs) && HashConsed(c.terms)
    requires ModelsAll(m, c.f.f)
    ensures World(c, m, InterpOf(c, k, m))
  {
    hide ArenaOk, Exact, MeansWord, MeansTruth, MeansName, CellCached, InterpOf, CellValue, CellOk, OnlyVars, Owned;
    ExactFacts(c, k, base);
    var i := InterpOf(c, k, m);
    forall v | v in c.inputs ensures v in m <==> CellValue(c.sorts, c.terms, c.inputs[v], i) {
      OwnedAt(c, k, v);
      if c.inputs[v].BitOf? {
        WordCellValue(c, k, base, m, v);
      } else {
        TruthCellValue(c, k, base, m, v);
      }
    }
  }

  lemma OwnedAt(c: Context, k: Caches, v: nat)
    requires Owned(c.terms, c.inputs, k) && OnlyVars(c.terms, c.inputs) && v in c.inputs
    ensures VarCell(c.terms, c.inputs[v]) && CellCached(c.terms, k, v, c.inputs[v])
    ensures c.inputs[v].BitOf? || c.inputs[v].TruthOf?
  {
  }

  lemma WordCellValue(c: Context, k: Caches, base: Formula, m: Valuation, v: nat)
    requires Exact(c, k, base) && HashConsed(c.terms) && v in c.inputs && c.inputs[v].BitOf? && Scoped(c)
    requires VarCell(c.terms, c.inputs[v]) && CellCached(c.terms, k, v, c.inputs[v])
    ensures CellOk(c.sorts, c.terms, c.inputs[v])
    ensures v in m <==> CellValue(c.sorts, c.terms, c.inputs[v], InterpOf(c, k, m))
  {
    hide Exact, MeansWord, TermSorted;
    var id, j := c.inputs[v].id, c.inputs[v].k;
    var name, s := c.terms[id].op.name, SortOf(c.sorts, c.terms, id);
    var i := InterpOf(c, k, m);
    CachedWord(c, k, base, id);
    WordFacts(c, id, k.words[id]);
    assert NamedWord(c, k, name, s, id);
    EvalVar(c.sorts, c.terms, id, i);
    forall x | NamedWord(c, k, name, s, x) ensures x == id {
      EvalVar(c.sorts, c.terms, x, i);
    }
    assert VarsOf(c, k, m, name, s) == Word(Bits(m, k.words[id]));
  }

  lemma TruthCellValue(c: Context, k: Caches, base: Formula, m: Valuation, v: nat)
    requires Exact(c, k, base) && v in c.inputs && c.inputs[v].TruthOf? && Scoped(c)
    requires VarCell(c.terms, c.inputs[v]) && CellCached(c.terms, k, v, c.inputs[v])
    ensures CellOk(c.sorts, c.terms, c.inputs[v])
    ensures v in m <==> CellValue(c.sorts, c.terms, c.inputs[v], InterpOf(c, k, m))
  {
    hide Exact, TermSorted;
    var id := c.inputs[v].id;
    EvalVar(c.sorts, c.terms, id, InterpOf(c, k, m));
  }

  /** All values of the variables that make the asserted terms true are those of some model. */
  lemma InterpHasModel(c: Context, k: Caches, base: Formula, m0: Valuation, i: Interp) returns (m: Valuation)
    requires Exact(c, k, base) && ModelsAll(m0, base.f) && Rooted(c.sorts, c.terms, c.roots, i)
    ensures World(c, m, i) && SameBelow(m0, m, base.n)
  {
    hide Cached, World;
    m :| World(c, m, i) && SameBelow(m0, m, base.n);
  }

  /** Asserting a term: the clause of its literal. */
  lemma AssertRoot(c: Context, k: Caches, base: Formula, id: nat, l: Lit)
    requires Exact(c, k, base) && MeansTruth(c, id, l)
    ensures Exact(c.(roots := c.roots + {id}, f := Formula(c.f.n, c.f.f + {[l]})), k, base)
    ensures Extends(c, c.(roots := c.roots + {id}, f := Formula(c.f.n, c.f.f + {[l]})))
  {
    hide Cached, Realizable, RootsHold, MeansTruth, World;
    CachedScoped(c, k);
    AssertWorlds(c, id, l);
    CachedExtends(c, c.(roots := c.roots + {id}, f := Formula(c.f.n, c.f.f + {[l]})), k);
    AssertRealizable(c, base, id, l);
    AssertHolds(c, id, l);
  }

  lemma AssertWorlds(c: Context, id: nat, l: Lit)
    requires MeansTruth(c, id, l)
    ensures Extends(c, c.(roots := c.roots + {id}, f := Formula(c.f.n, c.f.f + {[l]})))
  {
    hide ArenaOk, CellOk, CellValue, Fits, IsTrue;
    var c' := c.(roots := c.roots + {id}, f := Formula(c.f.n, c.f.f + {[l]}));
    forall m: Valuation, i: Interp | World(c', m, i) ensures World(c, m, i) {}
  }

  lemma AssertRealizable(c: Context, base: Formula, id: nat, l: Lit)
    requires MeansTruth(c, id, l) && Realizable(c, base)
    ensures Realizable(c.(roots := c.roots + {id}, f := Formula(c.f.n, c.f.f + {[l]})), base)
  {
    hide ArenaOk, CellOk, CellValue, Fits, IsTrue, MeansTruth;
    TruthFacts(c, id, l);
    AssertWorlds(c, id, l);
    var c' := c.(roots := c.roots + {id}, f := Formula(c.f.n, c.f.f + {[l]}));
    forall m0: Valuation, i: Interp | ModelsAll(m0, base.f) && Rooted(c'.sorts, c'.terms, c'.roots, i)
      ensures exists m: Valuation :: World(c', m, i) && SameBelow(m0, m, base.n)
    {
      assert Rooted(c.sorts, c.terms, c.roots, i);
      assert id in c'.roots;
      var m: Valuation :| World(c, m, i) && SameBelow(m0, m, base.n);
      TruthHolds(c, id, l, m, i);
      Sat1(m, l);
      assert World(c', m, i);
    }
  }

  lemma AssertHolds(c: Context, id: nat, l: Lit)
    requires MeansTruth(c, id, l) && RootsHold(c)
    ensures RootsHold(c.(roots := c.roots + {id}, f := Formula(c.f.n, c.f.f + {[l]})))
  {
    hide ArenaOk, CellOk, CellValue, Fits, IsTrue, MeansTruth;
    TruthFacts(c, id, l);
    AssertWorlds(c, id, l);
    var c' := c.(roots := c.roots + {id}, f := Formula(c.f.n, c.f.f + {[l]}));
    forall m: Valuation, i: Interp | World(c', m, i) ensures Rooted(c'.sorts, c'.terms, c'.roots, i) {
      assert World(c, m, i);
      assert [l] in c'.f.f;
      Sat1(m, l);
      TruthHolds(c, id, l, m, i);
    }
  }

  lemma TruthHolds(c: Context, id: nat, l: Lit, m: Valuation, i: Interp)
    requires MeansTruth(c, id, l) && World(c, m, i)
    ensures Scoped(c) && id < |c.terms| && Fits(i)
    ensures IsTrue(c.sorts, c.terms, id, i) <==> Holds(m, l)
  {
    hide IsTrue, ArenaOk;
  }
}
