/** Deciding bit-vector problems: blast every assertion, solve, and read the model back. */
module QfBvEngine {
  import opened Lits
  import opened GateCnf
  import opened BlastCircuits
  import opened BinaryFormat
  import opened Arenas
  import opened TermSemantics
  import opened BitBlasting
  import opened ConcreteValues
  import BV = BitVectors
  import Cdcl
  import Pipeline
  import SearchInvariant

  ghost predicate Satisfied(sorts: Sorts, terms: Terms, assertions: seq<nat>, i: Interp) {
    ArenaOk(sorts, terms) && Fits(i) && forall k :: 0 <= k < |assertions| ==> assertions[k] < |terms| && IsTrue(sorts, terms, assertions[k], i)
  }

  ghost predicate Satisfiable(sorts: Sorts, terms: Terms, assertions: seq<nat>) {
    exists i: Interp :: Satisfied(sorts, terms, assertions, i)
  }

  ghost function RootSet(ids: seq<nat>): set<nat> { set k | 0 <= k < |ids| :: ids[k] }

  lemma RootsAre(sorts: Sorts, terms: Terms, ids: seq<nat>, i: Interp)
    ensures Rooted(sorts, terms, RootSet(ids), i) <==> Satisfied(sorts, terms, ids, i)
  {
    hide ArenaOk, Fits, IsTrue;
    if Satisfied(sorts, terms, ids, i) {
      forall r | r in RootSet(ids) ensures r < |terms| && IsTrue(sorts, terms, r, i) {
        var k :| 0 <= k < |ids| && ids[k] == r;
      }
    }
    if Rooted(sorts, terms, RootSet(ids), i) {
      forall k | 0 <= k < |ids| ensures ids[k] < |terms| && IsTrue(sorts, terms, ids[k], i) {
        assert ids[k] in RootSet(ids);
      }
    }
  }

  method AddUnit(l: Lit, circuits: BitBlaster, solver: Sink)
    requires circuits.Ready(solver) && l.v < solver.numVars
    modifies solver`clauses
    ensures circuits.Ready(solver) && solver.clauses == old(solver.clauses) + {[l]}
  {
    solver.AddClause([l]);
  }

  /** Blasts the assertion and adds the clause of its literal. */
  method AssertTerm(blaster: TermBlaster, id: nat, solver: Sink)
    requires blaster.Valid(solver) && TruthSort(blaster.sorts, blaster.terms, id)
    modifies blaster, blaster.circuits, solver
    ensures blaster.Valid(solver) && blaster.base == old(blaster.base) && blaster.roots == old(blaster.roots) + {id}
    ensures Pure(blaster.sorts, blaster.terms, id) && OnlyVars(blaster.terms, old(blaster.inputs)) ==>
      OnlyVars(blaster.terms, blaster.inputs)
    ensures Unclaused(blaster.terms, id) ==> exists l: Lit :: solver.clauses == old(solver.clauses) + {[l]}
  {
    hide TermSorted, Exact, MeansTruth, Owned, BitBlaster.Ready, Step, Scoped, Pure;
    var l := blaster.BlastBool(id, solver);
    ghost var c, k := blaster.Here(solver), blaster.Known();
    TruthFacts(c, id, l);
    AssertRoot(c, k, blaster.base, id, l);
    AddUnit(l, blaster.circuits, solver);
    blaster.roots := blaster.roots + {id};
    assert blaster.Here(solver) == c.(roots := c.roots + {id}, f := Formula(c.f.n, c.f.f + {[l]}));
  }

  predicate LitTrue(model: seq<LBool>, l: Lit) {
    if l.v >= |model| then l.neg
    else (model[l.v] == LBool.True) != l.neg
  }

  lemma LitTrueHolds(model: seq<LBool>, l: Lit)
    ensures LitTrue(model, l) <==> Holds(SearchInvariant.ModelOf(model), l)
  {
  }

  /** The number whose set bits are the true literals. */
  method ReadWord(bits: seq<Lit>, model: seq<LBool>) returns (v: nat)
    ensures v == Val(SearchInvariant.ModelOf(model), bits)
  {
    ghost var m := SearchInvariant.ModelOf(model);
    v := 0;
    assert bits[..0] == [];
    EmptyVal(m);
    for k := 0 to |bits|
      invariant v == Val(m, bits[..k])
    {
      ValPrefix(m, bits, k);
      LitTrueHolds(model, bits[k]);
      BV.BitTimes(Holds(m, bits[k]), BV.Pow2(k));
      if LitTrue(model, bits[k]) { v := v + BV.Pow2(k); }
    }
    assert bits[..|bits|] == bits;
  }

  ghost predicate Declared(sorts: Sorts, terms: Terms, d: nat)
    requires ArenaOk(sorts, terms)
  {
    d < |terms| && terms[d].op.Var? && (WordSort(sorts, terms, d) || TruthSort(sorts, terms, d))
  }

  /** Reads the value of a declared variable, blasting it if no assertion mentioned it. */
  method ReadVar(blaster: TermBlaster, d: nat, model: seq<LBool>, solver: Sink) returns (v: ModelValue)
    requires blaster.Valid(solver) && Declared(blaster.sorts, blaster.terms, d)
    modifies blaster, blaster.circuits, solver
    ensures blaster.Valid(solver) && blaster.Kept(solver) && solver.clauses == old(solver.clauses)
    ensures OnlyVars(blaster.terms, old(blaster.inputs)) ==> OnlyVars(blaster.terms, blaster.inputs)
    ensures ValueRead(blaster.Here(solver), d, SearchInvariant.ModelOf(model), v)
    ensures Typed(v, SortOf(blaster.sorts, blaster.terms, d))
  {
    hide TermSorted, Exact, MeansTruth, MeansWord, Owned, BitBlaster.Ready, Step, Scoped, World;
    VarPure(blaster.sorts, blaster.terms, d);
    if blaster.sorts[blaster.terms[d].sort] == Sort.Bool {
      var l := blaster.BlastBool(d, solver);
      LitTrueHolds(model, l);
      v := BoolValue(LitTrue(model, l));
      TruthRead(blaster.Here(solver), d, l, SearchInvariant.ModelOf(model), v);
    } else {
      var bits := blaster.BlastBv(d, solver);
      var x := ReadWord(bits, model);
      v := BitVecValue(x, |bits|);
      WordTyped(blaster.Here(solver), d, bits, SearchInvariant.ModelOf(model), v);
      WordRead(blaster.Here(solver), d, bits, SearchInvariant.ModelOf(model), v);
    }
  }

  lemma WordTyped(c: Context, d: nat, bits: seq<Lit>, m: Valuation, v: ModelValue)
    requires MeansWord(c, d, bits) && v == BitVecValue(Val(m, bits), |bits|)
    ensures Linked(c.sorts, c.terms) && d < |c.terms| && Typed(v, SortOf(c.sorts, c.terms, d))
  {
    hide TermSorted, World;
  }

  lemma VarPure(sorts: Sorts, terms: Terms, d: nat)
    requires ArenaOk(sorts, terms) && d < |terms| && terms[d].op.Var?
    ensures Pure(sorts, terms, d)
  {
    NodeOk(sorts, terms, d);
  }

  /** The value is that of the variable in every world of the model. */
  ghost predicate ValueRead(c: Context, d: nat, m: Valuation, v: ModelValue) {
    && Scoped(c) && d < |c.terms| && c.terms[d].op.Var?
    && forall i: Interp :: World(c, m, i) ==> i.vars(c.terms[d].op.name, SortOf(c.sorts, c.terms, d)) == Denotes(v)
  }

  lemma ReadExtends(c: Context, c': Context, d: nat, m: Valuation, v: ModelValue)
    requires ValueRead(c, d, m, v) && Extends(c, c')
    ensures ValueRead(c', d, m, v)
  {
    hide World, ArenaOk, Denotes;
  }

  lemma TruthRead(c: Context, d: nat, l: Lit, m: Valuation, v: ModelValue)
    requires MeansTruth(c, d, l) && c.terms[d].op.Var? && v == BoolValue(Holds(m, l))
    ensures ValueRead(c, d, m, v)
  {
    hide TermSorted, Holds;
    forall i: Interp | World(c, m, i) ensures i.vars(c.terms[d].op.name, SortOf(c.sorts, c.terms, d)) == Denotes(v) {
      TruthHolds(c, d, l, m, i);
      EvalVar(c.sorts, c.terms, d, i);
      TruthIs(c, d, i);
    }
  }

  lemma WordRead(c: Context, d: nat, bits: seq<Lit>, m: Valuation, v: ModelValue)
    requires MeansWord(c, d, bits) && c.terms[d].op.Var? && v == BitVecValue(Val(m, bits), |bits|)
    ensures ValueRead(c, d, m, v)
  {
    hide TermSorted, Bits, Eval;
    forall i: Interp | World(c, m, i) ensures i.vars(c.terms[d].op.name, SortOf(c.sorts, c.terms, d)) == Denotes(v) {
      EvalVar(c.sorts, c.terms, d, i);
      BV.LowBitsOfValue(Bits(m, bits), Val(m, bits));
    }
  }

  /** The values read are those of the interpretation. */
  ghost predicate ModelFits(sorts: Sorts, terms: Terms, decls: seq<nat>, model: Model, i: Interp) {
    && ArenaOk(sorts, terms)
    && forall k :: 0 <= k < |decls| ==>
      && decls[k] < |terms| && terms[decls[k]].op.Var? && terms[decls[k]].op.name in model
      && i.vars(terms[decls[k]].op.name, SortOf(sorts, terms, decls[k])) == Denotes(model[terms[decls[k]].op.name])
  }

  ghost predicate ModelRead(c: Context, decls: seq<nat>, m: Valuation, model: Model) {
    forall k :: 0 <= k < |decls| ==>
      && decls[k] < |c.terms| && c.terms[decls[k]].op.Var? && c.terms[decls[k]].op.name in model
      && ValueRead(c, decls[k], m, model[c.terms[decls[k]].op.name])
  }

  lemma ModelReadMore(c: Context, c': Context, decls: seq<nat>, j: nat, m: Valuation, model: Model, v: ModelValue)
    requires HashConsed(c.terms) && Extends(c, c') && j < |decls| && ArenaOk(c.sorts, c.terms)
    requires ModelRead(c, decls[..j], m, model) && ValueRead(c', decls[j], m, v)
    ensures ModelRead(c', decls[..j + 1], m, model[c.terms[decls[j]].op.name := v])
  {
    hide ValueRead, TermSorted, World;
    assert decls[j] < |c.terms| && c.terms[decls[j]].op.Var? by { ReadFacts(c', decls[j], m, v); }
    var name := c.terms[decls[j]].op.name;
    var model' := model[name := v];
    forall k | 0 <= k < j + 1
      ensures decls[k] < |c.terms| && c.terms[decls[k]].op.Var? && c.terms[decls[k]].op.name in model'
      ensures ValueRead(c', decls[k], m, model'[c.terms[decls[k]].op.name])
    {
      if k < j {
        assert decls[..j][k] == decls[k];
        if c.terms[decls[k]].op.name == name {
          VarShape(c.sorts, c.terms, decls[k]);
          VarShape(c.sorts, c.terms, decls[j]);
        } else {
          ReadExtends(c, c', decls[k], m, model[c.terms[decls[k]].op.name]);
        }
      }
    }
  }

  lemma ReadFacts(c: Context, d: nat, m: Valuation, v: ModelValue)
    requires ValueRead(c, d, m, v)
    ensures d < |c.terms| && c.terms[d].op.Var?
  {
  }

  lemma ModelReadFits(c: Context, decls: seq<nat>, m: Valuation, model: Model, i: Interp)
    requires ModelRead(c, decls, m, model) && World(c, m, i)
    ensures ModelFits(c.sorts, c.terms, decls, model, i)
  {
    hide Denotes, TermSorted, Fits;
    WorldFacts(c, m, i);
    forall k | 0 <= k < |decls|
      ensures i.vars(c.terms[decls[k]].op.name, SortOf(c.sorts, c.terms, decls[k])) == Denotes(model[c.terms[decls[k]].op.name])
    {
      assert ValueRead(c, decls[k], m, model[c.terms[decls[k]].op.name]);
    }
  }

  /** Every name of the model is that of a declared variable, with a value of its sort. */
  ghost predicate ReadTyped(sorts: Sorts, terms: Terms, decls: seq<nat>, model: Model)
    requires Linked(sorts, terms)
  {
    forall n :: n in model ==> exists k :: 0 <= k < |decls| && NamedBy(sorts, terms, decls[k], n, model[n])
  }

  ghost predicate NamedBy(sorts: Sorts, terms: Terms, d: nat, n: seq<byte>, v: ModelValue)
    requires Linked(sorts, terms)
  {
    d < |terms| && terms[d].op == Op.Var(n) && Typed(v, SortOf(sorts, terms, d))
  }

  lemma ReadTypedMore(sorts: Sorts, terms: Terms, decls: seq<nat>, j: nat, model: Model, v: ModelValue)
    requires Linked(sorts, terms) && j < |decls| && decls[j] < |terms| && terms[decls[j]].op.Var?
    requires ReadTyped(sorts, terms, decls[..j], model) && Typed(v, SortOf(sorts, terms, decls[j]))
    ensures ReadTyped(sorts, terms, decls[..j + 1], model[terms[decls[j]].op.name := v])
  {
    hide Typed, SortOf;
    var name := terms[decls[j]].op.name;
    var model' := model[name := v];
    var more := decls[..j + 1];
    forall n | n in model' ensures exists k :: 0 <= k < |more| && NamedBy(sorts, terms, more[k], n, model'[n]) {
      if n == name {
        assert NamedBy(sorts, terms, more[j], n, model'[n]);
      } else {
        var k :| 0 <= k < j && NamedBy(sorts, terms, decls[..j][k], n, model[n]);
        assert more[k] == decls[..j][k];
      }
    }
  }

  /** A name belongs to one term. */
  lemma ReadModelTyped(sorts: Sorts, terms: Terms, decls: seq<nat>, model: Model)
    requires ArenaOk(sorts, terms) && HashConsed(terms) && ReadTyped(sorts, terms, decls, model)
    ensures ModelTyped(sorts, terms, model)
  {
    hide TermSorted, Typed;
    forall id | 0 <= id < |terms| && terms[id].op.Var? && terms[id].op.name in model
      ensures Typed(model[terms[id].op.name], SortOf(sorts, terms, id))
    {
      var n := terms[id].op.name;
      var k :| 0 <= k < |decls| && NamedBy(sorts, terms, decls[k], n, model[n]);
      VarShape(sorts, terms, id);
      VarShape(sorts, terms, decls[k]);
      assert id == decls[k];
    }
  }

  lemma VarShape(sorts: Sorts, terms: Terms, id: nat)
    requires ArenaOk(sorts, terms) && id < |terms| && terms[id].op.Var?
    ensures terms[id].args == []
  {
    NodeOk(sorts, terms, id);
  }

  method ReadModel(blaster: TermBlaster, decls: seq<nat>, assigns: seq<LBool>, solver: Sink)
    returns (model: Model)
    requires blaster.Valid(solver) && HashConsed(blaster.terms)
    requires forall k :: 0 <= k < |decls| ==> Declared(blaster.sorts, blaster.terms, decls[k])
    modifies blaster, blaster.circuits, solver
    ensures blaster.Valid(solver) && blaster.Kept(solver) && solver.clauses == old(solver.clauses)
    ensures OnlyVars(blaster.terms, old(blaster.inputs)) ==> OnlyVars(blaster.terms, blaster.inputs)
    ensures ModelRead(blaster.Here(solver), decls, SearchInvariant.ModelOf(assigns), model)
    ensures ReadTyped(blaster.sorts, blaster.terms, decls, model)
  {
    hide TermSorted, Exact, Owned, BitBlaster.Ready, Step, Scoped, World, OnlyVars, HashConsed, ModelRead, ReadTyped, Typed;
    ghost var c0, k0, m := blaster.Here(solver), blaster.Known(), SearchInvariant.ModelOf(assigns);
    ExactFacts(c0, k0, blaster.base);
    StepRefl(c0, k0);
    model := map[];
    assert ModelRead(c0, decls[..0], m, model) by { NoneRead(c0, decls[..0], m); }
    assert ReadTyped(blaster.sorts, blaster.terms, decls[..0], model) by { NoneTyped(blaster.sorts, blaster.terms, decls[..0]); }
    for j := 0 to |decls|
      invariant blaster.Valid(solver) && blaster.Kept(solver) && solver.clauses == old(solver.clauses)
      invariant OnlyVars(blaster.terms, old(blaster.inputs)) ==> OnlyVars(blaster.terms, blaster.inputs)
      invariant ModelRead(blaster.Here(solver), decls[..j], m, model)
      invariant ReadTyped(blaster.sorts, blaster.terms, decls[..j], model)
    {
      ghost var c1, k1 := blaster.Here(solver), blaster.Known();
      var v := ReadVar(blaster, decls[j], assigns, solver);
      StepTrans(c0, k0, c1, k1, blaster.Here(solver), blaster.Known());
      StepExtends(c1, k1, blaster.Here(solver), blaster.Known());
      ModelReadMore(c1, blaster.Here(solver), decls, j, m, model, v);
      ReadTypedMore(blaster.sorts, blaster.terms, decls, j, model, v);
      model := model[blaster.terms[decls[j]].op.name := v];
    }
    assert decls[..|decls|] == decls;
  }

  lemma NoneTyped(sorts: Sorts, terms: Terms, decls: seq<nat>)
    requires Linked(sorts, terms)
    ensures ReadTyped(sorts, terms, decls, map[])
  {
  }

  lemma NoneRead(c: Context, decls: seq<nat>, m: Valuation)
    requires decls == []
    ensures ModelRead(c, decls, m, map[])
  {
  }

  /** Without a model of the clauses no interpretation satisfies the assertions. */
  lemma UnsatMeans(c: Context, k: Caches, assertions: seq<nat>, f: Cnf)
    requires Exact(c, k, Formula(0, {})) && c.roots == RootSet(assertions)
    requires Unsat(f) && forall m: Valuation :: Models(m, f) <==> ModelsAll(m, c.f.f)
    ensures !Satisfiable(c.sorts, c.terms, assertions)
  {
    hide Exact, World, Rooted, Satisfied;
    forall i: Interp ensures !Satisfied(c.sorts, c.terms, assertions, i) {
      RootsAre(c.sorts, c.terms, assertions, i);
      if Rooted(c.sorts, c.terms, c.roots, i) {
        var m := InterpHasModel(c, k, Formula(0, {}), iset{}, i);
        WorldFacts(c, m, i);
        assert false;
      }
    }
  }

  /** A model of the clauses is an interpretation that satisfies the assertions. */
  lemma SatMeans(c: Context, k: Caches, assertions: seq<nat>, m: Valuation)
    requires Exact(c, k, Formula(0, {})) && c.roots == RootSet(assertions) && ModelsAll(m, c.f.f)
    requires HashConsed(c.terms) && Owned(c.terms, c.inputs, k) && OnlyVars(c.terms, c.inputs)
    ensures World(c, m, InterpOf(c, k, m)) && Satisfied(c.sorts, c.terms, assertions, InterpOf(c, k, m))
  {
    hide Cached, Realizable, World, Rooted, Satisfied, Owned, OnlyVars, HashConsed, InterpOf;
    ModelIsWorld(c, k, Formula(0, {}), m);
    RootsAre(c.sorts, c.terms, assertions, InterpOf(c, k, m));
  }

  lemma UnitSat(l: Lit, f: Cnf)
    requires forall m: Valuation :: Models(m, f) <==> ModelsAll(m, {[l]})
    ensures !Unsat(f)
  {
    var m: Valuation := if l.neg then iset{} else iset{l.v};
    Sat1(m, l);
    assert Models(m, f);
  }

  /** Decides the assertions, with values for the declared variables, for any behaviour of the restart
      heuristic. An answer True is right when no operator lacks a circuit, and then the values are
      those of a satisfying interpretation. An answer False is right for every operator, when the
      heuristic asks for no restart. */
  method SolveQfBv(sorts: Sorts, terms: Terms, assertions: seq<nat>, decls: seq<nat>, restartPlan: seq<bool>)
    returns (r: LBool, model: Model, ghost i: Interp)
    requires ArenaOk(sorts, terms) && ShiftsNarrow(sorts, terms) && HashConsed(terms)
    requires forall k :: 0 <= k < |assertions| ==> TruthSort(sorts, terms, assertions[k])
    requires forall k :: 0 <= k < |decls| ==> Declared(sorts, terms, decls[k])
    ensures r == LBool.True || r == LBool.False
    ensures r == LBool.True && AllPure(sorts, terms, assertions) ==> Satisfied(sorts, terms, assertions, i)
    ensures r == LBool.True && AllPure(sorts, terms, assertions) ==> ModelFits(sorts, terms, decls, model, i)
    ensures ModelTyped(sorts, terms, model)
    ensures r == LBool.False && Cdcl.NoRestart(restartPlan) ==> !Satisfiable(sorts, terms, assertions)
    ensures AllPure(sorts, terms, assertions) && Cdcl.NoRestart(restartPlan) ==>
      (r == LBool.True <==> Satisfiable(sorts, terms, assertions))
    ensures |assertions| == 1 && Unclaused(terms, assertions[0]) && Cdcl.NoRestart(restartPlan) ==> r == LBool.True
  {
    hide TermSorted, Exact, Owned, BitBlaster.Ready, Step, Scoped, Pure, OnlyVars, World, InterpOf, HashConsed, ModelsAll, Models,
      AllPure, RootSet, Satisfiable, Satisfied, ModelFits, ModelRead, ReadTyped, ModelTyped;
    NoneTyped(sorts, terms, decls);
    ReadModelTyped(sorts, terms, decls, map[]);
    var solver := new Sink();
    var blaster := new TermBlaster(sorts, terms, solver);
    EmptyFacts(sorts, terms, assertions);
    for j := 0 to |assertions|
      invariant blaster.Valid(solver) && fresh(solver) && fresh(blaster) && fresh(blaster.circuits)
      invariant blaster.sorts == sorts && blaster.terms == terms && blaster.base == Formula(0, {})
      invariant blaster.roots == RootSet(assertions[..j])
      invariant AllPure(sorts, terms, assertions[..j]) ==> OnlyVars(terms, blaster.inputs)
      invariant j == 0 ==> solver.clauses == {}
      invariant j == 1 && Unclaused(terms, assertions[0]) ==> exists l: Lit :: solver.clauses == {[l]}
    {
      RootsNext(assertions, j);
      PureNext(sorts, terms, assertions, j);
      AssertTerm(blaster, assertions[j], solver);
    }
    assert assertions[..|assertions|] == assertions;
    var f := Pipeline.ClauseList(solver.clauses);
    var assigns;
    ghost var jumps;
    r, assigns, jumps := Cdcl.DecideCnf(f, restartPlan);
    ghost var m := SearchInvariant.ModelOf(assigns);
    if |assertions| == 1 && Unclaused(terms, assertions[0]) {
      ghost var l: Lit :| solver.clauses == {[l]};
      UnitSat(l, f);
    }
    model := map[];
    i := InterpOf(blaster.Here(solver), blaster.Known(), m);
    if r == LBool.False {
      if Cdcl.NoRestart(restartPlan) {
        UnsatMeans(blaster.Here(solver), blaster.Known(), assertions, f);
      }
      return;
    }
    assert ModelsAll(m, solver.clauses);
    model := ReadModel(blaster, decls, assigns, solver);
    ReadModelTyped(sorts, terms, decls, model);
    if AllPure(sorts, terms, assertions) {
      SatMeans(blaster.Here(solver), blaster.Known(), assertions, m);
      i := InterpOf(blaster.Here(solver), blaster.Known(), m);
      ModelReadFits(blaster.Here(solver), decls, m, model, i);
      SatisfiedIsSatisfiable(sorts, terms, assertions, i);
    }
  }

  lemma SatisfiedIsSatisfiable(sorts: Sorts, terms: Terms, assertions: seq<nat>, i: Interp)
    requires Satisfied(sorts, terms, assertions, i)
    ensures Satisfiable(sorts, terms, assertions)
  {
  }

  lemma EmptyFacts(sorts: Sorts, terms: Terms, ids: seq<nat>)
    requires ArenaOk(sorts, terms)
    ensures RootSet(ids[..0]) == {} && OnlyVars(terms, map[])
  {
  }

  lemma RootsNext(ids: seq<nat>, j: nat)
    requires j < |ids|
    ensures RootSet(ids[..j + 1]) == RootSet(ids[..j]) + {ids[j]}
  {
    var a, b := ids[..j], ids[..j + 1];
    forall r | r in RootSet(b) ensures r in RootSet(a) + {ids[j]} {
      var k :| 0 <= k < |b| && b[k] == r;
      if k < j { assert a[k] == r; }
    }
    forall r | r in RootSet(a) + {ids[j]} ensures r in RootSet(b) {
      if r in RootSet(a) {
        var k :| 0 <= k < |a| && a[k] == r;
        assert b[k] == r;
      } else {
        assert b[j] == r;
      }
    }
  }

  lemma PureNext(sorts: Sorts, terms: Terms, ids: seq<nat>, j: nat)
    requires ArenaOk(sorts, terms) && j < |ids| && ids[j] < |terms|
    ensures AllPure(sorts, terms, ids[..j + 1]) ==> AllPure(sorts, terms, ids[..j]) && Pure(sorts, terms, ids[j])
  {
    hide Pure, ArenaOk;
    var a, b := ids[..j], ids[..j + 1];
    if AllPure(sorts, terms, b) {
      assert b[j] == ids[j];
      forall k | 0 <= k < |a| ensures a[k] < |terms| && Pure(sorts, terms, a[k]) { assert b[k] == a[k]; }
    }
  }

  // ---------- an operator without a circuit ----------

  const SGT_SORTS: Sorts := [Sort.Bool, Sort.Int, Sort.Real, BitVec(8)]

  /** The arena of `(bvsgt x x)` over eight bits. */
  const SGT_TERMS: Terms := [
    TermData(Op.True, [], 0), TermData(Op.False, [], 0), TermData(Op.Var([120]), [], 3), TermData(BvSgt, [2, 2], 0)
  ]

  lemma SgtShape()
    ensures Linked(SGT_SORTS, SGT_TERMS)
    ensures forall id :: 0 <= id < |SGT_TERMS| ==> GoodSort(SortOf(SGT_SORTS, SGT_TERMS, id))
  {
    forall id | 0 <= id < |SGT_TERMS|
      ensures SGT_TERMS[id].sort < |SGT_SORTS| && forall k :: 0 <= k < |SGT_TERMS[id].args| ==> SGT_TERMS[id].args[k] < id
    {
      assert id == 0 || id == 1 || id == 2 || id == 3;
    }
  }

  lemma SgtHashConsed()
    ensures HashConsed(SGT_TERMS)
  {
    forall a, b | 0 <= a < |SGT_TERMS| && 0 <= b < |SGT_TERMS| && SGT_TERMS[a].op == SGT_TERMS[b].op ensures a == b {
      SgtOp(a);
      SgtOp(b);
    }
  }

  lemma SgtOp(id: nat)
    requires id < |SGT_TERMS|
    ensures SGT_TERMS[id].op == if id == 0 then Op.True else if id == 1 then Op.False else if id == 2 then Op.Var([120]) else BvSgt
  {
  }

  lemma SgtSorted(id: nat)
    requires id < |SGT_TERMS| && Linked(SGT_SORTS, SGT_TERMS)
    ensures NodeSorted(SGT_TERMS[id].op, ArgSorts(SGT_SORTS, SGT_TERMS, SGT_TERMS[id].args), SortOf(SGT_SORTS, SGT_TERMS, id))
  {
    var ss := ArgSorts(SGT_SORTS, SGT_TERMS, SGT_TERMS[id].args);
    if id == 3 {
      assert SGT_TERMS[3].args[0] == 2 && SGT_TERMS[3].args[1] == 2;
      assert ss[0] == BitVec(8) && ss[1] == BitVec(8);
    }
  }

  lemma SgtArena()
    ensures ArenaOk(SGT_SORTS, SGT_TERMS) && ShiftsNarrow(SGT_SORTS, SGT_TERMS) && HashConsed(SGT_TERMS)
    ensures TruthSort(SGT_SORTS, SGT_TERMS, 3)
  {
    hide NodeSorted, GoodSort, HashConsed;
    SgtShape();
    SgtHashConsed();
    forall id | 0 <= id < |SGT_TERMS| ensures TermSorted(SGT_SORTS, SGT_TERMS, id) { SgtSorted(id); }
  }

  lemma SgtNeverHolds()
    ensures !Satisfiable(SGT_SORTS, SGT_TERMS, [3])
  {
    hide ArenaOk;
    SgtArena();
    forall i: Interp ensures !Satisfied(SGT_SORTS, SGT_TERMS, [3], i) {
      if Fits(i) {
        EvalComparesWords(SGT_SORTS, SGT_TERMS, 3, i);
        assert [3][0] == 3;
      }
    }
  }

  /** No word is greater than itself, yet the blaster's fresh variable can be true. */
  method SgtAnswer() returns (r: LBool)
    ensures r == LBool.True && !Satisfiable(SGT_SORTS, SGT_TERMS, [3])
  {
    hide ArenaOk, HashConsed, Satisfiable;
    SgtArena();
    SgtNeverHolds();
    var model;
    ghost var i;
    r, model, i := SolveQfBv(SGT_SORTS, SGT_TERMS, [3], [], []);
  }
}
