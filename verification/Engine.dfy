/** `check_sat` on bit-vector problems: preprocess, solve, and validate the model found. */
module SolverEngine {
  import opened Lits
  import opened BinaryFormat
  import opened Arenas
  import opened TermSemantics
  import opened TermBuilder
  import opened BitBlasting
  import opened ConcreteValues
  import opened ConstantFolding
  import opened AlgebraicRewriting
  import opened ModelValidation
  import opened QfBvEngine
  import BV = BitVectors
  import Cdcl

  const MAX_STEPS: nat := 100_000

  // ---------- preprocessing ----------

  /** Each simplified term means what the term meant. */
  ghost predicate AllKept(sorts: Sorts, terms: Terms, ids: seq<nat>, sorts': Sorts, terms': Terms, rs: seq<nat>) {
    |rs| == |ids| && forall k :: 0 <= k < |ids| ==> Keeps(sorts, terms, ids[k], sorts', terms', rs[k])
  }

  /** Folds constants, then rewrites. */
  method SimplifyTerm(sorts: SortArena, terms: TermArena, id: nat) returns (r: nat)
    requires Open(sorts, terms) && id < |terms.terms|
    modifies sorts, terms
    ensures Open(sorts, terms) && Grows(old(sorts.sorts), old(terms.terms), sorts.sorts, terms.terms)
    ensures Keeps(old(sorts.sorts), old(terms.terms), id, sorts.sorts, terms.terms, r)
    ensures Inert(old(terms.terms), id) ==> r == id && sorts.sorts == old(sorts.sorts) && terms.terms == old(terms.terms)
  {
    hide SortArena.Valid, TermArena.Valid, Buildable, ArenaOk, Eval, SortOf, Inert;
    ghost var ss, ts := sorts.sorts, terms.terms;
    var folder := new ConstantFolder(terms, sorts, MAX_STEPS);
    var folded := folder.FoldTerm(id);
    ghost var ss1, ts1 := sorts.sorts, terms.terms;
    var rewriter := new Rewriter(terms, sorts, MAX_STEPS);
    r := rewriter.Rewrite(folded);
    KeepsTrans(ss, ts, id, ss1, ts1, folded, sorts.sorts, terms.terms, r);
  }

  ghost predicate AllInert(terms: Terms, ids: seq<nat>) { forall k :: 0 <= k < |ids| ==> Inert(terms, ids[k]) }

  /** Simplifies term after term; terms to which no rule applies stay themselves. */
  method Preprocess(sorts: SortArena, terms: TermArena, ids: seq<nat>) returns (rs: seq<nat>)
    requires Open(sorts, terms) && forall k :: 0 <= k < |ids| ==> ids[k] < |terms.terms|
    modifies sorts, terms
    ensures Open(sorts, terms) && Grows(old(sorts.sorts), old(terms.terms), sorts.sorts, terms.terms)
    ensures AllKept(old(sorts.sorts), old(terms.terms), ids, sorts.sorts, terms.terms, rs)
    ensures AllInert(old(terms.terms), ids) ==> rs == ids && sorts.sorts == old(sorts.sorts) && terms.terms == old(terms.terms)
  {
    hide SortArena.Valid, TermArena.Valid, Buildable, Keeps, Inert;
    ghost var ss, ts := sorts.sorts, terms.terms;
    BuildableFacts(ss, ts);
    rs := [];
    for j := 0 to |ids|
      invariant Open(sorts, terms) && Grows(ss, ts, sorts.sorts, terms.terms) && |rs| == j
      invariant forall k :: 0 <= k < j ==> Keeps(ss, ts, ids[k], sorts.sorts, terms.terms, rs[k])
      invariant AllInert(ts, ids) ==> rs == ids[..j] && sorts.sorts == ss && terms.terms == ts
    {
      ghost var ss1, ts1 := sorts.sorts, terms.terms;
      var r := SimplifyTerm(sorts, terms, ids[j]);
      BuildableFacts(sorts.sorts, terms.terms);
      forall k | 0 <= k < j ensures Keeps(ss, ts, ids[k], sorts.sorts, terms.terms, rs[k]) {
        KeepsLater(ss, ts, ids[k], ss1, ts1, rs[k], sorts.sorts, terms.terms);
      }
      LaterKeeps(ss, ts, ids[j], ss1, ts1, sorts.sorts, terms.terms, r);
      rs := rs + [r];
    }
  }

  lemma KeptSatisfied(sorts: Sorts, terms: Terms, ids: seq<nat>, sorts': Sorts, terms': Terms, rs: seq<nat>, i: Interp)
    requires AllKept(sorts, terms, ids, sorts', terms', rs) && ArenaOk(sorts, terms) && ArenaOk(sorts', terms')
    ensures Satisfied(sorts, terms, ids, i) <==> Satisfied(sorts', terms', rs, i)
  {
    hide ArenaOk, Eval, Fits, SortOf;
    if Fits(i) {
      forall k | 0 <= k < |ids| ensures ids[k] < |terms| && rs[k] < |terms'| && Eval(sorts, terms, ids[k], i) == Eval(sorts', terms', rs[k], i) {
        assert Keeps(sorts, terms, ids[k], sorts', terms', rs[k]);
      }
    }
  }

  lemma KeptSatisfiable(sorts: Sorts, terms: Terms, ids: seq<nat>, sorts': Sorts, terms': Terms, rs: seq<nat>)
    requires AllKept(sorts, terms, ids, sorts', terms', rs) && ArenaOk(sorts, terms) && ArenaOk(sorts', terms')
    ensures Satisfiable(sorts, terms, ids) <==> Satisfiable(sorts', terms', rs)
  {
    hide Satisfied, AllKept, ArenaOk;
    if Satisfiable(sorts, terms, ids) {
      var i: Interp :| Satisfied(sorts, terms, ids, i);
      KeptSatisfied(sorts, terms, ids, sorts', terms', rs, i);
    }
    if Satisfiable(sorts', terms', rs) {
      var i: Interp :| Satisfied(sorts', terms', rs, i);
      KeptSatisfied(sorts, terms, ids, sorts', terms', rs, i);
    }
  }

  /** The simplified term false is never satisfied. */
  lemma FalseUnsatisfiable(sorts: Sorts, terms: Terms, rs: seq<nat>, k: nat)
    requires Buildable(sorts, terms) && k < |rs| && rs[k] == 1
    ensures !Satisfiable(sorts, terms, rs)
  {
    hide Buildable, ArenaOk, IsTrue, Fits;
    forall i: Interp ensures !Satisfied(sorts, terms, rs, i) {
      if Fits(i) { BaseValues(sorts, terms, i); }
    }
  }

  // ---------- which problems are solved here ----------

  /** Operators of arrays, functions and arithmetic. */
  predicate OtherTheory(op: Op) {
    || op.Select? || op.Store? || op.Apply? || op.IntConst? || op.RealConst? || op.Add? || op.Sub? || op.Mul? || op.Div?
    || op.Lt? || op.Le? || op.Gt? || op.Ge?
  }

  /** Whether the whole arena is free of them, and the logic is not set to another one. */
  method IsPureBvProblem(logic: Option<string>, terms: Terms) returns (yes: bool)
    ensures yes <==> (logic.None? || logic.value == "QF_BV") && forall id :: 0 <= id < |terms| ==> !OtherTheory(terms[id].op)
  {
    if logic.Some? && logic.value != "QF_BV" { return false; }
    for id := 0 to |terms|
      invariant forall j :: 0 <= j < id ==> !OtherTheory(terms[j].op)
    {
      if OtherTheory(terms[id].op) { return false; }
    }
    return true;
  }

  /** Whether every shift is on words of at most 64 bits, as the blaster needs. */
  method NoWideShifts(sorts: Sorts, terms: Terms) returns (yes: bool)
    requires ArenaOk(sorts, terms)
    ensures yes <==> ShiftsNarrow(sorts, terms)
  {
    hide TermSorted;
    for id := 0 to |terms|
      invariant forall j :: 0 <= j < id && Shifts(terms[j].op) && WordSort(sorts, terms, j) ==> SortOf(sorts, terms, j).width <= 64
    {
      if Shifts(terms[id].op) && SortOf(sorts, terms, id).BitVec? && SortOf(sorts, terms, id).width > 64 {
        assert WordSort(sorts, terms, id);
        return false;
      }
    }
    return true;
  }

  /** The declared variables of sort Bool or of words. */
  method ReadableDecls(sorts: Sorts, terms: Terms, decls: seq<nat>) returns (rs: seq<nat>)
    requires ArenaOk(sorts, terms) && forall k :: 0 <= k < |decls| ==> decls[k] < |terms| && terms[decls[k]].op.Var?
    ensures forall d :: d in rs <==> d in decls && Declared(sorts, terms, d)
  {
    hide TermSorted;
    rs := [];
    for k := 0 to |decls|
      invariant forall d :: d in rs <==> d in decls[..k] && Declared(sorts, terms, d)
    {
      var d := decls[k];
      assert decls[..k + 1] == decls[..k] + [d];
      var s := SortOf(sorts, terms, d);
      assert Declared(sorts, terms, d) <==> s.Bool? || s.BitVec?;
      if s.Bool? || s.BitVec? { rs := rs + [d]; }
    }
    assert decls[..|decls|] == decls;
  }

  // ---------- models of the variables that occur ----------

  /** Interpreted operators over declared variables of sort Bool or of words. */
  ghost predicate Closed(sorts: Sorts, terms: Terms, decls: seq<nat>, id: nat)
    requires ArenaOk(sorts, terms) && id < |terms|
    decreases id
  {
    NodeOk(sorts, terms, id);
    && (Interpreted(terms[id].op) || (id in decls && Declared(sorts, terms, id)))
    && forall k :: 0 <= k < |terms[id].args| ==> Closed(sorts, terms, decls, terms[id].args[k])
  }

  ghost predicate Agree(sorts: Sorts, terms: Terms, decls: seq<nat>, i: Interp, j: Interp)
    requires ArenaOk(sorts, terms)
  {
    forall d :: d in decls && Declared(sorts, terms, d) ==>
      i.vars(terms[d].op.name, SortOf(sorts, terms, d)) == j.vars(terms[d].op.name, SortOf(sorts, terms, d))
  }

  lemma MeaningAgrees(op: Op, ss: seq<Sort>, s: Sort, vs: seq<Value>, i: Interp, j: Interp)
    requires NodeSorted(op, ss, s) && ValuesFit(vs, ss) && PositiveWidths(ss) && Fits(i) && Fits(j) && Interpreted(op)
    ensures Meaning(op, ss, s, vs, i) == Meaning(op, ss, s, vs, j)
  {
    hide NodeSorted, Fits, WordsFrom, WordFrom, WordsCompare, NumbersFrom, NumbersCompare, TruthsFrom, PolymorphicFrom, ConstantValue;
  }

  /** Interpretations that agree on the variables give a closed term the same value. */
  lemma {:induction false} EvalAgrees(sorts: Sorts, terms: Terms, decls: seq<nat>, id: nat, i: Interp, j: Interp)
    requires ArenaOk(sorts, terms) && id < |terms| && Fits(i) && Fits(j)
    requires Closed(sorts, terms, decls, id) && Agree(sorts, terms, decls, i, j)
    ensures Eval(sorts, terms, id, i) == Eval(sorts, terms, id, j)
    decreases id
  {
    hide ArenaOk, Eval, Fits, Meaning, NodeSorted, Agree, Interpreted;
    NodeOk(sorts, terms, id);
    var args := terms[id].args;
    forall k | 0 <= k < |args| ensures Eval(sorts, terms, args[k], i) == Eval(sorts, terms, args[k], j) {
      EvalAgrees(sorts, terms, decls, args[k], i, j);
    }
    if Interpreted(terms[id].op) {
      EvalIs(sorts, terms, id, i);
      EvalIs(sorts, terms, id, j);
      assert EvalAll(sorts, terms, args, i) == EvalAll(sorts, terms, args, j);
      MeaningAgrees(terms[id].op, ArgSorts(sorts, terms, args), SortOf(sorts, terms, id), EvalAll(sorts, terms, args, i), i, j);
    } else {
      VarAgrees(sorts, terms, decls, id, i, j);
    }
  }

  lemma VarAgrees(sorts: Sorts, terms: Terms, decls: seq<nat>, id: nat, i: Interp, j: Interp)
    requires ArenaOk(sorts, terms) && id in decls && Declared(sorts, terms, id) && Fits(i) && Fits(j)
    requires Agree(sorts, terms, decls, i, j)
    ensures Eval(sorts, terms, id, i) == Eval(sorts, terms, id, j)
  {
    hide ArenaOk, Eval, Fits;
    EvalVar(sorts, terms, id, i);
    EvalVar(sorts, terms, id, j);
  }

  // ---------- growing arenas ----------

  lemma {:induction false} EvaluatedStable(sorts: Sorts, terms: Terms, sorts': Sorts, terms': Terms, id: nat)
    requires Linked(sorts, terms) && Linked(sorts', terms') && terms <= terms' && id < |terms|
    ensures Evaluated(sorts, terms, id) <==> Evaluated(sorts', terms', id)
    decreases id
  {
    hide Computes;
    assert terms'[id] == terms[id];
    forall k | 0 <= k < |terms[id].args| ensures Evaluated(sorts, terms, terms[id].args[k]) <==> Evaluated(sorts', terms', terms[id].args[k]) {
      EvaluatedStable(sorts, terms, sorts', terms', terms[id].args[k]);
    }
  }

  ghost predicate AllEvaluated(sorts: Sorts, terms: Terms, ids: seq<nat>)
    requires Linked(sorts, terms)
  {
    forall k :: 0 <= k < |ids| ==> ids[k] < |terms| && Evaluated(sorts, terms, ids[k])
  }

  lemma AllEvaluatedStable(sorts: Sorts, terms: Terms, sorts': Sorts, terms': Terms, ids: seq<nat>)
    requires Linked(sorts, terms) && Linked(sorts', terms') && terms <= terms'
    requires AllEvaluated(sorts, terms, ids)
    ensures AllEvaluated(sorts', terms', ids)
  {
    hide Evaluated, Linked;
    forall k | 0 <= k < |ids| ensures ids[k] < |terms'| && Evaluated(sorts', terms', ids[k]) {
      EvaluatedStable(sorts, terms, sorts', terms', ids[k]);
    }
  }

  lemma SatisfiedStable(sorts: Sorts, terms: Terms, sorts': Sorts, terms': Terms, ids: seq<nat>, i: Interp)
    requires ArenaOk(sorts, terms) && ArenaOk(sorts', terms') && Grows(sorts, terms, sorts', terms')
    requires forall k :: 0 <= k < |ids| ==> ids[k] < |terms|
    ensures Satisfied(sorts, terms, ids, i) <==> Satisfied(sorts', terms', ids, i)
  {
    hide ArenaOk, Eval, Fits;
    if Fits(i) {
      forall k | 0 <= k < |ids| ensures Eval(sorts, terms, ids[k], i) == Eval(sorts', terms', ids[k], i) {
        EvalStable(sorts, terms, sorts', terms', ids[k], i);
      }
    }
  }

  // ---------- the answer ----------

  datatype Answer = Sat | Unsat | Unknown | NotFollowed

  ghost predicate AllClosed(sorts: Sorts, terms: Terms, decls: seq<nat>, ids: seq<nat>)
    requires ArenaOk(sorts, terms)
  {
    forall k :: 0 <= k < |ids| ==> ids[k] < |terms| && Closed(sorts, terms, decls, ids[k])
  }

  /** The model read back gives closed assertions the values that the satisfying interpretation gives. */
  lemma ModelSatisfies(sorts: Sorts, terms: Terms, decls: seq<nat>, readable: seq<nat>, ids: seq<nat>, model: Model, i: Interp)
    requires ArenaOk(sorts, terms) && Satisfied(sorts, terms, ids, i) && AllClosed(sorts, terms, decls, ids)
    requires forall d :: d in readable <==> d in decls && Declared(sorts, terms, d)
    requires ModelTyped(sorts, terms, model) && ModelFits(sorts, terms, readable, model, i)
    ensures Satisfied(sorts, terms, ids, InterpFrom(model))
  {
    hide ArenaOk, Eval, Fits, Closed, InterpFrom;
    FitsOf(sorts, terms, ids, i);
    var j := InterpFrom(model);
    FittedAgree(sorts, terms, decls, readable, model, i);
    forall k | 0 <= k < |ids| ensures Eval(sorts, terms, ids[k], i) == Eval(sorts, terms, ids[k], j) {
      EvalAgrees(sorts, terms, decls, ids[k], i, j);
    }
  }

  lemma FitsOf(sorts: Sorts, terms: Terms, ids: seq<nat>, i: Interp)
    requires Satisfied(sorts, terms, ids, i)
    ensures Fits(i)
  {
  }

  lemma FittedAgree(sorts: Sorts, terms: Terms, decls: seq<nat>, readable: seq<nat>, model: Model, i: Interp)
    requires ArenaOk(sorts, terms) && forall d :: d in readable <==> d in decls && Declared(sorts, terms, d)
    requires ModelTyped(sorts, terms, model) && ModelFits(sorts, terms, readable, model, i)
    ensures Agree(sorts, terms, decls, i, InterpFrom(model))
  {
    hide TermSorted, Typed, Denotes;
    forall d | d in decls && Declared(sorts, terms, d)
      ensures i.vars(terms[d].op.name, SortOf(sorts, terms, d)) == InterpFrom(model).vars(terms[d].op.name, SortOf(sorts, terms, d))
    {
      assert d in readable;
      var k :| 0 <= k < |readable| && readable[k] == d;
      assert readable[k] < |terms|;
    }
  }

  lemma OpenFacts(sorts: Sorts, terms: Terms)
    requires Buildable(sorts, terms)
    ensures ArenaOk(sorts, terms) && Linked(sorts, terms) && HashConsed(terms)
  {
  }

  ghost predicate AllTruths(sorts: Sorts, terms: Terms, ids: seq<nat>)
    requires ArenaOk(sorts, terms)
  {
    forall k :: 0 <= k < |ids| ==> TruthSort(sorts, terms, ids[k])
  }

  ghost predicate AllVars(terms: Terms, ids: seq<nat>) {
    forall k :: 0 <= k < |ids| ==> ids[k] < |terms| && terms[ids[k]].op.Var?
  }

  lemma TruthsInside(sorts: Sorts, terms: Terms, ids: seq<nat>)
    requires ArenaOk(sorts, terms) && AllTruths(sorts, terms, ids)
    ensures Linked(sorts, terms)
    ensures forall k :: 0 <= k < |ids| ==> ids[k] < |terms| && SortOf(sorts, terms, ids[k]) == Sort.Bool && TruthSort(sorts, terms, ids[k])
  {
    hide TermSorted;
  }

  lemma TruthsStable(sorts: Sorts, terms: Terms, sorts': Sorts, terms': Terms, ids: seq<nat>)
    requires ArenaOk(sorts, terms) && ArenaOk(sorts', terms') && Grows(sorts, terms, sorts', terms') && AllTruths(sorts, terms, ids)
    ensures AllTruths(sorts', terms', ids)
  {
    hide TermSorted;
    forall k | 0 <= k < |ids| ensures TruthSort(sorts', terms', ids[k]) { SortStable(sorts, terms, sorts', terms', ids[k]); }
  }

  lemma KeptTruths(sorts: Sorts, terms: Terms, ids: seq<nat>, sorts': Sorts, terms': Terms, rs: seq<nat>)
    requires AllKept(sorts, terms, ids, sorts', terms', rs) && ArenaOk(sorts, terms) && ArenaOk(sorts', terms')
    requires AllTruths(sorts, terms, ids)
    ensures AllTruths(sorts', terms', rs)
  {
    hide TermSorted, Eval, Fits;
    forall k | 0 <= k < |rs| ensures TruthSort(sorts', terms', rs[k]) { assert Keeps(sorts, terms, ids[k], sorts', terms', rs[k]); }
  }

  lemma VarsStable(terms: Terms, terms': Terms, ids: seq<nat>)
    requires terms <= terms' && AllVars(terms, ids)
    ensures AllVars(terms', ids)
  {
  }

  lemma NoApply(terms: Terms)
    requires forall id :: 0 <= id < |terms| ==> !OtherTheory(terms[id].op)
    ensures OneResultSort(terms)
  {
  }

  /** What evaluation to true says of the assertions. */
  lemma Accepted(sorts: Sorts, terms: Terms, ids: seq<nat>, model: Model)
    requires Checkable(sorts, terms, model) && ArenaOk(sorts, terms) && Linked(sorts, terms) && AllTruths(sorts, terms, ids)
    ensures AllEvaluated(sorts, terms, ids) ==> (AllComputedTrue(sorts, terms, model, ids) <==> Satisfied(sorts, terms, ids, InterpFrom(model)))
    ensures (exists k :: 0 <= k < |ids| && Uncomputed(terms, ids[k])) ==> !AllComputedTrue(sorts, terms, model, ids)
  {
    hide Evaluated, IsTrue, InterpFrom, Fits, TermSorted, Computed, Uncomputed, ModelTyped, OneResultSort;
    forall k | 0 <= k < |ids|
      ensures Evaluated(sorts, terms, ids[k]) ==>
        (Computed(sorts, terms, model, ids[k]) == Some(BoolValue(true)) <==> IsTrue(sorts, terms, ids[k], InterpFrom(model)))
      ensures Uncomputed(terms, ids[k]) ==> Computed(sorts, terms, model, ids[k]) != Some(BoolValue(true))
    {
      ComputedTruth(sorts, terms, model, ids[k]);
    }
  }

  lemma AllComputedStable(sorts: Sorts, terms: Terms, sorts': Sorts, terms': Terms, model: Model, ids: seq<nat>)
    requires Linked(sorts, terms) && Linked(sorts', terms') && Grows(sorts, terms, sorts', terms')
    requires forall k :: 0 <= k < |ids| ==> ids[k] < |terms|
    ensures AllComputedTrue(sorts', terms', model, ids) <==> AllComputedTrue(sorts, terms, model, ids)
  {
    hide Computed;
    forall k | 0 <= k < |ids| ensures Computed(sorts', terms', model, ids[k]) == Computed(sorts, terms, model, ids[k]) {
      ComputedStable(sorts, terms, sorts', terms', model, ids[k]);
    }
  }

  /** Satisfying the simplified terms is satisfying the assertions, in the arenas of before and after. */
  lemma SimplifiedSatisfied(sorts: Sorts, terms: Terms, ids: seq<nat>, sorts': Sorts, terms': Terms, rs: seq<nat>, i: Interp)
    requires AllKept(sorts, terms, ids, sorts', terms', rs) && ArenaOk(sorts, terms) && ArenaOk(sorts', terms')
    requires Grows(sorts, terms, sorts', terms') && AllTruths(sorts, terms, ids) && Satisfied(sorts', terms', rs, i)
    ensures Satisfied(sorts, terms, ids, i) && Satisfied(sorts', terms', ids, i)
  {
    hide Satisfied, AllKept, ArenaOk, AllTruths;
    KeptSatisfied(sorts, terms, ids, sorts', terms', rs, i);
    TruthsInside(sorts, terms, ids);
    SatisfiedStable(sorts, terms, sorts', terms', ids, i);
  }

  class SmtSolver {
    const sorts: SortArena
    const terms: TermArena
    var assertions: seq<nat>
    var decls: seq<nat>
    var logic: Option<string>
    var lastModel: Option<Model>

    ghost predicate Valid()
      reads this, sorts, terms
    {
      Open(sorts, terms) && AllTruths(sorts.sorts, terms.terms, assertions) && AllVars(terms.terms, decls)
    }

    constructor (sorts: SortArena, terms: TermArena, logic: Option<string>)
      requires Open(sorts, terms)
      ensures Valid() && this.sorts == sorts && this.terms == terms && assertions == [] && decls == [] && this.logic == logic
    {
      this.sorts, this.terms, this.logic := sorts, terms, logic;
      assertions, decls, lastModel := [], [], None;
    }

    method Declare(d: nat)
      requires Valid() && d < |terms.terms| && terms.terms[d].op.Var?
      modifies this`decls
      ensures Valid() && decls == old(decls) + [d]
    {
      hide SortArena.Valid, TermArena.Valid, Buildable, ArenaOk, AllTruths;
      decls := decls + [d];
    }

    method AssertFormula(t: nat)
      requires Valid() && TruthSort(sorts.sorts, terms.terms, t)
      modifies this`assertions
      ensures Valid() && assertions == old(assertions) + [t]
    {
      hide SortArena.Valid, TermArena.Valid, Buildable, ArenaOk, AllVars, TruthSort;
      assertions := assertions + [t];
    }

    /** Folds and rewrites the assertions. */
    method Simplified() returns (rs: seq<nat>)
      requires Valid()
      modifies sorts, terms
      ensures Valid() && Grows(old(sorts.sorts), old(terms.terms), sorts.sorts, terms.terms)
      ensures AllKept(old(sorts.sorts), old(terms.terms), assertions, sorts.sorts, terms.terms, rs)
      ensures AllTruths(sorts.sorts, terms.terms, rs)
      ensures AllInert(old(terms.terms), assertions) ==>
        rs == assertions && sorts.sorts == old(sorts.sorts) && terms.terms == old(terms.terms)
    {
      hide SortArena.Valid, TermArena.Valid, Buildable, ArenaOk, AllKept, AllTruths, AllVars, AllInert;
      ghost var ss, ts := sorts.sorts, terms.terms;
      OpenFacts(ss, ts);
      TruthsInside(ss, ts, assertions);
      rs := Preprocess(sorts, terms, assertions);
      OpenFacts(sorts.sorts, terms.terms);
      TruthsStable(ss, ts, sorts.sorts, terms.terms, assertions);
      KeptTruths(ss, ts, assertions, sorts.sorts, terms.terms, rs);
      VarsStable(ts, terms.terms, decls);
    }

    /** Solves the simplified assertions, keeps the model, and checks it on the assertions themselves. */
    method SolveAndValidate(rs: seq<nat>, restartPlan: seq<bool>) returns (r: Answer)
      requires Valid() && AllTruths(sorts.sorts, terms.terms, rs) && ShiftsNarrow(sorts.sorts, terms.terms)
      requires forall id :: 0 <= id < |terms.terms| ==> !OtherTheory(terms.terms[id].op)
      modifies this`lastModel
      ensures Valid() && r != NotFollowed && Linked(sorts.sorts, terms.terms)
      ensures r == Unsat && Cdcl.NoRestart(restartPlan) ==> !Satisfiable(sorts.sorts, terms.terms, rs)
      ensures r == Unsat ==> lastModel == old(lastModel)
      ensures r != Unsat ==>
        && lastModel.Some? && Checkable(sorts.sorts, terms.terms, lastModel.value)
        && (r == Sat <==> AllComputedTrue(sorts.sorts, terms.terms, lastModel.value, assertions))
      ensures r != Unsat && AllPure(sorts.sorts, terms.terms, rs) ==> Satisfiable(sorts.sorts, terms.terms, rs)
      ensures
        (&& (forall i: Interp :: Satisfied(sorts.sorts, terms.terms, rs, i) ==> Satisfied(sorts.sorts, terms.terms, assertions, i))
         && AllPure(sorts.sorts, terms.terms, rs) && AllEvaluated(sorts.sorts, terms.terms, assertions)
         && AllClosed(sorts.sorts, terms.terms, decls, assertions)) ==> r != Unknown
      ensures |rs| == 1 && Unclaused(terms.terms, rs[0]) && Cdcl.NoRestart(restartPlan) ==> r != Unsat
    {
      hide SortArena.Valid, TermArena.Valid, Buildable, ArenaOk, Satisfiable, Satisfied, AllEvaluated, AllPure, AllClosed, Unclaused,
        ShiftsNarrow, ModelTyped, ModelFits, AllTruths, InterpFrom, OneResultSort, Evaluated, IsTrue, Declared, AllComputedTrue, Computed;
      ghost var ss, ts := sorts.sorts, terms.terms;
      OpenFacts(ss, ts);
      TruthsInside(ss, ts, rs);
      TruthsInside(ss, ts, assertions);
      NoApply(ts);
      var readable := ReadableDecls(sorts.sorts, terms.terms, decls);
      var sat, model;
      ghost var i;
      sat, model, i := SolveQfBv(sorts.sorts, terms.terms, rs, readable, restartPlan);
      if sat == LBool.False { return Unsat; }
      lastModel := Some(model);
      var validator := new ModelValidator();
      var ok := validator.Validate(assertions, model, sorts.sorts, terms.terms);
      ValidatedIs(ss, ts, assertions, model, ok);
      Accepted(ss, ts, assertions, model);
      if AllPure(ss, ts, rs) {
        SatisfiedIsSatisfiable(ss, ts, rs, i);
        if Satisfied(ss, ts, assertions, i) && AllClosed(ss, ts, decls, assertions) {
          ModelSatisfies(ss, ts, decls, readable, assertions, model, i);
        }
      }
      r := if ok then Sat else Unknown;
    }

    /** Decides the assertions. `NotFollowed` marks the runs this model does not follow: problems with
        other theories, and shifts wider than the blaster can build. */
    method CheckSat(restartPlan: seq<bool>) returns (r: Answer, ghost simplified: seq<nat>)
      requires Valid()
      modifies this`lastModel, sorts, terms
      ensures Valid() && Grows(old(sorts.sorts), old(terms.terms), sorts.sorts, terms.terms)
      ensures AllKept(old(sorts.sorts), old(terms.terms), assertions, sorts.sorts, terms.terms, simplified)
      ensures AllInert(old(terms.terms), assertions) ==>
        simplified == assertions && sorts.sorts == old(sorts.sorts) && terms.terms == old(terms.terms)
      ensures r == NotFollowed ==> !Followed(logic, sorts.sorts, terms.terms)
      ensures r == Unsat && Cdcl.NoRestart(restartPlan) ==> !Satisfiable(old(sorts.sorts), old(terms.terms), assertions)
      ensures Linked(old(sorts.sorts), old(terms.terms))
      ensures r == Sat || r == Unknown ==>
        && lastModel.Some?
        && (r == Sat <==> AllComputedTrue(old(sorts.sorts), old(terms.terms), lastModel.value, assertions))
      ensures r == Sat && AllEvaluated(old(sorts.sorts), old(terms.terms), assertions) ==>
        Satisfied(old(sorts.sorts), old(terms.terms), assertions, InterpFrom(lastModel.value))
      ensures
        (&& r != NotFollowed && Cdcl.NoRestart(restartPlan) && AllPure(old(sorts.sorts), old(terms.terms), assertions)
         && AllEvaluated(old(sorts.sorts), old(terms.terms), assertions)
         && AllClosed(old(sorts.sorts), old(terms.terms), decls, assertions)) ==>
        r == if Satisfiable(old(sorts.sorts), old(terms.terms), assertions) then Sat else Unsat
      ensures (exists k :: 0 <= k < |assertions| && Uncomputed(old(terms.terms), assertions[k])) ==> r != Sat
      ensures |simplified| == 1 && Unclaused(terms.terms, simplified[0]) && Cdcl.NoRestart(restartPlan) ==> r != Unsat
    {
      hide SortArena.Valid, TermArena.Valid, Buildable, ArenaOk, AllKept, Satisfiable, Satisfied, AllEvaluated, AllPure, AllClosed,
        ShiftsNarrow, AllTruths, AllVars, InterpFrom, Uncomputed, AllComputedTrue, AllInert, Unclaused, ModelTyped, OneResultSort;
      ghost var ss, ts := sorts.sorts, terms.terms;
      OpenFacts(ss, ts);
      lastModel := None;
      var rs := Simplified();
      simplified := rs;
      ghost var ss', ts' := sorts.sorts, terms.terms;
      OpenFacts(ss', ts');
      KeptSatisfiable(ss, ts, assertions, ss', ts', rs);
      if exists k :: 0 <= k < |rs| && rs[k] == 1 {
        ghost var k :| 0 <= k < |rs| && rs[k] == 1;
        FalseUnsatisfiable(ss', ts', rs, k);
        FalseHasClauses(ss', ts');
        return Unsat, simplified;
      }
      var pure := IsPureBvProblem(logic, terms.terms);
      var narrow := NoWideShifts(sorts.sorts, terms.terms);
      if !pure || !narrow { return NotFollowed, simplified; }
      r := SolveAndValidate(rs, restartPlan);
      forall i: Interp | Satisfied(ss', ts', rs, i) ensures Satisfied(ss', ts', assertions, i) {
        SimplifiedSatisfied(ss, ts, assertions, ss', ts', rs, i);
      }
      EarlierFacts(ss, ts, ss', ts', assertions, lastModel);
      KeptPure(ss, ts, assertions, ss', ts', rs);
      AllClosedStable(ss, ts, ss', ts', decls, assertions);
    }
  }

  /** Folding and rewriting bring in no operator without a circuit. */
  lemma KeptPure(sorts: Sorts, terms: Terms, ids: seq<nat>, sorts': Sorts, terms': Terms, rs: seq<nat>)
    requires AllKept(sorts, terms, ids, sorts', terms', rs) && ArenaOk(sorts, terms) && ArenaOk(sorts', terms')
    ensures AllPure(sorts, terms, ids) ==> AllPure(sorts', terms', rs)
  {
    hide ArenaOk, Eval, Pure, SortOf, Fits;
    forall k | 0 <= k < |rs| ensures AllPure(sorts, terms, ids) ==> rs[k] < |terms'| && Pure(sorts', terms', rs[k]) {
      assert Keeps(sorts, terms, ids[k], sorts', terms', rs[k]);
    }
  }

  lemma {:induction false} ClosedStable(sorts: Sorts, terms: Terms, sorts': Sorts, terms': Terms, decls: seq<nat>, id: nat)
    requires ArenaOk(sorts, terms) && ArenaOk(sorts', terms') && Grows(sorts, terms, sorts', terms') && id < |terms|
    ensures Closed(sorts, terms, decls, id) ==> Closed(sorts', terms', decls, id)
    decreases id
  {
    hide ArenaOk, Interpreted;
    LinkedOk(sorts, terms);
    SortStable(sorts, terms, sorts', terms', id);
    assert terms'[id] == terms[id];
    forall k | 0 <= k < |terms[id].args|
      ensures Closed(sorts, terms, decls, terms[id].args[k]) ==> Closed(sorts', terms', decls, terms[id].args[k])
    {
      ClosedStable(sorts, terms, sorts', terms', decls, terms[id].args[k]);
    }
  }

  lemma AllClosedStable(sorts: Sorts, terms: Terms, sorts': Sorts, terms': Terms, decls: seq<nat>, ids: seq<nat>)
    requires ArenaOk(sorts, terms) && ArenaOk(sorts', terms') && Grows(sorts, terms, sorts', terms')
    ensures AllClosed(sorts, terms, decls, ids) ==> AllClosed(sorts', terms', decls, ids)
  {
    hide ArenaOk, Closed;
    forall k | 0 <= k < |ids| && ids[k] < |terms| ensures Closed(sorts, terms, decls, ids[k]) ==> Closed(sorts', terms', decls, ids[k]) {
      ClosedStable(sorts, terms, sorts', terms', decls, ids[k]);
    }
  }

  /** Problems whose run this model follows: no operator of another theory and no wide shift in the arena. */
  ghost predicate Followed(logic: Option<string>, sorts: Sorts, terms: Terms) {
    && (logic.None? || logic.value == "QF_BV") && (forall id :: 0 <= id < |terms| ==> !OtherTheory(terms[id].op))
    && ArenaOk(sorts, terms) && ShiftsNarrow(sorts, terms)
  }

  lemma FalseHasClauses(sorts: Sorts, terms: Terms)
    requires Buildable(sorts, terms)
    ensures !Unclaused(terms, 1)
  {
    hide ArenaOk, Signatures, HashConsed;
  }

  lemma ValidatedIs(sorts: Sorts, terms: Terms, ids: seq<nat>, model: Model, ok: bool)
    requires Linked(sorts, terms) && forall k :: 0 <= k < |ids| ==> ids[k] < |terms|
    requires ok <==> forall k :: 0 <= k < |ids| ==> Computed(sorts, terms, model, ids[k]) == Some(BoolValue(true))
    ensures ok <==> AllComputedTrue(sorts, terms, model, ids)
  {
  }

  /** What holds of the assertions in the grown arenas held before. */
  lemma EarlierFacts(sorts: Sorts, terms: Terms, sorts': Sorts, terms': Terms, ids: seq<nat>, model: Option<Model>)
    requires ArenaOk(sorts, terms) && ArenaOk(sorts', terms') && Grows(sorts, terms, sorts', terms')
    requires AllTruths(sorts, terms, ids) && AllTruths(sorts', terms', ids)
    requires Linked(sorts, terms) && Linked(sorts', terms') && (model.Some? ==> Checkable(sorts', terms', model.value))
    ensures AllEvaluated(sorts, terms, ids) ==> AllEvaluated(sorts', terms', ids)
    ensures model.Some? ==>
      && (AllComputedTrue(sorts', terms', model.value, ids) <==> AllComputedTrue(sorts, terms, model.value, ids))
      && (AllEvaluated(sorts, terms, ids) ==>
           (AllComputedTrue(sorts, terms, model.value, ids) <==> Satisfied(sorts, terms, ids, InterpFrom(model.value))))
      && ((exists k :: 0 <= k < |ids| && Uncomputed(terms, ids[k])) ==> !AllComputedTrue(sorts, terms, model.value, ids))
  {
    hide AllEvaluated, Satisfied, InterpFrom, ArenaOk, AllTruths, Linked, Checkable, AllComputedTrue, Uncomputed;
    TruthsInside(sorts, terms, ids);
    if AllEvaluated(sorts, terms, ids) { AllEvaluatedStable(sorts, terms, sorts', terms', ids); }
    if model.Some? {
      AllComputedStable(sorts, terms, sorts', terms', model.value, ids);
      Accepted(sorts', terms', ids, model.value);
      SatisfiedStable(sorts, terms, sorts', terms', ids, InterpFrom(model.value));
      UncomputedLater(terms, terms', ids);
    }
  }

  lemma UncomputedLater(terms: Terms, terms': Terms, ids: seq<nat>)
    requires terms <= terms'
    ensures forall k :: 0 <= k < |ids| && Uncomputed(terms, ids[k]) ==> Uncomputed(terms', ids[k])
  {
  }

  // ---------- satisfiable, and never answered Sat ----------

  const SLT_SORTS: Sorts := [Sort.Bool, Sort.Int, Sort.Real, BitVec(8)]

  /** The arena of `(bvslt x y)` over eight bits. */
  const SLT_TERMS: Terms := [
    TermData(Op.True, [], 0), TermData(Op.False, [], 0), TermData(Op.Var([120]), [], 3), TermData(Op.Var([121]), [], 3),
    TermData(BvSlt, [2, 3], 0)
  ]

  lemma SltShape()
    ensures Linked(SLT_SORTS, SLT_TERMS)
    ensures forall id :: 0 <= id < |SLT_TERMS| ==> GoodSort(SortOf(SLT_SORTS, SLT_TERMS, id))
  {
    forall id | 0 <= id < |SLT_TERMS|
      ensures SLT_TERMS[id].sort < |SLT_SORTS| && forall k :: 0 <= k < |SLT_TERMS[id].args| ==> SLT_TERMS[id].args[k] < id
    {
      assert id == 0 || id == 1 || id == 2 || id == 3 || id == 4;
    }
  }

  lemma SltSorted(id: nat)
    requires id < |SLT_TERMS| && Linked(SLT_SORTS, SLT_TERMS)
    ensures NodeSorted(SLT_TERMS[id].op, ArgSorts(SLT_SORTS, SLT_TERMS, SLT_TERMS[id].args), SortOf(SLT_SORTS, SLT_TERMS, id))
  {
    var ss := ArgSorts(SLT_SORTS, SLT_TERMS, SLT_TERMS[id].args);
    if id == 4 {
      assert SLT_TERMS[4].args[0] == 2 && SLT_TERMS[4].args[1] == 3;
      assert ss[0] == BitVec(8) && ss[1] == BitVec(8);
    }
  }

  lemma SltArena()
    ensures ArenaOk(SLT_SORTS, SLT_TERMS) && TruthSort(SLT_SORTS, SLT_TERMS, 4)
  {
    hide NodeSorted, GoodSort;
    SltShape();
    forall id | 0 <= id < |SLT_TERMS| ensures TermSorted(SLT_SORTS, SLT_TERMS, id) { SltSorted(id); }
  }

  /** `x` is all ones and everything else is zero. */
  ghost function SltVars(n: seq<byte>, s: Sort): (v: Value)
    ensures HasSort(v, s)
  {
    if n == [120] && s == BitVec(8) then Word(BV.Fill(8, true)) else DefaultValue(s)
  }

  ghost function SltInterp(): (i: Interp)
    ensures Fits(i)
  {
    Interp((n: seq<byte>, s: Sort) => SltVars(n, s), (op: Op, s: Sort, vs: seq<Value>) => DefaultValue(s))
  }

  lemma MinusOneBelowZero()
    ensures WordsCompare(BvSlt, BV.Fill(8, true), BV.Fill(8, false))
  {
    hide BV.Pow2;
    BV.ValueAllTrue(BV.Fill(8, true));
    BV.ValueAllFalse(BV.Fill(8, false));
    BV.TopBit(BV.Fill(8, true));
    BV.TopBit(BV.Fill(8, false));
  }

  /** The comparison holds of -1 and 0, but the validator does not compute it. */
  lemma SltNeverSat()
    ensures ArenaOk(SLT_SORTS, SLT_TERMS) && Satisfiable(SLT_SORTS, SLT_TERMS, [4]) && Uncomputed(SLT_TERMS, 4)
  {
    hide ArenaOk, Fits, WordsCompare, SltInterp, Eval, BV.Fill;
    SltArena();
    var i := SltInterp();
    EvalComparesWords(SLT_SORTS, SLT_TERMS, 4, i);
    SltValues();
    MinusOneBelowZero();
    assert Satisfied(SLT_SORTS, SLT_TERMS, [4], i);
  }

  lemma SltValues()
    ensures ArenaOk(SLT_SORTS, SLT_TERMS)
    ensures Eval(SLT_SORTS, SLT_TERMS, 2, SltInterp()) == Word(BV.Fill(8, true))
    ensures Eval(SLT_SORTS, SLT_TERMS, 3, SltInterp()) == Word(BV.Fill(8, false))
  {
    hide TermSorted, Eval;
    SltArena();
    EvalVar(SLT_SORTS, SLT_TERMS, 2, SltInterp());
    EvalVar(SLT_SORTS, SLT_TERMS, 3, SltInterp());
    assert SLT_TERMS[3].op.name[0] == 121;
  }

  // ---------- unsatisfiable, and answered Sat ----------

  /** The arena of `(not (bvsgt 1 0))` over eight bits. */
  ghost predicate NotSgtTerms(terms: Terms) {
    && |terms| == 6 && terms[0] == TermData(Op.True, [], 0) && terms[1] == TermData(Op.False, [], 0)
    && terms[2] == TermData(BvConst(8, 1), [], 3) && terms[3] == TermData(BvConst(8, 0), [], 3)
    && terms[4] == TermData(BvSgt, [2, 3], 0) && terms[5] == TermData(Op.Not, [4], 0)
  }

  lemma NotSgtLinked(terms: Terms)
    requires NotSgtTerms(terms)
    ensures Linked(SLT_SORTS, terms)
    ensures forall id :: 0 <= id < |terms| ==> GoodSort(SortOf(SLT_SORTS, terms, id))
  {
  }

  lemma NotSgtSorted(terms: Terms, id: nat)
    requires NotSgtTerms(terms) && id < |terms| && Linked(SLT_SORTS, terms)
    ensures NodeSorted(terms[id].op, ArgSorts(SLT_SORTS, terms, terms[id].args), SortOf(SLT_SORTS, terms, id))
  {
    var ss := ArgSorts(SLT_SORTS, terms, terms[id].args);
    assert BV.Pow2(8) == 2 * BV.Pow2(7);
    if id == 4 {
      assert ss[0] == SortOf(SLT_SORTS, terms, 2) && ss[1] == SortOf(SLT_SORTS, terms, 3);
    } else if id == 5 {
      assert ss[0] == SortOf(SLT_SORTS, terms, 4);
    }
  }

  lemma NotSgtOk(terms: Terms)
    requires NotSgtTerms(terms)
    ensures ArenaOk(SLT_SORTS, terms)
  {
    hide NodeSorted, GoodSort, NotSgtTerms;
    NotSgtLinked(terms);
    forall id | 0 <= id < |terms| ensures TermSorted(SLT_SORTS, terms, id) { NotSgtSorted(terms, id); }
  }

  lemma NotSgtOp(terms: Terms, id: nat)
    requires NotSgtTerms(terms) && id < 6
    ensures var op := terms[id].op;
      && (op.True? <==> id == 0) && (op.False? <==> id == 1) && (op.BvConst? <==> id == 2 || id == 3) && (op.BvSgt? <==> id == 4)
      && (op.Not? <==> id == 5) && (id == 2 ==> op.value == 1) && (id == 3 ==> op.value == 0)
      && Interpreted(op) && !Shifts(op)
  {
  }

  lemma NotSgtOps(terms: Terms)
    requires NotSgtTerms(terms)
    ensures HashConsed(terms) && forall id :: 0 <= id < |terms| ==> Interpreted(terms[id].op) && !Shifts(terms[id].op)
  {
    assert |terms| == 6;
    hide NotSgtTerms, Interpreted, Shifts;
    forall a | 0 <= a < |terms| ensures Interpreted(terms[a].op) && !Shifts(terms[a].op) { NotSgtOp(terms, a); }
    forall a, b | 0 <= a < |terms| && 0 <= b < |terms| && terms[a].op == terms[b].op ensures a == b {
      NotSgtOp(terms, a);
      NotSgtOp(terms, b);
    }
  }

  lemma NotSgtArena(terms: Terms)
    requires NotSgtTerms(terms)
    ensures Buildable(SLT_SORTS, terms) && TruthSort(SLT_SORTS, terms, 5) && ShiftsNarrow(SLT_SORTS, terms)
  {
    hide TermSorted, GoodSort, HashConsed, Interpreted, Shifts;
    NotSgtOk(terms);
    NotSgtOps(terms);
  }

  lemma NotSgtFollowed(terms: Terms)
    requires NotSgtTerms(terms)
    ensures Followed(None, SLT_SORTS, terms)
  {
    hide ArenaOk, ShiftsNarrow, Buildable;
    NotSgtArena(terms);
    BuildableFacts(SLT_SORTS, terms);
  }

  /** No rule applies to the assertion, and the blaster gives the comparison a fresh variable. */
  lemma NotSgtInert(terms: Terms)
    requires NotSgtTerms(terms)
    ensures AllInert(terms, [5]) && Unclaused(terms, [5][0])
  {
    assert Inert(terms, 2) && Inert(terms, 3);
    assert Inert(terms, 4);
    assert Inert(terms, 5);
  }

  lemma OneAboveZero()
    ensures 1 < BV.Pow2(8) && WordsCompare(BvSgt, BV.ToBits(1, 8), BV.ToBits(0, 8))
  {
  }

  lemma NotSgtFalse(terms: Terms, i: Interp)
    requires NotSgtTerms(terms) && Fits(i) && ArenaOk(SLT_SORTS, terms)
    ensures !IsTrue(SLT_SORTS, terms, 5, i)
  {
    hide ArenaOk, Eval, WordsCompare, BV.ToBits;
    OneAboveZero();
    EvalConstant(SLT_SORTS, terms, 2, i);
    EvalConstant(SLT_SORTS, terms, 3, i);
    EvalComparesWords(SLT_SORTS, terms, 4, i);
    EvalTruths(SLT_SORTS, terms, 5, i);
    assert IsTrue(SLT_SORTS, terms, 4, i);
  }

  /** 1 is greater than 0. */
  lemma NotSgtUnsatisfiable(terms: Terms)
    requires NotSgtTerms(terms)
    ensures !Satisfiable(SLT_SORTS, terms, [5])
  {
    hide ArenaOk, IsTrue;
    NotSgtOk(terms);
    forall i: Interp ensures !Satisfied(SLT_SORTS, terms, [5], i) {
      if Fits(i) {
        NotSgtFalse(terms, i);
        assert [5][0] == 5;
      }
    }
  }

  /** The validator takes the comparison for false, so it accepts any model. */
  lemma NotSgtAccepted(terms: Terms, model: Model)
    requires NotSgtTerms(terms)
    ensures Linked(SLT_SORTS, terms) && AllComputedTrue(SLT_SORTS, terms, model, [5])
  {
    NotSgtLinked(terms);
    assert Computed(SLT_SORTS, terms, model, 4) == Some(BoolValue(false));
    var none := ComputedArgs(SLT_SORTS, terms, model, 5, 0);
    assert none == Some([]);
    assert ComputedArgs(SLT_SORTS, terms, model, 5, 1) == Some(none.value + [BoolValue(false)]);
    assert Computed(SLT_SORTS, terms, model, 5) == Some(BoolValue(true));
  }

  /** A term whose operator is new. */
  method AddTerm(terms: TermArena, op: Op, args: seq<nat>, sort: nat) returns (id: nat)
    requires terms.Valid() && forall k :: 0 <= k < |terms.terms| ==> terms.terms[k].op != op
    modifies terms
    ensures terms.Valid() && terms.terms == old(terms.terms) + [TermData(op, args, sort)] && id == |old(terms.terms)|
  {
    hide TermArena.Valid;
    id := terms.Intern(op, args, sort);
    assert id >= |old(terms.terms)|;
  }

  /** Adds the two constants and the comparison. */
  method AddComparison(terms: TermArena)
    requires terms.Valid() && terms.terms == [TermData(Op.True, [], 0), TermData(Op.False, [], 0)]
    modifies terms
    ensures terms.Valid() && terms.terms == old(terms.terms) + [
      TermData(BvConst(8, 1), [], 3), TermData(BvConst(8, 0), [], 3), TermData(BvSgt, [2, 3], 0)]
  {
    hide TermArena.Valid;
    var one := AddTerm(terms, BvConst(8, 1), [], 3);
    var zero := AddTerm(terms, BvConst(8, 0), [], 3);
    var greater := AddTerm(terms, BvSgt, [one, zero], 0);
  }

  method BuildNotSgtTerms() returns (terms: TermArena)
    ensures fresh(terms) && terms.Valid() && NotSgtTerms(terms.terms)
  {
    hide TermArena.Valid;
    terms := new TermArena();
    AddComparison(terms);
    var negated := AddTerm(terms, Op.Not, [4], 0);
  }

  /** The arena, built from nothing. */
  method BuildNotSgt() returns (sorts: SortArena, terms: TermArena)
    ensures fresh(sorts) && fresh(terms) && sorts.Valid() && terms.Valid()
    ensures sorts.sorts == SLT_SORTS && NotSgtTerms(terms.terms)
  {
    hide SortArena.Valid, TermArena.Valid, NotSgtTerms;
    sorts := new SortArena();
    var byte8 := sorts.Intern(BitVec(8));
    terms := BuildNotSgtTerms();
  }

  lemma OpenIntro(sorts: SortArena, terms: TermArena)
    requires sorts.Valid() && terms.Valid() && Buildable(sorts.sorts, terms.terms)
    ensures Open(sorts, terms) && ArenaOk(sorts.sorts, terms.terms)
  {
  }

  /** Builds the arena and asserts the term: the answer is Sat, and there is no model. */
  method SgtAnsweredSat() returns (s: SmtSolver, r: Answer)
    ensures fresh(s) && s.Valid() && s.assertions == [5] && s.sorts.sorts == SLT_SORTS && NotSgtTerms(s.terms.terms)
    ensures r == Sat && !Satisfiable(s.sorts.sorts, s.terms.terms, s.assertions)
  {
    hide SortArena.Valid, TermArena.Valid, Buildable, Satisfiable, AllInert, Unclaused, AllComputedTrue, Followed, ArenaOk, NotSgtTerms,
      AllPure, AllEvaluated, AllClosed, AllKept, AllTruths, AllVars, Satisfied, Uncomputed;
    var sorts, terms := BuildNotSgt();
    ghost var ts := terms.terms;
    NotSgtArena(ts);
    OpenIntro(sorts, terms);
    s := new SmtSolver(sorts, terms, None);
    NotSgtInert(ts);
    NotSgtFollowed(ts);
    NotSgtUnsatisfiable(ts);
    s.AssertFormula(5);
    assert s.assertions == [5];
    ghost var simplified;
    r, simplified := s.CheckSat([]);
    assert s.sorts.sorts == SLT_SORTS && s.terms.terms == ts;
    if s.lastModel.Some? { NotSgtAccepted(ts, s.lastModel.value); }
  }
}
