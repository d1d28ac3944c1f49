/** Encoder and solver together: Boolean formulas over atoms, decided. */
module Pipeline {
  import opened Lits
  import opened GateCnf
  import opened TseitinCnf
  import Cdcl
  import SearchInvariant

  /** Some truth assignment of the atoms makes the term true. */
  ghost predicate Satisfiable(ts: Arena, id: nat)
    requires ArenaOk(ts) && id < |ts|
  {
    exists env: iset<nat> :: Eval(ts, id, env)
  }

  ghost predicate RootsSatisfiable(ts: Arena, roots: set<nat>)
    requires ArenaOk(ts)
  {
    exists env: iset<nat> :: AllTrue(ts, roots, env)
  }

  /** Every model of the clauses makes the roots true under the atoms it picks. */
  lemma ModelToEnv(ts: Arena, cache: Cache, trueLit: Option<Lit>, base: Formula, roots: set<nat>, s: Formula, m: Valuation)
    requires Encoded(ts, cache, trueLit, base, roots, s) && ModelsAll(m, s.f)
    ensures AllTrue(ts, roots, EnvOf(ts, cache, m))
  {
    assert ModelMeans(ts, cache, s.n, trueLit, roots, m);
    forall r | r in roots ensures r < |ts| && Eval(ts, r, EnvOf(ts, cache, m)) {
      CachedValue(ts, cache, s.n, m, r);
    }
  }

  /** The clauses are satisfiable on top of a model of the base exactly when the roots are. */
  lemma Equisatisfiable(ts: Arena, cache: Cache, trueLit: Option<Lit>, base: Formula, roots: set<nat>, s: Formula)
    requires Encoded(ts, cache, trueLit, base, roots, s)
    requires exists m0: Valuation :: ModelsAll(m0, base.f)
    ensures (exists m: Valuation :: ModelsAll(m, s.f)) <==> RootsSatisfiable(ts, roots)
  {
    if exists m: Valuation :: ModelsAll(m, s.f) {
      var m: Valuation :| ModelsAll(m, s.f);
      ModelToEnv(ts, cache, trueLit, base, roots, s, m);
    }
    if RootsSatisfiable(ts, roots) {
      var env: iset<nat> :| AllTrue(ts, roots, env);
      var m0: Valuation :| ModelsAll(m0, base.f);
      assert Realized(ts, cache, base, s, m0, env);
    }
  }

  method ClauseList(cs: set<seq<Lit>>) returns (f: Cnf)
    ensures forall m: Valuation :: Models(m, f) <==> ModelsAll(m, cs)
  {
    f := [];
    var rest := cs;
    while rest != {}
      invariant rest <= cs && forall c :: c in cs <==> c in f || c in rest
      decreases |rest|
    {
      var c :| c in rest;
      rest := rest - {c};
      f := f + [c];
    }
  }

  /** Whether some truth assignment of the atoms makes the term true. An answer true is right for
      every behaviour of the restart heuristic, an answer false when it asks for no restart. */
  method DecideFormula(ts: Arena, id: nat, restartPlan: seq<bool>) returns (sat: bool)
    requires ArenaOk(ts) && id < |ts|
    ensures sat ==> Satisfiable(ts, id)
    ensures Cdcl.NoRestart(restartPlan) ==> (sat <==> Satisfiable(ts, id))
  {
    hide Encoded;
    var solver := new Sink();
    var encoder := new TseitinEncoder(ts, solver);
    encoder.AssertFormula(ts, id, solver);
    SameTruth(ts, id, encoder.roots);
    Equisatisfiable(ts, encoder.termToLit, encoder.trueLit, encoder.base, encoder.roots, solver.State()) by {
      assert ModelsAll(iset{}, encoder.base.f);
    }
    var f := ClauseList(solver.clauses);
    var r, model, _ := Cdcl.DecideCnf(f, restartPlan);
    sat := r == LBool.True;
    if sat {
      assert ModelsAll(SearchInvariant.ModelOf(model), solver.clauses);
    }
  }

  lemma SameTruth(ts: Arena, id: nat, roots: set<nat>)
    requires ArenaOk(ts) && id < |ts|
    requires forall env: iset<nat> :: AllTrue(ts, roots, env) <==> AllTrue(ts, {}, env) && Eval(ts, id, env)
    ensures RootsSatisfiable(ts, roots) <==> Satisfiable(ts, id)
  {
    forall env: iset<nat> ensures AllTrue(ts, roots, env) <==> Eval(ts, id, env) {
      assert AllTrue(ts, {}, env);
    }
  }
}
