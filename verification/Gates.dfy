/** Boolean gates as clauses over fresh variables. A solver is abstracted to its variable
    counter and the set of clauses it has been given. */
module GateCnf {
  import opened Lits

  datatype Formula = Formula(n: nat, f: set<seq<Lit>>) {
    ghost predicate Wf() {
      forall c, l :: c in f && l in c ==> l.v < n
    }
  }

  ghost predicate ModelsAll(m: Valuation, f: set<seq<Lit>>) {
    forall c :: c in f ==> SatClause(m, c)
  }

  ghost predicate SameBelow(m: Valuation, k: Valuation, n: nat) {
    forall v :: 0 <= v < n ==> (v in m <==> v in k)
  }

  /** `y` extends `x`, and every model of `x` extends, on the fresh variables, to one of `y`. */
  ghost predicate Conservative(x: Formula, y: Formula) {
    && x.n <= y.n && x.f <= y.f
    && (forall m: Valuation :: ModelsAll(m, x.f) ==> exists k: Valuation :: ModelsAll(k, y.f) && SameBelow(m, k, x.n))
  }

  lemma ConservativeRefl(x: Formula)
    ensures Conservative(x, x)
  {
    forall m: Valuation | ModelsAll(m, x.f) ensures exists k: Valuation :: ModelsAll(k, x.f) && SameBelow(m, k, x.n) {
      assert SameBelow(m, m, x.n);
    }
  }

  lemma ConservativeTrans(x: Formula, y: Formula, z: Formula)
    requires Conservative(x, y) && Conservative(y, z)
    ensures Conservative(x, z)
  {
    forall m: Valuation | ModelsAll(m, x.f) ensures exists k: Valuation :: ModelsAll(k, z.f) && SameBelow(m, k, x.n) {
      var k: Valuation :| ModelsAll(k, y.f) && SameBelow(m, k, x.n);
      var j: Valuation :| ModelsAll(j, z.f) && SameBelow(k, j, y.n);
      assert SameBelow(m, j, x.n);
    }
  }

  ghost predicate Below(c: seq<Lit>, n: nat) {
    forall l :: l in c ==> l.v < n
  }

  /** A valuation on the first `n` variables, with a value for variable `n`. */
  ghost function With(m: Valuation, n: nat, b: bool): Valuation {
    if b then m + iset{n} else m - iset{n}
  }

  lemma WithHolds(m: Valuation, n: nat, b: bool, l: Lit)
    ensures l.v < n ==> (Holds(With(m, n, b), l) <==> Holds(m, l))
    ensures l.v == n ==> (Holds(With(m, n, b), l) <==> b != l.neg)
  {
  }

  /** Clauses that define the fresh variable `x.n`: whatever the other variables are, the given
      value of it satisfies them. */
  lemma DefinitionConservative(x: Formula, defs: set<seq<Lit>>, value: Valuation -> bool)
    requires x.Wf()
    requires forall c, l :: c in defs && l in c ==> l.v <= x.n
    requires forall m: Valuation :: ModelsAll(With(m, x.n, value(m)), defs)
    ensures Formula(x.n + 1, x.f + defs).Wf() && Conservative(x, Formula(x.n + 1, x.f + defs))
  {
    var y := Formula(x.n + 1, x.f + defs);
    forall m: Valuation | ModelsAll(m, x.f) ensures exists k: Valuation :: ModelsAll(k, y.f) && SameBelow(m, k, x.n) {
      var k := With(m, x.n, value(m));
      forall c | c in y.f ensures SatClause(k, c) {
        if c in x.f {
          assert SatClause(m, c);
          var l :| l in c && Holds(m, l);
          WithHolds(m, x.n, value(m), l);
        }
      }
      assert SameBelow(m, k, x.n);
    }
  }

  // ---------- truth of short clauses ----------

  lemma Sat1(m: Valuation, a: Lit)
    ensures SatClause(m, [a]) <==> Holds(m, a)
  {
    if Holds(m, a) { assert a in [a]; }
  }

  lemma Sat2(m: Valuation, a: Lit, b: Lit)
    ensures SatClause(m, [a, b]) <==> Holds(m, a) || Holds(m, b)
  {
    var c := [a, b];
    assert c[0] == a && c[1] == b;
    assert forall l :: l in c <==> l == a || l == b;
  }

  lemma Sat3(m: Valuation, a: Lit, b: Lit, d: Lit)
    ensures SatClause(m, [a, b, d]) <==> Holds(m, a) || Holds(m, b) || Holds(m, d)
  {
    var c := [a, b, d];
    assert c[0] == a && c[1] == b && c[2] == d;
    assert forall l :: l in c <==> l == a || l == b || l == d;
  }

  // ---------- the clauses of each gate ----------

  function AndClauses(p: Lit, a: Lit, b: Lit): set<seq<Lit>> {
    {[p.Not(), a], [p.Not(), b], [p, a.Not(), b.Not()]}
  }

  function OrClauses(p: Lit, a: Lit, b: Lit): set<seq<Lit>> {
    {[a.Not(), p], [b.Not(), p], [p.Not(), a, b]}
  }

  function XorClauses(p: Lit, a: Lit, b: Lit): set<seq<Lit>> {
    {[p.Not(), a, b], [p.Not(), a.Not(), b.Not()], [p, a.Not(), b], [p, a, b.Not()]}
  }

  function IteClauses(p: Lit, c: Lit, t: Lit, e: Lit): set<seq<Lit>> {
    {[c.Not(), t.Not(), p], [c.Not(), t, p.Not()], [c, e.Not(), p], [c, e, p.Not()]}
  }

  lemma AndMeaning(m: Valuation, p: Lit, a: Lit, b: Lit)
    ensures ModelsAll(m, AndClauses(p, a, b)) <==> (Holds(m, p) <==> Holds(m, a) && Holds(m, b))
  {
    Sat2(m, p.Not(), a);
    Sat2(m, p.Not(), b);
    Sat3(m, p, a.Not(), b.Not());
    assert [p.Not(), a] in AndClauses(p, a, b) && [p.Not(), b] in AndClauses(p, a, b);
    assert [p, a.Not(), b.Not()] in AndClauses(p, a, b);
  }

  lemma OrMeaning(m: Valuation, p: Lit, a: Lit, b: Lit)
    ensures ModelsAll(m, OrClauses(p, a, b)) <==> (Holds(m, p) <==> Holds(m, a) || Holds(m, b))
  {
    Sat2(m, a.Not(), p);
    Sat2(m, b.Not(), p);
    Sat3(m, p.Not(), a, b);
    assert [a.Not(), p] in OrClauses(p, a, b) && [b.Not(), p] in OrClauses(p, a, b);
    assert [p.Not(), a, b] in OrClauses(p, a, b);
  }

  lemma XorMeaning(m: Valuation, p: Lit, a: Lit, b: Lit)
    ensures ModelsAll(m, XorClauses(p, a, b)) <==> (Holds(m, p) <==> Holds(m, a) != Holds(m, b))
  {
    Sat3(m, p.Not(), a, b);
    Sat3(m, p.Not(), a.Not(), b.Not());
    Sat3(m, p, a.Not(), b);
    Sat3(m, p, a, b.Not());
    assert [p.Not(), a, b] in XorClauses(p, a, b) && [p.Not(), a.Not(), b.Not()] in XorClauses(p, a, b);
    assert [p, a.Not(), b] in XorClauses(p, a, b) && [p, a, b.Not()] in XorClauses(p, a, b);
  }

  lemma IteMeaning(m: Valuation, p: Lit, c: Lit, t: Lit, e: Lit)
    ensures ModelsAll(m, IteClauses(p, c, t, e)) <==> (Holds(m, p) <==> if Holds(m, c) then Holds(m, t) else Holds(m, e))
  {
    Sat3(m, c.Not(), t.Not(), p);
    Sat3(m, c.Not(), t, p.Not());
    Sat3(m, c, e.Not(), p);
    Sat3(m, c, e, p.Not());
    assert [c.Not(), t.Not(), p] in IteClauses(p, c, t, e) && [c.Not(), t, p.Not()] in IteClauses(p, c, t, e);
    assert [c, e.Not(), p] in IteClauses(p, c, t, e) && [c, e, p.Not()] in IteClauses(p, c, t, e);
  }

  // ---------- emitting gates ----------

  /** The solver as the compilers see it. */
  class Sink {
    var numVars: nat
    var clauses: set<seq<Lit>>

    ghost function State(): Formula
      reads this
    {
      Formula(numVars, clauses)
    }

    constructor ()
      ensures State() == Formula(0, {})
    {
      numVars, clauses := 0, {};
    }

    method NewVar() returns (v: nat)
      modifies this`numVars
      ensures v == old(numVars) && numVars == v + 1
    {
      v := numVars;
      numVars := numVars + 1;
    }

    method AddClause(c: seq<Lit>)
      modifies this`clauses
      ensures clauses == old(clauses) + {c}
    {
      clauses := clauses + {c};
    }
  }

  /** `y` grew out of `x` by definitions of fresh variables. */
  ghost predicate Grown(x: Formula, y: Formula) {
    x.n <= y.n && y.Wf() && Conservative(x, y) && forall m: Valuation :: ModelsAll(m, y.f) ==> ModelsAll(m, x.f)
  }

  lemma GrownTrans(x: Formula, y: Formula)
    requires Grown(x, y)
    ensures forall z: Formula :: Grown(z, x) ==> Grown(z, y)
  {
    forall z: Formula | Grown(z, x) ensures Grown(z, y) {
      ConservativeTrans(z, x, y);
    }
  }

  lemma GrownRefl(x: Formula)
    requires x.Wf()
    ensures Grown(x, x)
  {
    ConservativeRefl(x);
  }

  lemma GateGrown(x: Formula, defs: set<seq<Lit>>, value: Valuation -> bool)
    requires x.Wf()
    requires forall c, l :: c in defs && l in c ==> l.v <= x.n
    requires forall m: Valuation :: ModelsAll(With(m, x.n, value(m)), defs)
    ensures Grown(x, Formula(x.n + 1, x.f + defs))
    ensures forall m: Valuation :: ModelsAll(m, x.f + defs) ==> ModelsAll(m, defs)
  {
    DefinitionConservative(x, defs, value);
  }

  /** A step of a compiler: the formula only grows by definitions, so no model is lost on the
      variables there were, and none is gained. */
  ghost predicate Builds(x: Formula, y: Formula) {
    && x.n <= y.n && y.Wf()
    && (forall m: Valuation :: ModelsAll(m, y.f) ==> ModelsAll(m, x.f))
    && (forall z: Formula :: Grown(z, x) ==> Grown(z, y))
  }

  lemma BuildsConservative(x: Formula, y: Formula)
    requires x.Wf() && Builds(x, y)
    ensures Conservative(x, y)
  {
    GrownRefl(x);
    assert Grown(x, y);
  }

  method GateAnd(a: Lit, b: Lit, solver: Sink) returns (p: Lit)
    requires solver.State().Wf() && a.v < solver.numVars && b.v < solver.numVars
    modifies solver
    ensures Builds(old(solver.State()), solver.State()) && p.v < solver.numVars
    ensures forall m: Valuation :: ModelsAll(m, solver.clauses) ==> (Holds(m, p) <==> (Holds(m, a) && Holds(m, b)))
  {
    ghost var x := solver.State();
    var v := solver.NewVar();
    p := Lit(v, false);
    solver.AddClause([p.Not(), a]);
    solver.AddClause([p.Not(), b]);
    solver.AddClause([p, a.Not(), b.Not()]);
    ghost var defs := AndClauses(p, a, b);
    assert solver.clauses == x.f + defs;
    forall m: Valuation ensures ModelsAll(With(m, v, (Holds(m, a) && Holds(m, b))), defs) {
      AndMeaning(With(m, v, (Holds(m, a) && Holds(m, b))), p, a, b);
    }
    GateGrown(x, defs, m => (Holds(m, a) && Holds(m, b)));
    GrownTrans(x, solver.State());
    forall m: Valuation | ModelsAll(m, solver.clauses) ensures Holds(m, p) <==> (Holds(m, a) && Holds(m, b)) {
      AndMeaning(m, p, a, b);
    }
  }

  method GateOr(a: Lit, b: Lit, solver: Sink) returns (p: Lit)
    requires solver.State().Wf() && a.v < solver.numVars && b.v < solver.numVars
    modifies solver
    ensures Builds(old(solver.State()), solver.State()) && p.v < solver.numVars
    ensures forall m: Valuation :: ModelsAll(m, solver.clauses) ==> (Holds(m, p) <==> (Holds(m, a) || Holds(m, b)))
  {
    ghost var x := solver.State();
    var v := solver.NewVar();
    p := Lit(v, false);
    solver.AddClause([a.Not(), p]);
    solver.AddClause([b.Not(), p]);
    solver.AddClause([p.Not(), a, b]);
    ghost var defs := OrClauses(p, a, b);
    assert solver.clauses == x.f + defs;
    forall m: Valuation ensures ModelsAll(With(m, v, (Holds(m, a) || Holds(m, b))), defs) {
      OrMeaning(With(m, v, (Holds(m, a) || Holds(m, b))), p, a, b);
    }
    GateGrown(x, defs, m => (Holds(m, a) || Holds(m, b)));
    GrownTrans(x, solver.State());
    forall m: Valuation | ModelsAll(m, solver.clauses) ensures Holds(m, p) <==> (Holds(m, a) || Holds(m, b)) {
      OrMeaning(m, p, a, b);
    }
  }

  method GateXor(a: Lit, b: Lit, solver: Sink) returns (p: Lit)
    requires solver.State().Wf() && a.v < solver.numVars && b.v < solver.numVars
    modifies solver
    ensures Builds(old(solver.State()), solver.State()) && p.v < solver.numVars
    ensures forall m: Valuation :: ModelsAll(m, solver.clauses) ==> (Holds(m, p) <==> (Holds(m, a) != Holds(m, b)))
  {
    ghost var x := solver.State();
    var v := solver.NewVar();
    p := Lit(v, false);
    solver.AddClause([p.Not(), a, b]);
    solver.AddClause([p.Not(), a.Not(), b.Not()]);
    solver.AddClause([p, a.Not(), b]);
    solver.AddClause([p, a, b.Not()]);
    ghost var defs := XorClauses(p, a, b);
    assert solver.clauses == x.f + defs;
    forall m: Valuation ensures ModelsAll(With(m, v, (Holds(m, a) != Holds(m, b))), defs) {
      XorMeaning(With(m, v, (Holds(m, a) != Holds(m, b))), p, a, b);
    }
    GateGrown(x, defs, m => (Holds(m, a) != Holds(m, b)));
    GrownTrans(x, solver.State());
    forall m: Valuation | ModelsAll(m, solver.clauses) ensures Holds(m, p) <==> (Holds(m, a) != Holds(m, b)) {
      XorMeaning(m, p, a, b);
    }
  }

  method GateIte(c: Lit, t: Lit, e: Lit, solver: Sink) returns (p: Lit)
    requires solver.State().Wf() && c.v < solver.numVars && t.v < solver.numVars && e.v < solver.numVars
    modifies solver
    ensures Builds(old(solver.State()), solver.State()) && p.v < solver.numVars
    ensures forall m: Valuation :: ModelsAll(m, solver.clauses) ==> (Holds(m, p) <==> (if Holds(m, c) then Holds(m, t) else Holds(m, e)))
  {
    ghost var x := solver.State();
    var v := solver.NewVar();
    p := Lit(v, false);
    solver.AddClause([c.Not(), t.Not(), p]);
    solver.AddClause([c.Not(), t, p.Not()]);
    solver.AddClause([c, e.Not(), p]);
    solver.AddClause([c, e, p.Not()]);
    ghost var defs := IteClauses(p, c, t, e);
    assert solver.clauses == x.f + defs;
    forall m: Valuation ensures ModelsAll(With(m, v, (if Holds(m, c) then Holds(m, t) else Holds(m, e))), defs) {
      IteMeaning(With(m, v, (if Holds(m, c) then Holds(m, t) else Holds(m, e))), p, c, t, e);
    }
    GateGrown(x, defs, m => (if Holds(m, c) then Holds(m, t) else Holds(m, e)));
    GrownTrans(x, solver.State());
    forall m: Valuation | ModelsAll(m, solver.clauses) ensures Holds(m, p) <==> (if Holds(m, c) then Holds(m, t) else Holds(m, e)) {
      IteMeaning(m, p, c, t, e);
    }
  }
}
