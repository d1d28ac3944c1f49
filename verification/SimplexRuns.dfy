/** Whole runs of the simplex solver: what a conflict says about the literals asserted, and inputs on
    which the answers are wrong outside the conditions of the results. */
module SimplexRuns {
  import opened Lits
  import opened LinearRows
  import opened Tableaux
  import opened SimplexTheory

  // ---------- literals and bounds ----------

  /** The literal is true when the terms have these values. */
  ghost predicate AtomHolds(atom: Atom, rho: nat -> real) {
    Compares(atom.op, rho(atom.lhs), match atom.rhs case Const(val) => val case TermOf(t) => rho(t)) != atom.lit.neg
  }

  /** The variables have the values of their terms, and the rows hold. */
  ghost predicate Realizes(s: Tab, rho: nat -> real, v: seq<real>)
    requires TabOk(s)
  {
    |v| == |s.terms| && Solves(s.rows, s.basic, v) && forall t :: t in s.vars ==> v[s.vars[t]] == rho(t)
  }

  /** The bound carries a literal of the list, and holds when that literal is true. */
  ghost predicate FromAtom(atoms: seq<Atom>, rho: nat -> real, b: Bound, holds: bool) {
    exists k :: 0 <= k < |atoms| && b.reason == Some(atoms[k].lit) && (AtomHolds(atoms[k], rho) ==> holds)
  }

  ghost predicate BoundsExplained(s: Tab, atoms: seq<Atom>, rho: nat -> real, v: seq<real>, x: nat)
    requires TabOk(s) && |v| == |s.terms| && x < |v|
  {
    && (s.lower[x].Some? ==> FromAtom(atoms, rho, s.lower[x].value, Above(s.lower[x], v[x])))
    && (s.upper[x].Some? ==> FromAtom(atoms, rho, s.upper[x].value, Below(s.upper[x], v[x])))
  }

  ghost predicate Realizable(s: Tab, rho: nat -> real)
    requires TabOk(s)
  {
    exists v: seq<real> :: Realizes(s, rho, v)
  }

  /** Any values of the terms extend to the variables, and every bound comes from an asserted literal. */
  ghost predicate Explained(s: Tab, atoms: seq<Atom>) {
    && TabOk(s)
    && (forall rho: nat -> real :: Realizable(s, rho))
    && (forall rho: nat -> real, v: seq<real> :: Realizes(s, rho, v) ==>
         forall x :: 0 <= x < |v| ==> BoundsExplained(s, atoms, rho, v, x))
  }

  lemma {:induction false} FromMoreAtoms(atoms: seq<Atom>, atom: Atom, rho: nat -> real, b: Bound, holds: bool)
    requires FromAtom(atoms, rho, b, holds)
    ensures FromAtom(atoms + [atom], rho, b, holds)
  {
    var k :| 0 <= k < |atoms| && b.reason == Some(atoms[k].lit) && (AtomHolds(atoms[k], rho) ==> holds);
    assert (atoms + [atom])[k] == atoms[k];
  }

  lemma ExplainedByMore(s: Tab, atoms: seq<Atom>, atom: Atom)
    requires Explained(s, atoms)
    ensures Explained(s, atoms + [atom])
  {
    hide TabOk, Solves, FromAtom;
    assert TabOk(s);
    forall rho: nat -> real, v: seq<real>, x: nat | Realizes(s, rho, v) && x < |v|
      ensures TabSizes(s) && BoundsExplained(s, atoms + [atom], rho, v, x)
    {
      SizesOf(s);
      assert BoundsExplained(s, atoms, rho, v, x);
      if s.lower[x].Some? { FromMoreAtoms(atoms, atom, rho, s.lower[x].value, Above(s.lower[x], v[x])); }
      if s.upper[x].Some? { FromMoreAtoms(atoms, atom, rho, s.upper[x].value, Below(s.upper[x], v[x])); }
    }
  }

  ghost predicate TabSizes(s: Tab) { |s.terms| == |s.basic| == |s.rows| == |s.a| == |s.lower| == |s.upper| }

  lemma SizesOf(s: Tab)
    requires TabOk(s)
    ensures TabSizes(s) && Square(s.rows, s.basic)
  {
  }

  // ---------- more variables ----------

  /** What one more variable means: the rows of before, and its own. */
  lemma AddedVar(s: Tab, term: nat, b: bool, row: seq<real>)
    requires TabOk(s) && |row| == |s.terms|
    ensures
      var w := AddVar(s, term, b, row);
      && TabSizes(w) && Square(w.rows, w.basic) && w.vars == s.vars
      && (forall v: seq<real> :: |v| == |w.terms| ==>
           (Solves(w.rows, w.basic, v) <==> Solves(s.rows, s.basic, v[..|s.terms|]) && (b ==> v[|s.terms|] == Dot(row, v[..|s.terms|]))))
  {
    hide WithRow, Solves, Dot;
    FreshVariable(s.rows, s.basic, row, b);
    WithRowAt(s.rows, s.basic, row);
  }

  lemma SlackExplained(s: Tab, row: seq<real>, atoms: seq<Atom>)
    requires Explained(s, atoms) && |row| == |s.terms|
    ensures TabOk(AddVar(s, 0, true, row)) && Explained(AddVar(s, 0, true, row), atoms)
  {
    hide WithRow, Solves, Dot, FromAtom;
    var w := AddVar(s, 0, true, row);
    AddedVar(s, 0, true, row);
    var n := |s.terms|;
    forall rho: nat -> real ensures Realizable(w, rho) {
      assert Realizable(s, rho);
      var v: seq<real> :| Realizes(s, rho, v);
      var u := v + [Dot(row, v)];
      assert u[..n] == v;
      assert Realizes(w, rho, u);
    }
    forall rho: nat -> real, u: seq<real>, x: nat | Realizes(w, rho, u) && x < |u| ensures BoundsExplained(w, atoms, rho, u, x) {
      assert Realizes(s, rho, u[..n]);
      if x < n { assert BoundsExplained(s, atoms, rho, u[..n], x); }
    }
  }

  lemma TermExplained(s: Tab, term: nat, atoms: seq<Atom>)
    requires Explained(s, atoms)
    ensures TabOk(WithTerm(s, term)) && Explained(WithTerm(s, term), atoms)
  {
    WithTermOk(s, term);
    if term !in s.vars { NewTermExplained(s, term, atoms); }
  }

  lemma NewTermExplained(s: Tab, term: nat, atoms: seq<Atom>)
    requires Explained(s, atoms) && term !in s.vars && TabOk(WithTerm(s, term))
    ensures Explained(WithTerm(s, term), atoms)
  {
    hide WithRow, Solves, Dot, FromAtom, Zeros;
    var n, row := |s.terms|, Zeros(|s.terms|);
    ZerosSize(n);
    var w := WithTerm(s, term);
    assert w == AddVar(s, term, false, row).(vars := s.vars[term := n]);
    AddedVar(s, term, false, row);
    forall rho: nat -> real ensures Realizable(w, rho) {
      assert Realizable(s, rho);
      var v: seq<real> :| Realizes(s, rho, v);
      var u := v + [rho(term)];
      assert u[..n] == v;
      assert Realizes(w, rho, u);
    }
    forall rho: nat -> real, u: seq<real>, x: nat | Realizes(w, rho, u) && x < |u| ensures BoundsExplained(w, atoms, rho, u, x) {
      forall t | t in s.vars ensures u[..n][s.vars[t]] == rho(t) { assert t in w.vars && w.vars[t] == s.vars[t]; }
      assert Realizes(s, rho, u[..n]);
      if x < n { assert BoundsExplained(s, atoms, rho, u[..n], x); }
    }
  }

  lemma ZerosSize(n: nat)
    ensures |Zeros(n)| == n
  {
  }

  // ---------- one more bound ----------

  lemma BoundExplained(s: Tab, x: nat, at: AtomBound, atom: Atom, atoms: seq<Atom>)
    requires Explained(s, atoms) && x < |s.terms|
    requires forall rho: nat -> real, v: seq<real> :: Realizes(s, rho, v) && AtomHolds(atom, rho) ==> Within(at, v[x])
    ensures x < |s.lower| && x < |s.upper| && TabOk(WithBound(s, x, at, atom.lit)) && Explained(WithBound(s, x, at, atom.lit), atoms + [atom])
  {
    hide Solves, FromAtom, AtomHolds;
    var w := WithBound(s, x, at, atom.lit);
    ExplainedByMore(s, atoms, atom);
    forall rho: nat -> real ensures Realizable(w, rho) {
      assert Realizable(s, rho);
      var v: seq<real> :| Realizes(s, rho, v);
      assert Realizes(w, rho, v);
    }
    forall rho: nat -> real, v: seq<real>, y: nat | Realizes(w, rho, v) && y < |v| ensures BoundsExplained(w, atoms + [atom], rho, v, y) {
      assert Realizes(s, rho, v);
      assert BoundsExplained(s, atoms + [atom], rho, v, y);
      if y == x { FromNewAtom(atoms, atom, rho, at, v[x]); }
    }
  }

  lemma FromNewAtom(atoms: seq<Atom>, atom: Atom, rho: nat -> real, at: AtomBound, y: real)
    requires AtomHolds(atom, rho) ==> Within(at, y)
    ensures FromAtom(atoms + [atom], rho, Bound(at.value, Some(atom.lit)), Within(at, y))
  {
    assert (atoms + [atom])[|atoms|] == atom;
  }

  // ---------- one more literal ----------

  /** The literal compares a term with a constant or with another term. */
  ghost predicate Proper(atom: Atom) { atom.rhs.TermOf? ==> atom.rhs.t != atom.lhs }

  lemma ConstantExplained(s: Tab, atom: Atom, atoms: seq<Atom>)
    requires Explained(s, atoms) && atom.rhs.Const?
    ensures Explained(Asserted(s, atom), atoms + [atom])
  {
    hide Explained, Realizes, TabOk, WithTerm, WithBound, Compares, BoundOf;
    ExplainedOk(s, atoms);
    WithTermsOk(s, atom);
    var u := WithTerm(s, atom.lhs);
    TermExplained(s, atom.lhs, atoms);
    ExplainedOk(u, atoms);
    var x, at := u.vars[atom.lhs], BoundOf(atom.op, atom.lit.neg, atom.rhs.val);
    VarInside(u, atom.lhs);
    forall rho: nat -> real, v: seq<real> | Realizes(u, rho, v) && AtomHolds(atom, rho) ensures x < |v| && Within(at, v[x]) {
      RealizedValue(u, rho, v, atom.lhs);
      BoundMeaning(atom.op, atom.lit.neg, atom.rhs.val, v[x]);
    }
    BoundExplained(u, x, at, atom, atoms);
  }

  lemma ExplainedOk(s: Tab, atoms: seq<Atom>)
    requires Explained(s, atoms)
    ensures TabOk(s) && TabSizes(s)
  {
  }

  lemma VarInside(s: Tab, t: nat)
    requires TabOk(s) && t in s.vars
    ensures TabSizes(s) && s.vars[t] < |s.terms| && s.terms[s.vars[t]] == t
  {
  }

  lemma RealizedValue(s: Tab, rho: nat -> real, v: seq<real>, t: nat)
    requires TabOk(s) && Realizes(s, rho, v) && t in s.vars
    ensures s.vars[t] < |v| == |s.terms| && v[s.vars[t]] == rho(t)
  {
  }

  lemma PairExplained(s: Tab, atom: Atom, atoms: seq<Atom>)
    requires Explained(s, atoms) && atom.rhs.TermOf? && Proper(atom)
    ensures Explained(Asserted(s, atom), atoms + [atom])
  {
    hide Explained, Realizes, TabOk, WithTerm, WithBound, Compares, BoundOf, AddVar, DiffRow;
    ExplainedOk(s, atoms);
    PairState(s, atom);
    TermExplained(s, atom.lhs, atoms);
    var u := WithTerm(WithTerm(s, atom.lhs), atom.rhs.t);
    TermExplained(WithTerm(s, atom.lhs), atom.rhs.t, atoms);
    var n, l, r := |u.terms|, u.vars[atom.lhs], u.vars[atom.rhs.t];
    VarInside(u, atom.lhs);
    VarInside(u, atom.rhs.t);
    var row, at := DiffRow(n, l, r), BoundOf(atom.op, atom.lit.neg, 0.0);
    DiffRowEntries(n, l, r);
    DiffRowMeaning(n, l, r);
    var w := AddVar(u, 0, true, row);
    SlackExplained(u, row, atoms);
    SlackShape(u, row);
    forall rho: nat -> real, v: seq<real> | Realizes(w, rho, v) && AtomHolds(atom, rho) ensures n < |v| && Within(at, v[n]) {
      SlackValue(u, row, rho, v);
      RealizedValue(u, rho, v[..n], atom.lhs);
      RealizedValue(u, rho, v[..n], atom.rhs.t);
      BoundMeaning(atom.op, atom.lit.neg, 0.0, v[n]);
      CompareDifference(atom.op, rho(atom.lhs), rho(atom.rhs.t));
    }
    BoundExplained(w, n, at, atom, atoms);
  }

  lemma SlackShape(u: Tab, row: seq<real>)
    requires TabOk(u) && |row| == |u.terms|
    ensures |AddVar(u, 0, true, row).terms| == |u.terms| + 1
  {
  }

  lemma SlackValue(u: Tab, row: seq<real>, rho: nat -> real, v: seq<real>)
    requires TabOk(u) && |row| == |u.terms| && TabOk(AddVar(u, 0, true, row)) && Realizes(AddVar(u, 0, true, row), rho, v)
    ensures |v| == |u.terms| + 1 && Realizes(u, rho, v[..|u.terms|]) && v[|u.terms|] == Dot(row, v[..|u.terms|])
  {
    hide Solves, Dot, WithRow;
    AddedVar(u, 0, true, row);
  }

  lemma AssertedExplained(s: Tab, atom: Atom, atoms: seq<Atom>)
    requires Explained(s, atoms) && Proper(atom)
    ensures Explained(Asserted(s, atom), atoms + [atom])
  {
    hide Explained, Asserted, TabOk;
    if atom.rhs.Const? { ConstantExplained(s, atom, atoms); } else { PairExplained(s, atom, atoms); }
  }

  // ---------- a run ----------

  ghost predicate NoBasicTerms(s: Tab)
    requires TabOk(s)
  {
    forall t :: !BasicTerm(s, t)
  }

  /** Only slack variables become basic by asserting. */
  lemma AssertedTerms(s: Tab, atom: Atom)
    requires TabOk(s) && NoBasicTerms(s)
    ensures TabOk(Asserted(s, atom)) && NoBasicTerms(Asserted(s, atom))
  {
    hide WithTerm, WithBound, AddVar, DiffRow, BoundOf;
    WithTermsOk(s, atom);
    WithTermForm(s, atom.lhs);
    match atom.rhs
    case Const(val) =>
      var u := WithTerm(s, atom.lhs);
      VarInside(u, atom.lhs);
      BoundKeepsShape(u, u.vars[atom.lhs], BoundOf(atom.op, atom.lit.neg, val), atom.lit);
    case TermOf(t) =>
      var u1 := WithTerm(s, atom.lhs);
      var u := WithTerm(u1, t);
      WithTermForm(u1, t);
      PairState(s, atom);
      VarInside(u, atom.lhs);
      VarInside(u, t);
      DiffRowEntries(|u.terms|, u.vars[atom.lhs], u.vars[t]);
      var row := DiffRow(|u.terms|, u.vars[atom.lhs], u.vars[t]);
      SlackTerms(u, row);
      BoundKeepsShape(AddVar(u, 0, true, row), |u.terms|, BoundOf(atom.op, atom.lit.neg, 0.0), atom.lit);
  }

  lemma BoundKeepsShape(s: Tab, x: nat, at: AtomBound, lit: Lit)
    requires TabOk(s) && x < |s.terms|
    ensures TabSizes(s) && TabOk(WithBound(s, x, at, lit))
    ensures forall t :: BasicTerm(WithBound(s, x, at, lit), t) <==> BasicTerm(s, t)
  {
  }

  lemma SlackTerms(u: Tab, row: seq<real>)
    requires TabOk(u) && |row| == |u.terms| && NoBasicTerms(u)
    ensures TabOk(AddVar(u, 0, true, row)) && NoBasicTerms(AddVar(u, 0, true, row))
    ensures |AddVar(u, 0, true, row).terms| == |u.terms| + 1
  {
    hide WithRow;
    var w := AddVar(u, 0, true, row);
    AddedVar(u, 0, true, row);
    assert TabOk(w);
    forall t ensures !BasicTerm(w, t) { assert !BasicTerm(u, t); }
  }

  /** The clause is made of negated asserted literals, and whatever the terms are one of those literals
      is false. */
  ghost predicate ValidConflict(atoms: seq<Atom>, conflict: seq<Lit>) {
    && (forall l :: l in conflict ==> exists k :: 0 <= k < |atoms| && atoms[k].lit == l.Not())
    && (forall rho: nat -> real :: SomeNamedFalse(atoms, conflict, rho))
  }

  ghost predicate SomeNamedFalse(atoms: seq<Atom>, conflict: seq<Lit>, rho: nat -> real) {
    exists k :: 0 <= k < |atoms| && atoms[k].lit.Not() in conflict && !AtomHolds(atoms[k], rho)
  }

  lemma ConflictNamed(s: Tab, atoms: seq<Atom>, conflict: seq<Lit>, l: Lit)
    requires Explained(s, atoms) && TabSizes(s) && FromBounds(s.lower, s.upper, conflict) && l in conflict
    ensures exists k :: 0 <= k < |atoms| && atoms[k].lit == l.Not()
  {
    hide Solves;
    var rho := (t: nat) => 0.0;
    assert Realizable(s, rho);
    var v: seq<real> :| Realizes(s, rho, v);
    var i :| 0 <= i < |s.lower| &&
      ((s.lower[i].Some? && s.lower[i].value.reason == Some(l.Not())) || (s.upper[i].Some? && s.upper[i].value.reason == Some(l.Not())));
    assert BoundsExplained(s, atoms, rho, v, i);
  }

  lemma ConflictRefutes(s: Tab, atoms: seq<Atom>, conflict: seq<Lit>, rho: nat -> real)
    requires Explained(s, atoms) && TabSizes(s) && Refutes(s.rows, s.basic, s.lower, s.upper, conflict)
    ensures SomeNamedFalse(atoms, conflict, rho)
  {
    hide Solves, AtomHolds;
    assert Realizable(s, rho);
    var v: seq<real> :| Realizes(s, rho, v);
    var i: nat :| Violates(s.lower, s.upper, conflict, v, i);
    assert BoundsExplained(s, atoms, rho, v, i);
    if Named(s.lower[i], conflict) && !Above(s.lower[i], v[i]) {
      var k :| 0 <= k < |atoms| && s.lower[i].value.reason == Some(atoms[k].lit) && !AtomHolds(atoms[k], rho);
    } else {
      var k :| 0 <= k < |atoms| && s.upper[i].value.reason == Some(atoms[k].lit) && !AtomHolds(atoms[k], rho);
    }
  }

  lemma ConflictValid(s: Tab, atoms: seq<Atom>, conflict: seq<Lit>)
    requires Explained(s, atoms) && TabSizes(s) && Refutes(s.rows, s.basic, s.lower, s.upper, conflict)
    requires FromBounds(s.lower, s.upper, conflict)
    ensures ValidConflict(atoms, conflict)
  {
    hide Explained, Refutes, FromBounds, SomeNamedFalse;
    forall l | l in conflict ensures exists k :: 0 <= k < |atoms| && atoms[k].lit == l.Not() {
      ConflictNamed(s, atoms, conflict, l);
    }
    forall rho: nat -> real ensures SomeNamedFalse(atoms, conflict, rho) { ConflictRefutes(s, atoms, conflict, rho); }
  }

  ghost predicate AllProper(atoms: seq<Atom>) { forall k :: 0 <= k < |atoms| ==> Proper(atoms[k]) }

  lemma StartExplained()
    ensures Explained(Tab(map[], [], [], [], [], [], []), [])
  {
    var s := Tab(map[], [], [], [], [], [], []);
    forall rho: nat -> real ensures Realizable(s, rho) { assert Realizes(s, rho, []); }
  }

  /** Asserts the literals on a new solver and solves. When no literal compares a term with itself, a
      conflict names asserted literals only, and no real values of the terms make all it names true. */
  method AssertAndSolve(atoms: seq<Atom>) returns (res: Outcome)
    ensures res.Err? && AllProper(atoms) ==> ValidConflict(atoms, res.conflict)
  {
    hide Explained, Asserted, FormOk, Proper, ValidConflict, Refutes, FromBounds, NoBasicTerms, TabOk, SameSolutions, Consistent,
      SimplexSolver.Shape, SimplexSolver.Valid, SimplexSolver.Models;
    var solver := new SimplexSolver();
    StartExplained();
    NothingBasic();
    solver.ShapeFacts();
    for k := 0 to |atoms|
      invariant fresh(solver) && solver.Valid() && TabOk(solver.State()) && FormOk(solver.tableau, solver.isBasic)
      invariant NoBasicTerms(solver.State())
      invariant AllProper(atoms[..k]) ==> Explained(solver.State(), atoms[..k])
    {
      ghost var s := solver.State();
      var a := atoms[k];
      assert atoms[..k + 1] == atoms[..k] + [a];
      assert AllProper(atoms[..k + 1]) ==> AllProper(atoms[..k]) && Proper(a) by { ProperPrefix(atoms, k); }
      AssertedTerms(s, a);
      FreeTerms(s, a);
      if AllProper(atoms[..k + 1]) { AssertedExplained(s, a, atoms[..k]); }
      solver.AssertTerm(a.lit, a.op, a.lhs, a.rhs);
      solver.ShapeFacts();
    }
    assert atoms[..|atoms|] == atoms;
    solver.ShapeFacts();
    ghost var s := solver.State();
    SizesOf(s);
    ghost var pivots;
    res, pivots := solver.SolveSimplex();
    if res.Err? && AllProper(atoms) { ConflictValid(s, atoms, res.conflict); }
  }

  lemma NothingBasic()
    ensures TabOk(Tab(map[], [], [], [], [], [], [])) && NoBasicTerms(Tab(map[], [], [], [], [], [], []))
  {
  }

  lemma ProperPrefix(atoms: seq<Atom>, k: nat)
    requires k < |atoms|
    ensures AllProper(atoms[..k + 1]) ==> AllProper(atoms[..k]) && Proper(atoms[k])
  {
    if AllProper(atoms[..k + 1]) {
      assert atoms[..k + 1][k] == atoms[k];
      forall j | 0 <= j < k ensures Proper(atoms[..k][j]) { assert atoms[..k + 1][j] == atoms[..k][j]; }
    }
  }

  lemma FreeTerms(s: Tab, atom: Atom)
    requires TabOk(s) && NoBasicTerms(s)
    ensures !BasicTerm(s, atom.lhs) && (atom.rhs.TermOf? ==> !BasicTerm(s, atom.rhs.t))
  {
  }
}
