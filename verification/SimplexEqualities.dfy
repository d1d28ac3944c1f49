/** Equalities that the solver sees once a term is bounded by another from both sides. */
module SimplexEqualities {
  import opened Lits
  import opened LinearRows
  import opened Tableaux
  import opened SimplexTheory
  import opened SimplexRuns

  // ---------- rows stay what they are ----------

  lemma SaysAdded(s: Tab, term: nat, b: bool, row: seq<real>, r: nat, i: nat, j: nat)
    requires TabOk(s) && |row| == |s.terms| && i < |s.rows| && j < |s.rows| && SaysAtMost(s, r, i, j)
    ensures TabOk(AddVar(s, term, b, row)) && SaysAtMost(AddVar(s, term, b, row), r, i, j)
  {
    WithRowAt(s.rows, s.basic, row);
    var u := AddVar(s, term, b, row);
    assert u.rows[r] == s.rows[r] + [0.0];
  }

  lemma SaysWithTerm(s: Tab, term: nat, r: nat, i: nat, j: nat)
    requires TabOk(s) && i < |s.rows| && j < |s.rows| && SaysAtMost(s, r, i, j)
    ensures TabOk(WithTerm(s, term)) && |s.terms| <= |WithTerm(s, term).terms| && SaysAtMost(WithTerm(s, term), r, i, j)
  {
    hide AddVar;
    WithTermOk(s, term);
    if term !in s.vars { SaysAdded(s, term, false, Zeros(|s.terms|), r, i, j); AddedShape(s, term); }
  }

  lemma AddedShape(s: Tab, term: nat)
    ensures var u := AddVar(s, term, false, Zeros(|s.terms|)); u.terms == s.terms + [term] && u.vars == s.vars
  {
  }

  /** Bounds only get tighter. */
  lemma SaysBounded(s: Tab, x: nat, at: AtomBound, lit: Lit, r: nat, i: nat, j: nat)
    requires TabOk(s) && x < |s.rows| && i < |s.rows| && j < |s.rows| && SaysAtMost(s, r, i, j)
    ensures TabOk(WithBound(s, x, at, lit)) && SaysAtMost(WithBound(s, x, at, lit), r, i, j)
  {
    hide OnlyTwo;
  }

  /** A further literal leaves the row and the variables of terms. */
  lemma SaysAsserted(s: Tab, atom: Atom, t: nat, t': nat, r: nat)
    requires TabOk(s) && SaysTerms(s, r, t, t')
    ensures TabOk(Asserted(s, atom)) && SaysTerms(Asserted(s, atom), r, t, t')
  {
    hide OnlyTwo, AddVar, WithTerm, WithBound, DiffRow;
    TermKept(s, atom.lhs, t, t', r);
    WithTermsOk(s, atom);
    match atom.rhs
    case Const(_) =>
      var u := WithTerm(s, atom.lhs);
      BoundKeeps(u, u.vars[atom.lhs], BoundOf(atom.op, atom.lit.neg, atom.rhs.val), atom.lit, t, t', r);
    case TermOf(q) =>
      TermKept(WithTerm(s, atom.lhs), q, t, t', r);
      var u := WithTerms(s, atom);
      SlackKeeps(u, u.vars[atom.lhs], u.vars[q], t, t', r);
      var w := AddVar(u, 0, true, DiffRow(|u.terms|, u.vars[atom.lhs], u.vars[q]));
      BoundKeeps(w, |u.terms|, BoundOf(atom.op, atom.lit.neg, 0.0), atom.lit, t, t', r);
  }

  /** Row `r` says that the first term is at most the second. */
  ghost predicate SaysTerms(s: Tab, r: nat, t: nat, t': nat)
    requires TabOk(s)
  {
    && t in s.vars && t' in s.vars && s.vars[t] < |s.rows| && s.vars[t'] < |s.rows|
    && SaysAtMost(s, r, s.vars[t], s.vars[t'])
  }

  lemma TermKept(s: Tab, term: nat, t: nat, t': nat, r: nat)
    requires TabOk(s) && SaysTerms(s, r, t, t')
    ensures TabOk(WithTerm(s, term)) && SaysTerms(WithTerm(s, term), r, t, t')
  {
    hide OnlyTwo, WithTerm, SaysAtMost;
    WithTermOk(s, term);
    SaysWithTerm(s, term, r, s.vars[t], s.vars[t']);
  }

  lemma SlackKeeps(u: Tab, x: nat, y: nat, t: nat, t': nat, r: nat)
    requires TabOk(u) && x < |u.terms| && y < |u.terms| && SaysTerms(u, r, t, t')
    ensures var w := AddVar(u, 0, true, DiffRow(|u.terms|, x, y));
      TabOk(w) && |w.rows| == |u.terms| + 1 && SaysTerms(w, r, t, t')
  {
    hide OnlyTwo, SaysAtMost;
    SaysAdded(u, 0, true, DiffRow(|u.terms|, x, y), r, u.vars[t], u.vars[t']);
    WithRowAt(u.rows, u.basic, DiffRow(|u.terms|, x, y));
  }

  lemma BoundKeeps(u: Tab, x: nat, at: AtomBound, lit: Lit, t: nat, t': nat, r: nat)
    requires TabOk(u) && x < |u.rows| && SaysTerms(u, r, t, t')
    ensures TabOk(WithBound(u, x, at, lit)) && SaysTerms(WithBound(u, x, at, lit), r, t, t')
  {
    SaysBounded(u, x, at, lit, r, u.vars[t], u.vars[t']);
  }

  // ---------- the row of a comparison ----------

  /** `lhs <= rhs` adds a row that says so. */
  lemma ComparisonSays(s: Tab, lit: Lit, lhs: nat, rhs: nat) returns (r: nat)
    requires TabOk(s) && !lit.neg && lhs != rhs
    ensures var u := Asserted(s, Atom(lit, Le, lhs, TermOf(rhs)));
      && TabOk(u) && lhs in u.vars && rhs in u.vars && u.vars[lhs] < |u.rows| && u.vars[rhs] < |u.rows|
      && SaysAtMost(u, r, u.vars[lhs], u.vars[rhs])
  {
    var atom := Atom(lit, Le, lhs, TermOf(rhs));
    var u := WithTerms(s, atom);
    r := |u.terms|;
    PairState(s, atom);
    WithTermsOk(s, atom);
    var x, y := u.vars[lhs], u.vars[rhs];
    assert x != y;
    RowSays(u, x, y, lit);
  }

  lemma RowSays(u: Tab, x: nat, y: nat, lit: Lit)
    requires TabOk(u) && x < |u.rows| && y < |u.rows| && x != y
    ensures var n := |u.terms|;
      var w := WithBound(AddVar(u, 0, true, DiffRow(n, x, y)), n, UpperAt(ZERO), lit);
      TabOk(w) && |w.rows| == n + 1 && w.vars == u.vars && SaysAtMost(w, n, x, y)
  {
    var n := |u.terms|;
    WithRowAt(u.rows, u.basic, DiffRow(n, x, y));
  }

  /** `x <= y` and `y <= x` over different terms, whatever was asserted or searched before and whatever
      else is asserted after: the two are found equal. */
  method EqualAfterBoth(s: SimplexSolver, x: nat, y: nat, a: Lit, b: Lit, more: seq<Atom>) returns (yes: bool)
    requires s.Valid() && x != y && !a.neg && !b.neg
    modifies s
    ensures yes && s.Valid() && x in s.termToVar && y in s.termToVar
  {
    hide Asserted, SaysTerms, SaysAtMost, TabOk, Equated, SimplexSolver.Shape, SimplexSolver.Valid, SimplexSolver.Models, FormOk;
    s.ShapeFacts();
    ghost var r := ComparisonTerms(s.State(), a, x, y);
    s.AssertTerm(a, Le, x, TermOf(y));
    ghost var q := ComparisonTerms(s.State(), b, y, x);
    SaysAsserted(s.State(), Atom(b, Le, y, TermOf(x)), x, y, r);
    s.AssertTerm(b, Le, y, TermOf(x));
    for k := 0 to |more|
      invariant s.Valid() && TabOk(s.State()) && SaysTerms(s.State(), r, x, y) && SaysTerms(s.State(), q, y, x)
    {
      SaysAsserted(s.State(), more[k], x, y, r);
      SaysAsserted(s.State(), more[k], y, x, q);
      s.AssertTerm(more[k].lit, more[k].op, more[k].lhs, more[k].rhs);
    }
    BothEquate(s.State(), x, y, r, q);
    s.ShapeFacts();
    yes := s.IsEqualEntailed(s.termToVar[x], s.termToVar[y]);
  }

  lemma ComparisonTerms(s: Tab, lit: Lit, lhs: nat, rhs: nat) returns (r: nat)
    requires TabOk(s) && !lit.neg && lhs != rhs
    ensures TabOk(Asserted(s, Atom(lit, Le, lhs, TermOf(rhs)))) && SaysTerms(Asserted(s, Atom(lit, Le, lhs, TermOf(rhs))), r, lhs, rhs)
  {
    hide Asserted, SaysAtMost;
    r := ComparisonSays(s, lit, lhs, rhs);
  }

  lemma BothEquate(s: Tab, x: nat, y: nat, r: nat, q: nat)
    requires TabOk(s) && SaysTerms(s, r, x, y) && SaysTerms(s, q, y, x)
    ensures x in s.vars && y in s.vars && s.vars[x] < |s.rows| && s.vars[y] < |s.rows| && Equated(s, s.vars[x], s.vars[y])
  {
    hide SaysAtMost;
  }
}
