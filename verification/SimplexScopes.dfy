/** Runs that assert, solve, open and close scopes in any order: what their conflicts say about the
    literals in force. */
module SimplexScopes {
  import opened Lits
  import opened LinearRows
  import opened Tableaux
  import opened SimplexTheory
  import opened SimplexRuns

  datatype Action = Assert(atom: Atom) | Solve | OpenScope | CloseScope

  // ---------- the literals in force ----------

  datatype AtomStack = AtomStack(now: seq<Atom>, saved: seq<seq<Atom>>)

  ghost function ActOn(s: AtomStack, act: Action): AtomStack {
    match act
    case Assert(atom) => s.(now := s.now + [atom])
    case Solve => s
    case OpenScope => s.(saved := s.saved + [s.now])
    case CloseScope => if s.saved == [] then s else AtomStack(s.saved[|s.saved| - 1], s.saved[..|s.saved| - 1])
  }

  ghost function AtomsAfter(acts: seq<Action>): AtomStack
    decreases |acts|
  {
    if acts == [] then AtomStack([], []) else ActOn(AtomsAfter(acts[..|acts| - 1]), acts[|acts| - 1])
  }

  /** The literals that the actions leave in force. */
  ghost function InForce(acts: seq<Action>): seq<Atom> { AtomsAfter(acts).now }

  // ---------- the states of a run ----------

  /** The state of the solver and the bounds that the open scopes saw. */
  datatype World = World(tab: Tab, saved: seq<BoundPair>)

  ghost predicate WorldOk(w: World) {
    TabOk(w.tab) && forall i :: 0 <= i < |w.saved| ==> |w.saved[i].lower| == |w.saved[i].upper| <= |w.tab.terms|
  }

  ghost function WithBounds(s: Tab, b: BoundPair): Tab
    requires |b.lower| == |b.upper| <= |s.terms|
  {
    var p := Padded(b, |s.terms|);
    s.(lower := p.lower, upper := p.upper)
  }

  /** One action, with the outcome of a search. */
  ghost predicate Acts(w: World, act: Action, w': World, res: Option<Outcome>)
    requires WorldOk(w)
  {
    match act
    case Assert(atom) => w' == World(Asserted(w.tab, atom), w.saved) && res.None?
    case Solve => w'.saved == w.saved && res.Some? && Solved(w.tab, w'.tab, res.value)
    case OpenScope => w' == World(w.tab, w.saved + [BoundPair(w.tab.lower, w.tab.upper)]) && res.None?
    case CloseScope =>
      && res.None?
      && if w.saved == [] then w' == w
         else w' == World(WithBounds(w.tab, w.saved[|w.saved| - 1]), w.saved[..|w.saved| - 1])
  }

  ghost predicate Trace(acts: seq<Action>, worlds: seq<World>, results: seq<Option<Outcome>>) {
    && |worlds| == |acts| + 1 && |results| == |acts| && worlds[0] == World(Tab(map[], [], [], [], [], [], []), [])
    && (forall k :: 0 <= k < |worlds| ==> WorldOk(worlds[k]))
    && forall k :: 0 <= k < |acts| ==> Acts(worlds[k], acts[k], worlds[k + 1], results[k])
  }

  /** The literal compares no term with itself, and neither of two terms has a basic variable. */
  ghost predicate Clean(s: Tab, atom: Atom)
    requires TabOk(s)
  {
    atom.rhs.TermOf? ==> atom.rhs.t != atom.lhs && !BasicTerm(s, atom.lhs) && !BasicTerm(s, atom.rhs.t)
  }

  // ---------- the search keeps what the rows say ----------

  ghost predicate SameFrame(s: Tab, t: Tab) {
    t.vars == s.vars && t.terms == s.terms && t.lower == s.lower && t.upper == s.upper
  }

  lemma {:induction false} SearchSound(s: Tab, k: nat, after: Tab, res: Outcome)
    requires TabOk(s) && FormOk(s.rows, s.basic) && Consistent(s.rows, s.basic, s.a) && Searches(s, k, after, res)
    ensures TabOk(after) && SameFrame(s, after) && FormOk(after.rows, after.basic)
    ensures SameSolutions(s.rows, s.basic, after.rows, after.basic)
    ensures res.Err? ==> Refutes(s.rows, s.basic, s.lower, s.upper, res.conflict) && FromBounds(s.lower, s.upper, res.conflict)
    decreases k
  {
    hide FormOk, Consistent, SameSolutions, Refutes, FromBounds, HasCandidate, RowClause, Searches, Step, FirstViolated, NoneViolated;
    SameSolutionsRefl(s.rows, s.basic);
    var xi, above := SearchStart(s, k, after, res);
    if k > 0 && !NoneViolated(s) {
      ViolatedFacts(s, xi, above);
      if xj: nat :| HasCandidate(s, xi, above, xj) {
        var yj, next := SearchUnrolled(s, k, xi, above, xj, after, res);
        StepSound(s, xi, yj, next);
        SearchSound(next, k - 1, after, res);
        SameSolutionsTrans(s.rows, s.basic, next.rows, next.basic, after.rows, after.basic);
        if res.Err? { RefutesSame(s.rows, s.basic, next.rows, next.basic, s.lower, s.upper, res.conflict); }
      } else {
        SearchOnlyStuck(s, k, xi, above, after, res);
        StuckSound(s, xi, above);
      }
    }
  }

  /** A search ends here, or has a violated row to look at. */
  lemma SearchStart(s: Tab, k: nat, after: Tab, res: Outcome) returns (xi: nat, above: bool)
    requires TabOk(s) && Searches(s, k, after, res)
    ensures k == 0 || NoneViolated(s) ==> after == s && res.Ok?
    ensures k > 0 && !NoneViolated(s) ==> FirstViolated(s, xi, above)
  {
    hide NoneViolated, Continues, Fits, OverUpper, UnderLower;
    xi, above := 0, false;
    if k > 0 && !NoneViolated(s) {
      xi, above :| FirstViolated(s, xi, above) && Continues(s, k, xi, above, after, res);
    }
  }

  /** A violated row without a candidate. */
  lemma StuckSound(s: Tab, xi: nat, above: bool)
    requires TabOk(s) && FormOk(s.rows, s.basic) && Consistent(s.rows, s.basic, s.a) && FirstViolated(s, xi, above)
    requires forall xj: nat :: !HasCandidate(s, xi, above, xj)
    ensures xi < |s.rows|
    ensures var conflict := RowClause(s.rows[xi], s.lower, s.upper, xi, above, |s.rows|);
      Refutes(s.rows, s.basic, s.lower, s.upper, conflict) && FromBounds(s.lower, s.upper, conflict)
  {
    hide FormOk, Consistent, Refutes, FromBounds, Candidate, Fits, RowClause, Stuck;
    ViolatedFacts(s, xi, above);
    RowClauseFacts(s.rows[xi], s.lower, s.upper, xi, above, |s.rows|);
    forall j | 0 <= j < |s.rows| ensures !Candidate(s.rows[xi], above, s.lower, s.upper, s.a, j) { assert !HasCandidate(s, xi, above, j); }
    StuckIntro(s.rows, s.basic, s.lower, s.upper, s.a, xi, above);
    StuckRefutes(s.rows, s.basic, s.lower, s.upper, s.a, xi, above);
  }

  lemma StepSound(s: Tab, xi: nat, xj: nat, next: Tab)
    requires TabOk(s) && FormOk(s.rows, s.basic) && Consistent(s.rows, s.basic, s.a) && Step(s, xi, xj, next) && s.basic[xi]
    ensures SameFrame(s, next) && FormOk(next.rows, next.basic) && SameSolutions(s.rows, s.basic, next.rows, next.basic)
    ensures Consistent(next.rows, next.basic, next.a)
  {
    hide FormOk, Consistent, SameSolutions, Pivoted, Sweep;
    if FormOk(next.rows, next.basic) { SweepConsistent(next.rows, next.basic, s.a, 0); }
    PivotSound(s.rows, s.basic, xi, xj, next.rows, s.a, next.a);
  }

  lemma SolvedSound(s: Tab, after: Tab, res: Outcome)
    requires TabOk(s) && FormOk(s.rows, s.basic) && Solved(s, after, res)
    ensures TabOk(after) && SameFrame(s, after) && FormOk(after.rows, after.basic)
    ensures SameSolutions(s.rows, s.basic, after.rows, after.basic)
    ensures res.Err? ==> Refutes(s.rows, s.basic, s.lower, s.upper, res.conflict) && FromBounds(s.lower, s.upper, res.conflict)
  {
    hide FormOk, Consistent, SameSolutions, Refutes, FromBounds, Searches, WithReason, Clamped, Sweep, Clash;
    SameSolutionsRefl(s.rows, s.basic);
    if NoClash(s) {
      SweepConsistent(s.rows, s.basic, Clamped(s.basic, s.lower, s.upper, s.a), 0);
      SearchSound(Started(s), MAX_ITERATIONS, after, res);
    } else {
      var i := ClashFirst(s);
      ClashNamed(s.rows, s.basic, s.lower, s.upper, i);
    }
  }

  lemma ClashFirst(s: Tab) returns (i: nat)
    requires TabOk(s) && !NoClash(s)
    ensures FirstClash(s, i)
  {
    hide Clash;
    i := 0;
    while !Clash(s.lower[i], s.upper[i])
      invariant i < |s.lower| && (forall j :: 0 <= j < i ==> !Clash(s.lower[j], s.upper[j]))
      decreases |s.lower| - i
    {
      i := i + 1;
    }
  }

  // ---------- bounds of open scopes ----------

  /** The state with the variables of the literal and, for two terms, their difference. */
  ghost function Grown(s: Tab, atom: Atom): Tab
    requires TabOk(s)
  {
    WithTermsOk(s, atom);
    var u := WithTerms(s, atom);
    if atom.rhs.Const? then u else AddVar(u, 0, true, DiffRow(|u.terms|, u.vars[atom.lhs], u.vars[atom.rhs.t]))
  }

  lemma BoundsOk(s: Tab, b: BoundPair)
    requires TabOk(s) && |b.lower| == |b.upper| <= |s.terms|
    ensures TabOk(WithBounds(s, b))
  {
    PaddedAt(b, |s.terms|);
  }

  /** A new variable has no bounds, whichever bounds the others have. */
  lemma AddVarBounds(s: Tab, term: nat, basic: bool, row: seq<real>, b: BoundPair)
    requires |b.lower| == |b.upper| <= |s.terms|
    ensures |b.lower| <= |AddVar(s, term, basic, row).terms| && AddVar(WithBounds(s, b), term, basic, row) == WithBounds(AddVar(s, term, basic, row), b)
  {
    hide WithRow;
    var n := |s.terms|;
    assert |AddVar(s, term, basic, row).terms| == n + 1;
    assert Padded(b, n + 1) == Wider(Padded(b, n));
  }

  lemma WithTermBounds(s: Tab, term: nat, b: BoundPair)
    requires TabOk(s) && |b.lower| == |b.upper| <= |s.terms|
    ensures |b.lower| <= |WithTerm(s, term).terms| && WithTerm(WithBounds(s, b), term) == WithBounds(WithTerm(s, term), b)
  {
    hide Padded, WithRow;
    if term !in s.vars { AddVarBounds(s, term, false, Zeros(|s.terms|), b); }
  }

  lemma WithTermsBounds(s: Tab, atom: Atom, b: BoundPair)
    requires TabOk(s) && |b.lower| == |b.upper| <= |s.terms|
    ensures |b.lower| <= |WithTerms(s, atom).terms| && WithTerms(WithBounds(s, b), atom) == WithBounds(WithTerms(s, atom), b)
  {
    hide WithTerm, WithBounds;
    WithTermBounds(s, atom.lhs, b);
    if atom.rhs.TermOf? {
      WithTermOk(s, atom.lhs);
      WithTermBounds(WithTerm(s, atom.lhs), atom.rhs.t, b);
    }
  }

  lemma GrownOk(s: Tab, atom: Atom)
    requires TabOk(s)
    ensures TabOk(Grown(s, atom)) && |s.terms| <= |Grown(s, atom).terms|
  {
    hide WithTerms, WithRow, DiffRow;
    WithTermsOk(s, atom);
    var u := WithTerms(s, atom);
    if atom.rhs.TermOf? {
      VarInside(u, atom.lhs);
      VarInside(u, atom.rhs.t);
      var row := DiffRow(|u.terms|, u.vars[atom.lhs], u.vars[atom.rhs.t]);
      DiffRowSize(|u.terms|, u.vars[atom.lhs], u.vars[atom.rhs.t]);
      AddedVar(u, 0, true, row);
    }
  }

  lemma GrownBounds(s: Tab, atom: Atom, b: BoundPair)
    requires TabOk(s) && |b.lower| == |b.upper| <= |s.terms|
    ensures TabOk(WithBounds(s, b)) && |b.lower| <= |Grown(s, atom).terms|
    ensures Grown(WithBounds(s, b), atom) == WithBounds(Grown(s, atom), b)
  {
    hide WithTerms, AddVar, DiffRow, Padded;
    BoundsOk(s, b);
    WithTermsOk(s, atom);
    WithTermsBounds(s, atom, b);
    var u := WithTerms(s, atom);
    if atom.rhs.TermOf? { AddVarBounds(u, 0, true, DiffRow(|u.terms|, u.vars[atom.lhs], u.vars[atom.rhs.t]), b); }
  }

  /** What a literal adds is one bound. */
  lemma AssertedBounds(s: Tab, atom: Atom, b: BoundPair)
    requires TabOk(s) && |b.lower| == |b.upper| <= |s.terms|
    ensures TabOk(Asserted(s, atom)) && |b.lower| <= |Asserted(s, atom).terms| == |Grown(s, atom).terms|
    ensures WithBounds(Asserted(s, atom), b) == WithBounds(Grown(s, atom), b)
  {
    hide WithTerms, WithRow, DiffRow, Padded, BoundOf, AddVar;
    WithTermsOk(s, atom);
    GrownOk(s, atom);
    var u, w := WithTerms(s, atom), Grown(s, atom);
    SizesOf(w);
    VarInside(u, atom.lhs);
    if atom.rhs.TermOf? {
      SlackSize(u, DiffRow(|u.terms|, u.vars[atom.lhs], u.vars[atom.rhs.t]));
      BoundForgotten(w, |u.terms|, BoundOf(atom.op, atom.lit.neg, 0.0), atom.lit, b);
    } else {
      BoundForgotten(w, u.vars[atom.lhs], BoundOf(atom.op, atom.lit.neg, atom.rhs.val), atom.lit, b);
    }
  }

  lemma BoundForgotten(s: Tab, x: nat, at: AtomBound, lit: Lit, b: BoundPair)
    requires TabOk(s) && x < |s.lower| && x < |s.upper| && |b.lower| == |b.upper| <= |s.terms|
    ensures TabOk(WithBound(s, x, at, lit)) && |WithBound(s, x, at, lit).terms| == |s.terms|
    ensures WithBounds(WithBound(s, x, at, lit), b) == WithBounds(s, b)
  {
  }

  lemma GrownExplained(s: Tab, atom: Atom, atoms: seq<Atom>)
    requires Explained(s, atoms)
    ensures TabOk(s) && Explained(Grown(s, atom), atoms)
  {
    hide Explained, WithTerm, AddVar, DiffRow;
    ExplainedOk(s, atoms);
    WithTermsOk(s, atom);
    TermExplained(s, atom.lhs, atoms);
    if atom.rhs.TermOf? {
      TermExplained(WithTerm(s, atom.lhs), atom.rhs.t, atoms);
      var u := WithTerms(s, atom);
      VarInside(u, atom.lhs);
      VarInside(u, atom.rhs.t);
      DiffRowSize(|u.terms|, u.vars[atom.lhs], u.vars[atom.rhs.t]);
      SlackExplained(u, DiffRow(|u.terms|, u.vars[atom.lhs], u.vars[atom.rhs.t]), atoms);
    }
  }

  /** Pivoting changes nothing that an explanation speaks of. */
  lemma ExplainedSame(s: Tab, t: Tab, atoms: seq<Atom>)
    requires Explained(s, atoms) && TabOk(t) && SameFrame(s, t) && |s.rows| == |t.rows| && Square(s.rows, s.basic)
    requires SameSolutions(s.rows, s.basic, t.rows, t.basic)
    ensures Explained(t, atoms)
  {
    hide Solves, FromAtom;
    forall rho: nat -> real ensures Realizable(t, rho) {
      assert Realizable(s, rho);
      var v: seq<real> :| Realizes(s, rho, v);
      assert Realizes(t, rho, v);
    }
    forall rho: nat -> real, v: seq<real>, x: nat | Realizes(t, rho, v) && x < |v| ensures BoundsExplained(t, atoms, rho, v, x) {
      assert Realizes(s, rho, v);
      assert BoundsExplained(s, atoms, rho, v, x);
    }
  }

  // ---------- every state of a run ----------

  ghost predicate Good(w: World, st: AtomStack) {
    && WorldOk(w) && FormOk(w.tab.rows, w.tab.basic) && Explained(w.tab, st.now) && |w.saved| == |st.saved|
    && forall i :: 0 <= i < |w.saved| ==> Explained(WithBounds(w.tab, w.saved[i]), st.saved[i])
  }

  lemma GoodAssert(w: World, st: AtomStack, atom: Atom)
    requires Good(w, st) && Clean(w.tab, atom)
    ensures Good(World(Asserted(w.tab, atom), w.saved), ActOn(st, Assert(atom)))
  {
    hide Explained, Asserted, FormOk, WithBounds, Grown, BasicTerm, TabOk;
    AssertedForm(w.tab, atom);
    AssertedExplained(w.tab, atom, st.now);
    var t := Asserted(w.tab, atom);
    ExplainedOk(t, st.now + [atom]);
    forall i | 0 <= i < |w.saved|
      ensures |w.saved[i].lower| == |w.saved[i].upper| <= |t.terms| && Explained(WithBounds(t, w.saved[i]), st.saved[i])
    {
      AssertedBounds(w.tab, atom, w.saved[i]);
      GrownBounds(w.tab, atom, w.saved[i]);
      GrownExplained(WithBounds(w.tab, w.saved[i]), atom, st.saved[i]);
    }
  }

  lemma GoodSolve(w: World, st: AtomStack, after: Tab, res: Outcome)
    requires Good(w, st) && Solved(w.tab, after, res)
    ensures Good(World(after, w.saved), st) && (res.Err? ==> ValidConflict(st.now, res.conflict))
  {
    hide Explained, FormOk, Solved, SameSolutions, Refutes, FromBounds, ValidConflict;
    var s := w.tab;
    SizesOf(s);
    SolvedSound(s, after, res);
    SizesOf(after);
    ExplainedSame(s, after, st.now);
    forall i | 0 <= i < |w.saved| ensures Explained(WithBounds(after, w.saved[i]), st.saved[i]) {
      BoundsOk(s, w.saved[i]);
      BoundsOk(after, w.saved[i]);
      ExplainedSame(WithBounds(s, w.saved[i]), WithBounds(after, w.saved[i]), st.saved[i]);
    }
    if res.Err? { ConflictValid(s, st.now, res.conflict); }
  }

  lemma OwnBounds(s: Tab)
    requires TabOk(s)
    ensures |s.lower| == |s.upper| == |s.terms| && WithBounds(s, BoundPair(s.lower, s.upper)) == s
  {
  }

  /** Every action keeps the states good, as long as literals are asserted over no basic variable. */
  lemma GoodActs(w: World, st: AtomStack, act: Action, w': World, res: Option<Outcome>)
    requires Good(w, st) && Acts(w, act, w', res) && (act.Assert? ==> Clean(w.tab, act.atom))
    ensures Good(w', ActOn(st, act))
    ensures res.Some? && res.value.Err? ==> ValidConflict(st.now, res.value.conflict)
  {
    hide Explained, FormOk, Solved, Asserted, Clean, TabOk, WithBounds, ValidConflict;
    match act
    case Assert(atom) => GoodAssert(w, st, atom);
    case Solve => GoodSolve(w, st, w'.tab, res.value);
    case OpenScope => OwnBounds(w.tab);
    case CloseScope =>
      if w.saved != [] {
        var n := |w.saved| - 1;
        ClosedGood(w, st, n);
      }
  }

  lemma ClosedGood(w: World, st: AtomStack, n: nat)
    requires Good(w, st) && |w.saved| == n + 1
    ensures Good(World(WithBounds(w.tab, w.saved[n]), w.saved[..n]), AtomStack(st.saved[n], st.saved[..n]))
  {
    hide Explained, FormOk, Padded;
    var t := WithBounds(w.tab, w.saved[n]);
    BoundsOk(w.tab, w.saved[n]);
    forall i | 0 <= i < n ensures Explained(WithBounds(t, w.saved[i]), st.saved[i]) {
      assert WithBounds(t, w.saved[i]) == WithBounds(w.tab, w.saved[i]);
    }
  }

  /** Up to the action, literals were asserted over no basic variable. */
  ghost predicate CleanBefore(acts: seq<Action>, worlds: seq<World>, k: nat)
    requires |worlds| == |acts| + 1 && k <= |acts|
  {
    forall j :: 0 <= j < k && acts[j].Assert? ==> WorldOk(worlds[j]) && Clean(worlds[j].tab, acts[j].atom)
  }

  lemma {:induction false} GoodThroughout(acts: seq<Action>, worlds: seq<World>, results: seq<Option<Outcome>>, k: nat)
    requires Trace(acts, worlds, results) && k <= |acts| && CleanBefore(acts, worlds, k)
    ensures Good(worlds[k], AtomsAfter(acts[..k]))
    decreases k
  {
    hide Good, Acts, Clean;
    if k == 0 {
      StartGood();
    } else {
      GoodThroughout(acts, worlds, results, k - 1);
      assert acts[..k][..k - 1] == acts[..k - 1];
      assert Acts(worlds[k - 1], acts[k - 1], worlds[k - 1 + 1], results[k - 1]);
      GoodActs(worlds[k - 1], AtomsAfter(acts[..k - 1]), acts[k - 1], worlds[k], results[k - 1]);
    }
  }

  lemma StartGood()
    ensures Good(World(Tab(map[], [], [], [], [], [], []), []), AtomStack([], []))
  {
    StartExplained();
  }

  /** Whatever was asserted, solved, opened and closed before: as long as no literal was asserted over a
      variable that was basic at that time, or over one term only, a conflict names literals in force,
      and no real values of the terms make all it names true. */
  lemma ConflictsValid(acts: seq<Action>, worlds: seq<World>, results: seq<Option<Outcome>>, k: nat)
    requires Trace(acts, worlds, results) && k < |acts| && CleanBefore(acts, worlds, k)
    requires acts[k].Solve? && results[k].Some? && results[k].value.Err?
    ensures ValidConflict(InForce(acts[..k]), results[k].value.conflict)
  {
    hide Good, ValidConflict;
    GoodThroughout(acts, worlds, results, k);
    GoodActs(worlds[k], AtomsAfter(acts[..k]), acts[k], worlds[k + 1], results[k]);
  }

  ghost predicate AtWorld(s: SimplexSolver, w: World)
    reads s
  {
    s.Valid() && w == World(s.State(), s.frames)
  }

  /** One action on the solver. */
  method Act(s: SimplexSolver, act: Action, ghost w: World) returns (res: Option<Outcome>, ghost w': World)
    requires AtWorld(s, w) && WorldOk(w)
    modifies s
    ensures AtWorld(s, w') && WorldOk(w') && Acts(w, act, w', res)
  {
    hide SimplexSolver.Shape, SimplexSolver.Models, Asserted, Solved, TabOk, FormOk, Consistent, SameSolutions, Refutes, FromBounds, Padded,
      MarksOk;
    res := None;
    s.ShapeFacts();
    match act {
      case Assert(atom) => s.AssertTerm(atom.lit, atom.op, atom.lhs, atom.rhs);
      case Solve =>
        var out;
        ghost var pivots;
        out, pivots := s.SolveSimplex();
        res := Some(out);
      case OpenScope => s.Push();
      case CloseScope =>
        s.Pop();
        s.ShapeFacts();
        SizesOf(s.State());
    }
    w' := World(s.State(), s.frames);
    s.ShapeFacts();
    FramesOk(s);
  }

  /** Performs the actions on a new solver. */
  method RunActions(acts: seq<Action>) returns (results: seq<Option<Outcome>>, ghost worlds: seq<World>)
    ensures Trace(acts, worlds, results)
    ensures forall k :: 0 <= k < |acts| && acts[k].Solve? && CleanBefore(acts, worlds, k) && results[k].Some? && results[k].value.Err? ==>
      ValidConflict(InForce(acts[..k]), results[k].value.conflict)
  {
    hide AtWorld, Acts, WorldOk, CleanBefore, ValidConflict, InForce, SimplexSolver.Shape, SimplexSolver.Valid;
    var solver := new SimplexSolver();
    ghost var w := World(solver.State(), solver.frames);
    NewWorld(solver, w);
    results, worlds := [], [w];
    for k := 0 to |acts|
      invariant |worlds| == k + 1 && |results| == k && fresh(solver) && AtWorld(solver, worlds[k])
      invariant worlds[0] == World(Tab(map[], [], [], [], [], [], []), []) && forall j :: 0 <= j < |worlds| ==> WorldOk(worlds[j])
      invariant forall j :: 0 <= j < k ==> Acts(worlds[j], acts[j], worlds[j + 1], results[j])
    {
      var res;
      ghost var w';
      res, w' := Act(solver, acts[k], worlds[k]);
      results, worlds := results + [res], worlds + [w'];
    }
    forall k | 0 <= k < |acts| && acts[k].Solve? && CleanBefore(acts, worlds, k) && results[k].Some? && results[k].value.Err?
      ensures ValidConflict(InForce(acts[..k]), results[k].value.conflict)
    {
      ConflictsValid(acts, worlds, results, k);
    }
  }

  lemma NewWorld(s: SimplexSolver, w: World)
    requires s.Valid() && w == World(s.State(), s.frames) && w.saved == []
    ensures AtWorld(s, w) && WorldOk(w)
  {
  }

  lemma FramesOk(s: SimplexSolver)
    requires s.Valid()
    ensures WorldOk(World(s.State(), s.frames))
  {
    forall i | 0 <= i < |s.frames| ensures |s.frames[i].lower| == |s.frames[i].upper| <= |s.varToTerm| {
      assert MarkOk(BoundPair(s.lower, s.upper), s.undoStack, s.scopes, s.frames, i);
    }
  }
}
