/** What a restart costs: a search over satisfiable clauses that ends in a conflict at level 0. */
module RestartLoss {
  import opened Lits
  import opened Trails
  import opened TwoWatched
  import opened SearchInvariant
  import opened ConflictAnalysis
  import opened SearchHistory

  // ---------- the clauses and the state of the search ----------

  const A := Lit(0, false)
  const B := Lit(1, false)
  const C := Lit(2, false)
  const D := Lit(3, false)
  const NOT_A := Lit(0, true)
  const NOT_B := Lit(1, true)
  const NOT_C := Lit(2, true)
  const NOT_D := Lit(3, true)

  const ADDED: Cnf := [[NOT_A, NOT_B, C], [NOT_A, NOT_B, NOT_C], [B, D], [B, NOT_D]]

  /** The order of the literals is the one propagation leaves behind. */
  const CLAUSES: Arena := [
    Clause([C, NOT_B, NOT_A], 0, false, false), Clause([NOT_C, NOT_B, NOT_A], 0, false, false),
    Clause([B, D], 0, false, false), Clause([B, NOT_D], 0, false, false)]

  const LISTS: Lists := [
    [], [],
    [Watcher(0, NOT_A), Watcher(1, NOT_A)], [Watcher(2, D), Watcher(3, NOT_D)],
    [Watcher(1, NOT_B)], [Watcher(0, NOT_B)],
    [Watcher(3, B)], [Watcher(2, B)]]

  /** `a` and `b` are decided, `c` follows from clause 0, and clause 1 is false. */
  const CONFLICT := TrailState(
    [True, True, True, Undef],
    [VarData(1, Decision), VarData(2, Decision), VarData(2, FromClause(0)), VarData(0, Decision)],
    [false, false, false, false], [A, B, C], [0, 1], 2)

  const LEARNED := [NOT_B, NOT_A]

  /** Level 0 again, with the first literal of the learned clause asserted. */
  ghost function Restarted(): TrailState { Assign(Backtrack(CONFLICT, 0), NOT_B, FromClause(4)) }

  // ---------- the state is one the search can be in ----------

  lemma ConflictTrail()
    ensures CONFLICT.Wf(4)
  {
    var t := CONFLICT;
    assert t.AtLevel(0, 1) && t.AtLevel(1, 2) && t.AtLevel(2, 2);
    forall i | 0 <= i < |t.lits| ensures t.AtLevel(i, t.data[t.lits[i].v].level) {
      assert i == 0 || i == 1 || i == 2;
    }
  }

  lemma ConflictWf()
    ensures CONFLICT.Wf(4) && ArenaWf(CLAUSES, 4)
  {
    hide TrailState.Wf;
    ConflictTrail();
  }

  lemma ListsOk()
    ensures forall p: Lit :: p.v < 4 ==> ListOk(CLAUSES, p, LISTS[p.Index()])
  {
    forall p: Lit | p.v < 4 ensures ListOk(CLAUSES, p, LISTS[p.Index()]) {
      assert p in [A, NOT_A, B, NOT_B, C, NOT_C, D, NOT_D];
    }
  }

  lemma ConflictLinked()
    ensures Linked(CLAUSES, LISTS, 4)
  {
    hide ListOk;
    ListsOk();
    assert LISTS[5][0].clause == 0 && LISTS[4][0].clause == 1 && LISTS[7][0].clause == 2 && LISTS[6][0].clause == 3;
    assert LISTS[2][0].clause == 0 && LISTS[2][1].clause == 1 && LISTS[3][0].clause == 2 && LISTS[3][1].clause == 3;
    forall id, l: Lit | Live(CLAUSES, id) && l.v < 4 && Watches(CLAUSES[id], l) ensures Listed(LISTS[l.Not().Index()], id) {
      assert l == CLAUSES[id].lits[0] || l == CLAUSES[id].lits[1];
    }
  }

  lemma ConflictReasons()
    ensures CONFLICT.Wf(4) && ReasonsOk(CLAUSES, CONFLICT, 4)
  {
    ConflictWf();
    assert ReasonOk(CLAUSES, CONFLICT, 2) by { assert CONFLICT.lits[..2] == [A, B]; }
  }

  lemma ConflictCovered()
    ensures CONFLICT.Wf(4) && Covered(ADDED, CLAUSES, CONFLICT, 4)
  {
    ConflictWf();
    assert Live(CLAUSES, 0) && Live(CLAUSES, 1) && Live(CLAUSES, 2) && Live(CLAUSES, 3);
  }

  lemma ConflictSound()
    ensures CONFLICT.Wf(4) && Sound(ADDED, CLAUSES, CONFLICT, 4)
  {
    ConflictWf();
    forall id | 0 <= id < |CLAUSES| ensures Entails(ADDED, CLAUSES[id].lits) {
      forall m: Valuation | Models(m, ADDED) ensures SatClause(m, CLAUSES[id].lits) {
        assert ADDED[id] in ADDED;
        var l :| l in ADDED[id] && Holds(m, l);
        assert l in CLAUSES[id].lits;
      }
    }
  }

  lemma ConflictCore()
    ensures Core(ADDED, CLAUSES, LISTS, CONFLICT, 4, [])
  {
    hide TrailState.Wf, ArenaWf, Linked, ReasonsOk, Covered, Sound;
    ConflictWf();
    ConflictLinked();
    ConflictReasons();
    ConflictCovered();
    ConflictSound();
    assert ADDED + [] == ADDED;
  }

  lemma ConflictIsFound()
    ensures ConflictFound(CLAUSES, CONFLICT, 4, 1, 1)
  {
    ConflictWf();
    assert CONFLICT.lits[..1] == [A];
    assert NOT_B in CLAUSES[1].lits && CONFLICT.Level(NOT_B) == 2;
  }

  lemma LearnedAsserts()
    ensures CONFLICT.Wf(4) && Asserting(CLAUSES, CONFLICT, 4, LEARNED, 1)
  {
    ConflictWf();
    assert LEARNED[1..] == [NOT_A];
    assert NOT_A in LEARNED[1..] && CONFLICT.Level(NOT_A) == 1;
    forall m: Valuation | ModelsDb(m, CLAUSES, CONFLICT) ensures SatClause(m, LEARNED) {
      assert SatClause(m, CLAUSES[0].lits) && SatClause(m, CLAUSES[1].lits);
    }
  }

  // ---------- and one that decisions and propagation lead to ----------

  const START := TrailState(
    [Undef, Undef, Undef, Undef],
    [VarData(0, Decision), VarData(0, Decision), VarData(0, Decision), VarData(0, Decision)],
    [false, false, false, false], [], [], 0)

  ghost function Decided(t: TrailState, x: Lit): TrailState
    requires x.v < |t.assigns| == |t.data| == |t.phase|
  {
    Assign(t.(lims := t.lims + [|t.lits|]), x, Decision)
  }

  /** Every clause has two literals that are not false, so there is nothing to propagate. */
  ghost predicate Quiet(t: TrailState) {
    forall c <- ADDED :: exists i, j :: 0 <= i < j < |c| && !t.IsFalse(c[i]) && !t.IsFalse(c[j])
  }

  lemma QuietWithA(t: TrailState)
    requires t.lits <= [A]
    ensures Quiet(t)
  {
    forall c | c in ADDED ensures exists i, j :: 0 <= i < j < |c| && !t.IsFalse(c[i]) && !t.IsFalse(c[j]) {
      assert !t.IsFalse(c[|c| - 2]) && !t.IsFalse(c[|c| - 1]);
    }
  }

  const FIRST := TrailState(
    [True, Undef, Undef, Undef],
    [VarData(1, Decision), VarData(0, Decision), VarData(0, Decision), VarData(0, Decision)],
    [false, false, false, false], [A], [0], 0)

  const SECOND := TrailState(
    [True, True, Undef, Undef],
    [VarData(1, Decision), VarData(2, Decision), VarData(0, Decision), VarData(0, Decision)],
    [false, false, false, false], [A, B], [0, 1], 0)

  lemma FirstIs()
    ensures Decided(START, A) == FIRST
  {
    assert Decided(START, A).lims == FIRST.lims && Decided(START, A).lits == FIRST.lits;
  }

  lemma SecondIs()
    ensures Decided(FIRST, B) == SECOND
  {
    assert Decided(FIRST, B).lims == SECOND.lims && Decided(FIRST, B).lits == SECOND.lits;
  }

  lemma ThirdIs()
    ensures Assign(SECOND, C, FromClause(0)).(qhead := 2) == CONFLICT
  {
    assert Assign(SECOND, C, FromClause(0)).lits == CONFLICT.lits;
  }

  /** From the empty trail, deciding `a` and then `b` makes clause 0 a unit, and `c` follows. */
  lemma ConflictReached()
    ensures Quiet(START) && Quiet(Decided(START, A))
    ensures forall l <- ADDED[0] :: l == C || Decided(Decided(START, A), B).IsFalse(l)
    ensures CONFLICT == Assign(Decided(Decided(START, A), B), C, FromClause(0)).(qhead := 2)
  {
    hide Quiet, Decided, Assign;
    FirstIs();
    SecondIs();
    ThirdIs();
    QuietWithA(START);
    QuietWithA(FIRST);
  }

  // ---------- the loss ----------

  /** `b` alone true satisfies every clause. */
  lemma Satisfied()
    ensures Models(iset{1}, ADDED)
  {
    assert Holds(iset{1}, NOT_A) && Holds(iset{1}, B);
  }

  /** From a state in which the invariant and soundness hold, and which decisions and propagation can
      lead to (that the heuristics choose them is not claimed), the analysis may learn `not b or not a`,
      to be asserted at level 1. A restart asserts its first literal at level 0 instead, where nothing
      supports it: the model of the clauses falsifies it. Propagation then derives `d` from clause 2 and
      finds clause 3 false at level 0, which the solver takes for a proof that there is no model. */
  lemma RestartLosesSoundness()
    ensures CONFLICT == Assign(Decided(Decided(START, A), B), C, FromClause(0)).(qhead := 2)
    ensures Core(ADDED, CLAUSES, LISTS, CONFLICT, 4, []) && ConflictFound(CLAUSES, CONFLICT, 4, 1, 1)
    ensures Asserting(CLAUSES, CONFLICT, 4, LEARNED, 1)
    ensures Learns(ADDED, Jump(CLAUSES, CONFLICT, 4, 1, LEARNED, 1, true)) && Loses(Jump(CLAUSES, CONFLICT, 4, 1, LEARNED, 1, true))
    ensures Models(iset{1}, ADDED) && !Holds(iset{1}, LEARNED[0]) && Unsat(ADDED + [[NOT_B]])
    ensures Restarted().Wf(4) && !Sound(ADDED, CLAUSES + [Clause(LEARNED, 2, true, false)], Restarted(), 4)
    ensures forall l :: l in CLAUSES[2].lits ==> l == D || Restarted().IsFalse(l)
    ensures Falsified(CLAUSES, Assign(Restarted(), D, FromClause(2)), 3) && Restarted().lims == []
  {
    hide Core, ConflictFound, Asserting, ArenaWf, TrailState.Wf, Sound, Models, Falsified, Backtrack, Assign, Decided;
    ConflictReached();
    ConflictCore();
    ConflictIsFound();
    LearnedAsserts();
    Satisfied();
    LearnsFromConflict();
    LostIsFatal();
    RestartedIs();
    NotSound();
    PropagatesToConflict();
  }

  lemma LearnsFromConflict()
    ensures Learns(ADDED, Jump(CLAUSES, CONFLICT, 4, 1, LEARNED, 1, true))
  {
    hide Core, ConflictFound, Asserting, Sound, Learns;
    ConflictCore();
    ConflictIsFound();
    LearnedAsserts();
    ConflictWf();
    LearnsHere(ADDED, CLAUSES, LISTS, CONFLICT, 4, [], Jump(CLAUSES, CONFLICT, 4, 1, LEARNED, 1, true));
    assert ADDED + [] == ADDED;
  }

  /** The last two clauses need `b`. */
  lemma LostIsFatal()
    ensures Unsat(ADDED + [[NOT_B]])
  {
    var f := ADDED + [[NOT_B]];
    assert f[2] == [B, D] && f[3] == [B, NOT_D] && f[4] == [NOT_B];
    assert f[2] in f && f[3] in f && f[4] in f;
  }

  lemma NotSound()
    ensures Restarted().Wf(4) && !Sound(ADDED, CLAUSES + [Clause(LEARNED, 2, true, false)], Restarted(), 4)
  {
    hide TrailState.Wf, Models, Backtrack, Assign;
    RestartedIs();
    Satisfied();
    assert NOT_B in Restarted().lits[..Restarted().End(0)];
    assert !SatClause(iset{1}, [NOT_B]);
  }

  lemma PropagatesToConflict()
    ensures Restarted().Wf(4)
    ensures forall l :: l in CLAUSES[2].lits ==> l == D || Restarted().IsFalse(l)
    ensures Falsified(CLAUSES, Assign(Restarted(), D, FromClause(2)), 3)
  {
    hide TrailState.Wf, Backtrack;
    RestartedIs();
    assert Assign(Restarted(), D, FromClause(2)).lits == [NOT_B, D];
  }

  lemma RestartedIs()
    ensures Restarted().lits == [NOT_B] && Restarted().lims == [] && Restarted().Wf(4) && Restarted().Sized(4)
  {
    ConflictWf();
    BacktrackWf(CONFLICT, 4, 0);
    AssignWf(Backtrack(CONFLICT, 0), 4, NOT_B, FromClause(4));
  }
}
