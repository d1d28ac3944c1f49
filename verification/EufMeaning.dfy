/** What the asserted literals mean in first-order structures, and when the rows of the equality
    engine say the same: always, but for distinctness asserted false and equalities of other than
    two terms. */
module EufMeaning {
  import opened Lits
  import opened CongruenceModel
  import opened ProofForest
  import opened EventLog
  import opened EufEngine

  // ---------- structures ----------

  /** Values for the terms that are not applications, and a function for every symbol. */
  datatype Structure = Structure(leaf: nat -> nat, fun: (string, seq<nat>) -> nat)

  ghost function Value(ts: Arena, st: Structure, t: nat): nat
    requires ArenaOk(ts) && t < |ts|
    decreases t
  {
    if ts[t].Apply? then
      st.fun(ts[t].f, seq(|ts[t].args|, i requires 0 <= i < |ts[t].args| => Value(ts, st, ts[t].args[i])))
    else st.leaf(t)
  }

  ghost predicate EqualityAtom(t: Term) { t.Equals? || t.Distinct? }

  /** Whether the equality or distinctness is true. */
  ghost predicate Truth(ts: Arena, st: Structure, t: nat)
    requires ArenaOk(ts) && t < |ts|
  {
    EqualityAtom(ts[t]) ==> var args := ts[t].args; forall i, j :: 0 <= i < j < |args| ==>
      (Value(ts, st, args[i]) == Value(ts, st, args[j]) <==> ts[t].Equals?)
  }

  /** A literal and the term its variable stands for. */
  datatype Atom = Atom(lit: Lit, term: nat)

  ghost predicate AtomsIn(ts: Arena, reg: set<nat>, atoms: seq<Atom>) {
    forall a :: a in atoms ==> a.term < |ts| && (EqualityAtom(ts[a.term]) ==> forall i :: 0 <= i < |ts[a.term].args| ==> ts[a.term].args[i] in reg)
  }

  ghost predicate InArena(ts: Arena, atoms: seq<Atom>) { forall a :: a in atoms ==> a.term < |ts| }

  /** The asserted literal is true; of terms that are no equality atoms nothing is asked. */
  ghost predicate Obeys(ts: Arena, st: Structure, a: Atom)
    requires ArenaOk(ts) && a.term < |ts|
  {
    EqualityAtom(ts[a.term]) ==> (Truth(ts, st, a.term) <==> !a.lit.neg)
  }

  ghost predicate Satisfies(ts: Arena, st: Structure, atoms: seq<Atom>)
    requires ArenaOk(ts) && InArena(ts, atoms)
  {
    forall a :: a in atoms ==> Obeys(ts, st, a)
  }

  ghost predicate Satisfiable(ts: Arena, atoms: seq<Atom>)
    requires ArenaOk(ts) && InArena(ts, atoms)
  {
    exists st: Structure :: Satisfies(ts, st, atoms)
  }

  /** The valuation gives every asserted literal the truth it has in the structure. */
  ghost predicate Reads(ts: Arena, st: Structure, m: Valuation, atoms: seq<Atom>)
    requires ArenaOk(ts) && InArena(ts, atoms)
  {
    forall a :: a in atoms && EqualityAtom(ts[a.term]) ==> (Holds(m, a.lit) <==> Obeys(ts, st, a))
  }

  /** Every structure makes one of the literals true. */
  ghost predicate TheoryValid(ts: Arena, atoms: seq<Atom>, c: seq<Lit>)
    requires ArenaOk(ts) && InArena(ts, atoms)
  {
    forall st: Structure, m: Valuation :: Reads(ts, st, m, atoms) ==> SatClause(m, c)
  }

  // ---------- structures and congruences ----------

  ghost predicate SameValue(ts: Arena, st: Structure, x: nat, y: nat)
    requires ArenaOk(ts)
  {
    x == y || (x < |ts| && y < |ts| && Value(ts, st, x) == Value(ts, st, y))
  }

  ghost function ValueRel(ts: Arena, st: Structure): Rel
    requires ArenaOk(ts)
  {
    iset x: nat, y: nat | SameValue(ts, st, x, y) :: (x, y)
  }

  lemma ValuesAreCongruence(ts: Arena, reg: set<nat>, st: Structure)
    requires ArenaOk(ts) && Registered(ts, reg)
    ensures Congruence(ts, reg, ValueRel(ts, st))
  {
    var r := ValueRel(ts, st);
    forall t, u | t in reg && u in reg && SameUpTo(ts, t, u, r) ensures (t, u) in r {
      var p, q := ts[t].args, ts[u].args;
      forall i | 0 <= i < |p| ensures Value(ts, st, p[i]) == Value(ts, st, q[i]) {
        assert (p[i], q[i]) in r;
      }
      assert seq(|p|, i requires 0 <= i < |p| => Value(ts, st, p[i])) == seq(|q|, i requires 0 <= i < |q| => Value(ts, st, q[i]));
    }
  }

  /** The least term from `k` up to `x` that is related to `x`. */
  ghost function Least(r: Rel, x: nat, k: nat): nat
    decreases x - k
  {
    if k >= x || (x, k) in r then k else Least(r, x, k + 1)
  }

  lemma {:induction false} LeastIs(r: Rel, x: nat, k: nat)
    requires Equivalence(r) && k <= x
    ensures k <= Least(r, x, k) <= x && (x, Least(r, x, k)) in r
    ensures forall j :: k <= j < Least(r, x, k) ==> (x, j) !in r
    decreases x - k
  {
    if k < x && (x, k) !in r { LeastIs(r, x, k + 1); }
  }

  lemma LeastIffRelated(r: Rel, x: nat, y: nat)
    requires Equivalence(r)
    ensures Least(r, x, 0) == Least(r, y, 0) <==> (x, y) in r
  {
    LeastIs(r, x, 0);
    LeastIs(r, y, 0);
    var p, q := Least(r, x, 0), Least(r, y, 0);
    if p == q { RelTrans(r, y, q, x); RelTrans(r, x, p, y); }
    if (x, y) in r {
      RelTrans(r, x, y, q);
      RelTrans(r, x, y, x);
      RelTrans(r, y, x, p);
    }
  }

  ghost predicate AppliedTo(ts: Arena, reg: set<nat>, r: Rel, f: string, vs: seq<nat>, u: nat) {
    && u in reg && u < |ts| && ts[u].Apply? && ts[u].f == f && |ts[u].args| == |vs|
    && forall i :: 0 <= i < |vs| ==> Least(r, ts[u].args[i], 0) == vs[i]
  }

  ghost function Applied(ts: Arena, reg: set<nat>, r: Rel, f: string, vs: seq<nat>): nat {
    if exists u: nat :: AppliedTo(ts, reg, r, f, vs, u) then
      var u: nat :| AppliedTo(ts, reg, r, f, vs, u);
      Least(r, u, 0)
    else 0
  }

  /** Every class is a value. */
  ghost function ClassStructure(ts: Arena, reg: set<nat>, r: Rel): Structure {
    Structure(t => Least(r, t, 0), (f, vs) => Applied(ts, reg, r, f, vs))
  }

  lemma {:induction false} ClassValue(ts: Arena, reg: set<nat>, r: Rel, t: nat)
    requires ArenaOk(ts) && Registered(ts, reg) && Congruence(ts, reg, r) && t in reg
    ensures Value(ts, ClassStructure(ts, reg, r), t) == Least(r, t, 0)
    decreases t
  {
    var st := ClassStructure(ts, reg, r);
    if ts[t].Apply? {
      var args := ts[t].args;
      forall i | 0 <= i < |args| ensures Value(ts, st, args[i]) == Least(r, args[i], 0) {
        ClassValue(ts, reg, r, args[i]);
      }
      var vs := seq(|args|, i requires 0 <= i < |args| => Value(ts, st, args[i]));
      assert AppliedTo(ts, reg, r, ts[t].f, vs, t);
      var u: nat :| AppliedTo(ts, reg, r, ts[t].f, vs, u) && Applied(ts, reg, r, ts[t].f, vs) == Least(r, u, 0);
      forall i | 0 <= i < |args| ensures (ts[u].args[i], args[i]) in r { LeastIffRelated(r, ts[u].args[i], args[i]); }
      assert SameUpTo(ts, u, t, r);
      LeastIffRelated(r, u, t);
    }
  }

  lemma ClassesRelate(ts: Arena, reg: set<nat>, r: Rel, x: nat, y: nat)
    requires ArenaOk(ts) && Registered(ts, reg) && Congruence(ts, reg, r) && x in reg && y in reg
    ensures Value(ts, ClassStructure(ts, reg, r), x) == Value(ts, ClassStructure(ts, reg, r), y) <==> (x, y) in r
  {
    ClassValue(ts, reg, r, x);
    ClassValue(ts, reg, r, y);
    LeastIffRelated(r, x, y);
  }

  // ---------- the rows of the literals in force ----------

  ghost function EqsOf(ts: Arena, atoms: seq<Atom>): set<Equation>
    requires InArena(ts, atoms)
    decreases |atoms|
  {
    if atoms == [] then {}
    else
      var n := |atoms| - 1;
      EqsOf(ts, atoms[..n]) + NewEquations(ts, atoms[n].lit, atoms[n].term)
  }

  ghost function DsOf(ts: Arena, atoms: seq<Atom>): seq<Disequality>
    requires InArena(ts, atoms)
    decreases |atoms|
  {
    if atoms == [] then []
    else
      var n := |atoms| - 1;
      DsOf(ts, atoms[..n]) + NewDiseqs(ts, atoms[n].lit, atoms[n].term)
  }

  lemma {:induction false} EquationFrom(ts: Arena, atoms: seq<Atom>, e: Equation)
    requires InArena(ts, atoms)
    ensures e in EqsOf(ts, atoms) <==> exists a :: a in atoms && e in NewEquations(ts, a.lit, a.term)
    decreases |atoms|
  {
    if atoms != [] {
      var n := |atoms| - 1;
      EquationFrom(ts, atoms[..n], e);
      assert atoms == atoms[..n] + [atoms[n]];
      if e in NewEquations(ts, atoms[n].lit, atoms[n].term) { assert atoms[n] in atoms; }
    }
  }

  lemma {:induction false} DisequalityFrom(ts: Arena, atoms: seq<Atom>, d: Disequality)
    requires InArena(ts, atoms)
    ensures d in DsOf(ts, atoms) <==> exists a :: a in atoms && d in NewDiseqs(ts, a.lit, a.term)
    decreases |atoms|
  {
    if atoms != [] {
      var n := |atoms| - 1;
      DisequalityFrom(ts, atoms[..n], d);
      assert atoms == atoms[..n] + [atoms[n]];
      if d in NewDiseqs(ts, atoms[n].lit, atoms[n].term) { assert atoms[n] in atoms; }
    }
  }

  lemma {:induction false} InRow(args: seq<nat>, lit: Lit, i: nat, j: nat, d: Disequality)
    requires i < |args| && j <= |args|
    ensures d in Row(args, lit, i, j) <==> exists k: nat :: i < k < j && d == Disequality(args[i], args[k], lit)
    decreases j
  {
    if i + 1 < j { InRow(args, lit, i, j - 1, d); }
  }

  /** The rows of a distinctness are its pairs. */
  lemma {:induction false} InRows(args: seq<nat>, lit: Lit, i: nat, d: Disequality)
    requires i <= |args|
    ensures d in Rows(args, lit, i) <==> exists j: nat, k: nat :: j < i && j < k < |args| && d == Disequality(args[j], args[k], lit)
    decreases i
  {
    hide Rows, Row;
    RowsStep(args, lit, i);
    if i > 0 {
      InRows(args, lit, i - 1, d);
      InRow(args, lit, i - 1, |args|, d);
      assert d in Rows(args, lit, i) <==> d in Rows(args, lit, i - 1) || d in Row(args, lit, i - 1, |args|);
    }
  }

  /** The engine looks at the atom and at the sign of its literal. */
  ghost predicate Read(ts: Arena, a: Atom)
    requires a.term < |ts|
  {
    match ts[a.term]
    case Equals(args) => |args| == 2
    case Distinct(args) => !a.lit.neg
    case _ => true
  }

  lemma PairValues(ts: Arena, st: Structure, x: nat, y: nat)
    requires ArenaOk(ts) && x < |ts| && y < |ts|
    ensures (x, y) in ValueRel(ts, st) <==> Value(ts, st, x) == Value(ts, st, y)
  {
  }

  lemma EqualityRead(ts: Arena, st: Structure, args: seq<nat>, lit: Lit, t: nat)
    requires ArenaOk(ts) && t < |ts| && ts[t] == Equals(args) && |args| == 2 && args[0] < |ts| && args[1] < |ts|
    ensures Truth(ts, st, t) <==> (args[0], args[1]) in ValueRel(ts, st)
    ensures lit.neg ==> NewEquations(ts, lit, t) == {} && NewDiseqs(ts, lit, t) == [Disequality(args[0], args[1], lit)]
    ensures !lit.neg ==> NewEquations(ts, lit, t) == {Equation(args[0], args[1], lit)} && NewDiseqs(ts, lit, t) == []
  {
    PairValues(ts, st, args[0], args[1]);
    assert Truth(ts, st, t) ==> Value(ts, st, args[0]) == Value(ts, st, args[1]);
  }

  lemma DistinctRead(ts: Arena, st: Structure, args: seq<nat>, lit: Lit, t: nat)
    requires ArenaOk(ts) && t < |ts| && ts[t] == Distinct(args) && forall i :: 0 <= i < |args| ==> args[i] < |ts|
    ensures Truth(ts, st, t) <==> Separates(ValueRel(ts, st), Rows(args, lit, |args|))
  {
    hide Value;
    var r, ds := ValueRel(ts, st), Rows(args, lit, |args|);
    if Separates(r, ds) {
      forall i, j | 0 <= i < j < |args| ensures Value(ts, st, args[i]) != Value(ts, st, args[j]) {
        var d := Disequality(args[i], args[j], lit);
        InRows(args, lit, |args|, d);
        assert d in ds && (d.a, d.b) !in r;
        PairValues(ts, st, args[i], args[j]);
      }
    }
    if Truth(ts, st, t) {
      forall d | d in ds ensures (d.a, d.b) !in r {
        InRows(args, lit, |args|, d);
        var i: nat, j: nat :| i < j < |args| && d == Disequality(args[i], args[j], lit);
        PairValues(ts, st, args[i], args[j]);
      }
    }
  }

  /** For such atoms the rows say what the literal says. */
  lemma ReadRows(ts: Arena, reg: set<nat>, st: Structure, a: Atom)
    requires ArenaOk(ts) && Registered(ts, reg) && a.term < |ts| && Read(ts, a)
    requires EqualityAtom(ts[a.term]) ==> forall i :: 0 <= i < |ts[a.term].args| ==> ts[a.term].args[i] in reg
    ensures Obeys(ts, st, a) <==>
      Contains(ValueRel(ts, st), NewEquations(ts, a.lit, a.term)) && Separates(ValueRel(ts, st), NewDiseqs(ts, a.lit, a.term))
  {
    hide Truth, ValueRel, NewEquations, NewDiseqs, Rows;
    NewAtoms(ts, a.lit, a.term);
    if EqualityAtom(ts[a.term]) {
      var args := ts[a.term].args;
      forall i | 0 <= i < |args| ensures args[i] < |ts| { RegisteredAt(ts, reg, args[i]); }
      if ts[a.term].Distinct? {
        DistinctRead(ts, st, args, a.lit, a.term);
      } else {
        EqualityRead(ts, st, args, a.lit, a.term);
        var e, d := Equation(args[0], args[1], a.lit), Disequality(args[0], args[1], a.lit);
        assert e in {e} && d in [d];
      }
    }
  }

  lemma RowsIn(ts: Arena, reg: set<nat>, atoms: seq<Atom>)
    requires InArena(ts, atoms) && AtomsIn(ts, reg, atoms)
    ensures forall e :: e in EqsOf(ts, atoms) ==> e.a in reg && e.b in reg
    ensures forall d :: d in DsOf(ts, atoms) ==> d.a in reg && d.b in reg
  {
    forall e | e in EqsOf(ts, atoms) ensures e.a in reg && e.b in reg {
      EquationFrom(ts, atoms, e);
      var a :| a in atoms && e in NewEquations(ts, a.lit, a.term);
    }
    forall d | d in DsOf(ts, atoms) ensures d.a in reg && d.b in reg {
      DisequalityFrom(ts, atoms, d);
      var a :| a in atoms && d in NewDiseqs(ts, a.lit, a.term);
      if ts[a.term].Distinct? { InRows(ts[a.term].args, a.lit, |ts[a.term].args|, d); }
    }
  }

  // ---------- consistent rows and satisfiable literals ----------

  ghost predicate AllRead(ts: Arena, atoms: seq<Atom>)
    requires InArena(ts, atoms)
  {
    forall a :: a in atoms ==> Read(ts, a)
  }

  lemma SatisfiesRows(ts: Arena, reg: set<nat>, st: Structure, atoms: seq<Atom>)
    requires ArenaOk(ts) && Registered(ts, reg) && InArena(ts, atoms) && AtomsIn(ts, reg, atoms) && AllRead(ts, atoms)
    ensures Satisfies(ts, st, atoms) <==> Contains(ValueRel(ts, st), EqsOf(ts, atoms)) && Separates(ValueRel(ts, st), DsOf(ts, atoms))
  {
    hide Obeys, ValueRel, NewEquations, NewDiseqs, EqsOf, DsOf, Read;
    var r := ValueRel(ts, st);
    forall a | a in atoms
      ensures Obeys(ts, st, a) <==> Contains(r, NewEquations(ts, a.lit, a.term)) && Separates(r, NewDiseqs(ts, a.lit, a.term))
    {
      ReadRows(ts, reg, st, a);
    }
    if Satisfies(ts, st, atoms) {
      forall e | e in EqsOf(ts, atoms) ensures (e.a, e.b) in r { EquationFrom(ts, atoms, e); }
      forall d | d in DsOf(ts, atoms) ensures (d.a, d.b) !in r { DisequalityFrom(ts, atoms, d); }
    }
    if Contains(r, EqsOf(ts, atoms)) && Separates(r, DsOf(ts, atoms)) {
      forall a | a in atoms ensures Obeys(ts, st, a) {
        forall e | e in NewEquations(ts, a.lit, a.term) ensures (e.a, e.b) in r { EquationFrom(ts, atoms, e); }
        forall d | d in NewDiseqs(ts, a.lit, a.term) ensures (d.a, d.b) !in r { DisequalityFrom(ts, atoms, d); }
      }
    }
  }

  /** What a congruence relates among the registered terms, its structure gives one value. */
  lemma ClassRows(ts: Arena, reg: set<nat>, r: Rel, eqs: set<Equation>, ds: seq<Disequality>)
    requires ArenaOk(ts) && Registered(ts, reg) && Congruence(ts, reg, r)
    requires (forall e :: e in eqs ==> e.a in reg && e.b in reg) && forall d :: d in ds ==> d.a in reg && d.b in reg
    ensures var v := ValueRel(ts, ClassStructure(ts, reg, r)); (Contains(r, eqs) <==> Contains(v, eqs)) && (Separates(r, ds) <==> Separates(v, ds))
  {
    hide Congruence, Registered, ClassStructure, ValueRel;
    var st := ClassStructure(ts, reg, r);
    forall x, y | x in reg && y in reg ensures (x, y) in r <==> (x, y) in ValueRel(ts, st) {
      RegisteredAt(ts, reg, x);
      RegisteredAt(ts, reg, y);
      ClassesRelate(ts, reg, r, x, y);
      PairValues(ts, st, x, y);
    }
  }

  /** When every literal is read, the rows are consistent exactly when some structure makes all
      literals true. */
  lemma ConsistentIffSatisfiable(ts: Arena, reg: set<nat>, atoms: seq<Atom>)
    requires ArenaOk(ts) && Registered(ts, reg) && InArena(ts, atoms) && AtomsIn(ts, reg, atoms) && AllRead(ts, atoms)
    ensures Consistent(ts, reg, EqsOf(ts, atoms), DsOf(ts, atoms)) <==> Satisfiable(ts, atoms)
  {
    hide Congruence, Registered, ClassStructure, ValueRel, EqsOf, DsOf, Satisfies, AllRead, AtomsIn;
    var eqs, ds := EqsOf(ts, atoms), DsOf(ts, atoms);
    RowsIn(ts, reg, atoms);
    if Consistent(ts, reg, eqs, ds) {
      var r: Rel :| Congruence(ts, reg, r) && Contains(r, eqs) && Separates(r, ds);
      ClassRows(ts, reg, r, eqs, ds);
      SatisfiesRows(ts, reg, ClassStructure(ts, reg, r), atoms);
    }
    if Satisfiable(ts, atoms) {
      var st: Structure :| Satisfies(ts, st, atoms);
      SatisfiesRows(ts, reg, st, atoms);
      ValuesAreCongruence(ts, reg, st);
    }
  }

  // ---------- equalities forced by those asserted ----------

  /** The two terms have one value wherever the asserted equalities are true. */
  ghost predicate Forced(ts: Arena, atoms: seq<Atom>, x: nat, y: nat)
    requires ArenaOk(ts) && InArena(ts, atoms)
  {
    forall st: Structure :: Contains(ValueRel(ts, st), EqsOf(ts, atoms)) ==> SameValue(ts, st, x, y)
  }

  lemma ForcedIffEntailed(ts: Arena, reg: set<nat>, atoms: seq<Atom>, x: nat, y: nat)
    requires ArenaOk(ts) && Registered(ts, reg) && InArena(ts, atoms) && AtomsIn(ts, reg, atoms) && x in reg && y in reg
    ensures Forced(ts, atoms, x, y) <==> Entailed(ts, reg, EqsOf(ts, atoms), x, y)
  {
    hide Congruence, Registered, ClassStructure, EqsOf, AtomsIn, Value;
    var eqs := EqsOf(ts, atoms);
    RowsIn(ts, reg, atoms);
    RegisteredAt(ts, reg, x);
    RegisteredAt(ts, reg, y);
    if Forced(ts, atoms, x, y) {
      forall r: Rel | Congruence(ts, reg, r) && Contains(r, eqs) ensures (x, y) in r {
        ClassRows(ts, reg, r, eqs, []);
        ClassesRelate(ts, reg, r, x, y);
      }
    }
    if Entailed(ts, reg, eqs, x, y) {
      forall st: Structure | Contains(ValueRel(ts, st), eqs) ensures SameValue(ts, st, x, y) {
        ValuesAreCongruence(ts, reg, st);
        assert (x, y) in ValueRel(ts, st);
      }
    }
  }

  /** Disequality `k` is the first whose sides the asserted equalities force to be equal. */
  ghost predicate FirstForced(ts: Arena, atoms: seq<Atom>, k: nat)
    requires ArenaOk(ts) && InArena(ts, atoms)
  {
    && k < |DsOf(ts, atoms)| && Forced(ts, atoms, DsOf(ts, atoms)[k].a, DsOf(ts, atoms)[k].b)
    && forall j :: 0 <= j < k ==> !Forced(ts, atoms, DsOf(ts, atoms)[j].a, DsOf(ts, atoms)[j].b)
  }

  /** The row is one of a distinctness asserted false. */
  ghost predicate FromNegated(ts: Arena, atoms: seq<Atom>, d: Disequality)
    requires InArena(ts, atoms)
  {
    exists a :: a in atoms && a.lit.neg && ts[a.term].Distinct? && d in NewDiseqs(ts, a.lit, a.term)
  }

  // ---------- conflict clauses ----------

  lemma RelatedWhereTrue(ts: Arena, reg: set<nat>, atoms: seq<Atom>, c: seq<Lit>, st: Structure, m: Valuation)
    requires ArenaOk(ts) && Registered(ts, reg) && InArena(ts, atoms) && AtomsIn(ts, reg, atoms)
    requires Reads(ts, st, m, atoms) && forall l :: l in c ==> !Holds(m, l)
    ensures Contains(ValueRel(ts, st), Used(EqsOf(ts, atoms), c))
  {
    hide Obeys, ValueRel, EqsOf, NewDiseqs;
    forall e | e in Used(EqsOf(ts, atoms), c) ensures (e.a, e.b) in ValueRel(ts, st) {
      HoldsNot(m, e.lit);
      EquationFrom(ts, atoms, e);
      var a :| a in atoms && e in NewEquations(ts, a.lit, a.term);
      ReadRows(ts, reg, st, a);
    }
  }

  /** A conflict is valid in the theory when its disequality was made from a literal that is read. */
  lemma ConflictValid(ts: Arena, reg: set<nat>, atoms: seq<Atom>, k: nat, clause: seq<Lit>)
    requires ArenaOk(ts) && Registered(ts, reg) && InArena(ts, atoms) && AtomsIn(ts, reg, atoms)
    requires ConflictAt(ts, reg, EqsOf(ts, atoms), DsOf(ts, atoms), k, clause)
    requires !FromNegated(ts, atoms, DsOf(ts, atoms)[k])
    ensures TheoryValid(ts, atoms, clause)
  {
    hide Obeys, ValueRel, EqsOf, DsOf, Congruence, Registered, NewDiseqs;
    var n := |clause| - 1;
    var c, d := clause[..n], DsOf(ts, atoms)[k];
    assert clause == c + [d.lit.Not()];
    DisequalityFrom(ts, atoms, d);
    var a :| a in atoms && d in NewDiseqs(ts, a.lit, a.term);
    NewAtoms(ts, a.lit, a.term);
    assert Read(ts, a) && EqualityAtom(ts[a.term]) && d.lit == a.lit by { RowLiteral(ts, a, d); }
    forall st: Structure, m: Valuation | Reads(ts, st, m, atoms) ensures SatClause(m, clause) {
      if forall l :: l in clause ==> !Holds(m, l) {
        RelatedWhereTrue(ts, reg, atoms, c, st, m);
        ValuesAreCongruence(ts, reg, st);
        assert (d.a, d.b) in ValueRel(ts, st);
        HoldsNot(m, d.lit);
        ReadRows(ts, reg, st, a);
        assert false;
      }
    }
  }

  lemma RowLiteral(ts: Arena, a: Atom, d: Disequality)
    requires a.term < |ts| && d in NewDiseqs(ts, a.lit, a.term)
    ensures d.lit == a.lit && EqualityAtom(ts[a.term]) && (Read(ts, a) || (ts[a.term].Distinct? && a.lit.neg))
    ensures ts[a.term].Distinct? ==> |ts[a.term].args| >= 2
  {
    if ts[a.term].Distinct? { InRows(ts[a.term].args, a.lit, |ts[a.term].args|, d); }
  }

  /** Every variable stands for one term. */
  ghost predicate OneTerm(atoms: seq<Atom>) {
    forall a, b :: a in atoms && b in atoms && a.lit.v == b.lit.v ==> a.term == b.term
  }

  /** One value for everything. */
  ghost function Constantly(): Structure { Structure(t => 0, (f, vs) => 0) }

  lemma ConstantTruth(ts: Arena, t: nat)
    requires ArenaOk(ts) && t < |ts|
    ensures EqualityAtom(ts[t]) ==> (Truth(ts, Constantly(), t) <==> ts[t].Equals? || |ts[t].args| < 2)
  {
    var st := Constantly();
    if EqualityAtom(ts[t]) {
      var args := ts[t].args;
      forall i | 0 <= i < |args| ensures Value(ts, st, args[i]) == 0 {}
      if |args| >= 2 { assert Value(ts, st, args[0]) == Value(ts, st, args[1]); }
    }
  }

  ghost predicate ConstantlyTrue(ts: Arena, atoms: seq<Atom>, v: nat)
    requires ArenaOk(ts) && InArena(ts, atoms)
  {
    exists a :: a in atoms && a.lit.v == v && EqualityAtom(ts[a.term]) && Truth(ts, Constantly(), a.term)
  }

  /** The valuation of that structure. */
  ghost function ConstantReading(ts: Arena, atoms: seq<Atom>): Valuation
    requires ArenaOk(ts) && InArena(ts, atoms)
  {
    iset v: nat | ConstantlyTrue(ts, atoms, v)
  }

  lemma ConstantReads(ts: Arena, atoms: seq<Atom>)
    requires ArenaOk(ts) && InArena(ts, atoms) && OneTerm(atoms)
    ensures Reads(ts, Constantly(), ConstantReading(ts, atoms), atoms)
  {
    hide Truth, Constantly;
    var m := ConstantReading(ts, atoms);
    forall a | a in atoms && EqualityAtom(ts[a.term]) ensures Holds(m, a.lit) <==> (Truth(ts, Constantly(), a.term) <==> !a.lit.neg) {
      if a.lit.v in m {
        var b :| b in atoms && b.lit.v == a.lit.v && EqualityAtom(ts[b.term]) && Truth(ts, Constantly(), b.term);
      }
    }
  }

  /** And not when it was made from a distinctness asserted false: where all values are equal, the
      equalities are true and the distinctness is not. */
  lemma ConflictInvalid(ts: Arena, reg: set<nat>, atoms: seq<Atom>, k: nat, clause: seq<Lit>)
    requires ArenaOk(ts) && Registered(ts, reg) && InArena(ts, atoms) && OneTerm(atoms)
    requires ConflictAt(ts, reg, EqsOf(ts, atoms), DsOf(ts, atoms), k, clause)
    requires FromNegated(ts, atoms, DsOf(ts, atoms)[k])
    ensures !TheoryValid(ts, atoms, clause)
  {
    hide Obeys, Truth, EqsOf, DsOf, Registered, Constantly, ConstantReading, NewDiseqs, Explained, Entailed;
    var st, m := Constantly(), ConstantReading(ts, atoms);
    ConstantReads(ts, atoms);
    var n := |clause| - 1;
    var d := DsOf(ts, atoms)[k];
    assert clause == clause[..n] + [d.lit.Not()];
    forall l | l in clause ensures !Holds(m, l) {
      if l in clause[..n] {
        var e :| e in EqsOf(ts, atoms) && e.lit.Not() == l;
        EquationFrom(ts, atoms, e);
        var a :| a in atoms && e in NewEquations(ts, a.lit, a.term);
        ConstantAtom(ts, a);
        HoldsNot(m, e.lit);
      } else {
        var a :| a in atoms && a.lit.neg && ts[a.term].Distinct? && d in NewDiseqs(ts, a.lit, a.term);
        RowLiteral(ts, a, d);
        ConstantAtom(ts, a);
        HoldsNot(m, d.lit);
      }
    }
    assert !SatClause(m, clause);
  }

  lemma ConstantAtom(ts: Arena, a: Atom)
    requires ArenaOk(ts) && a.term < |ts| && EqualityAtom(ts[a.term])
    ensures ts[a.term].Equals? ==> (Obeys(ts, Constantly(), a) <==> !a.lit.neg)
    ensures ts[a.term].Distinct? && |ts[a.term].args| >= 2 ==> (Obeys(ts, Constantly(), a) <==> a.lit.neg)
  {
    ConstantTruth(ts, a.term);
  }

  // ---------- whole runs ----------

  /** The literals in force, and those in force where each open scope began. */
  datatype AtomStack = AtomStack(now: seq<Atom>, saved: seq<seq<Atom>>)

  ghost function StepAtoms(s: AtomStack, step: Step): AtomStack {
    match step
    case Assert(lit, term) => s.(now := s.now + [Atom(lit, term)])
    case OpenScope => s.(saved := s.saved + [s.now])
    case CloseScope => if s.saved == [] then s else AtomStack(s.saved[|s.saved| - 1], s.saved[..|s.saved| - 1])
  }

  ghost function AtomsAfter(steps: seq<Step>): AtomStack
    decreases |steps|
  {
    if steps == [] then AtomStack([], []) else StepAtoms(AtomsAfter(steps[..|steps| - 1]), steps[|steps| - 1])
  }

  /** The literals that the run leaves in force. */
  ghost function InForce(steps: seq<Step>): seq<Atom> { AtomsAfter(steps).now }

  ghost function Members(terms: seq<nat>): set<nat> { set t | t in terms }

  ghost predicate StackOk(ts: Arena, reg: set<nat>, s: AtomStack) {
    AtomsIn(ts, reg, s.now) && forall i :: 0 <= i < |s.saved| ==> AtomsIn(ts, reg, s.saved[i])
  }

  ghost predicate StackLive(ts: Arena, s: AtomStack, live: Live)
  {
    && InArena(ts, s.now) && (forall i :: 0 <= i < |s.saved| ==> InArena(ts, s.saved[i]))
    && live.eqs == EqsOf(ts, s.now) && live.diseqs == DsOf(ts, s.now) && |live.saved| == |s.saved|
    && forall i :: 0 <= i < |s.saved| ==> live.saved[i] == (EqsOf(ts, s.saved[i]), DsOf(ts, s.saved[i]))
  }

  lemma AppendRows(ts: Arena, atoms: seq<Atom>, a: Atom)
    requires InArena(ts, atoms) && a.term < |ts|
    ensures InArena(ts, atoms + [a])
    ensures EqsOf(ts, atoms + [a]) == EqsOf(ts, atoms) + NewEquations(ts, a.lit, a.term)
    ensures DsOf(ts, atoms + [a]) == DsOf(ts, atoms) + NewDiseqs(ts, a.lit, a.term)
  {
    assert (atoms + [a])[..|atoms|] == atoms;
  }

  lemma AppendAtom(ts: Arena, reg: set<nat>, atoms: seq<Atom>, a: Atom)
    requires AtomsIn(ts, reg, atoms) && AtomsIn(ts, reg, [a])
    ensures AtomsIn(ts, reg, atoms + [a])
  {
    assert a in [a];
  }

  lemma StepRows(ts: Arena, terms: seq<nat>, s: AtomStack, live: Live, step: Step)
    requires EufEngine.StepOk(ts, terms, step) && StackOk(ts, Members(terms), s) && StackLive(ts, s, live)
    ensures StackOk(ts, Members(terms), StepAtoms(s, step)) && StackLive(ts, StepAtoms(s, step), StepLive(ts, live, step))
  {
    hide NewEquations, NewDiseqs, EqsOf, DsOf, AtomsIn, InArena;
    LiveSteps(ts, live, step);
    if step.Assert? {
      var a := Atom(step.lit, step.term);
      assert AtomsIn(ts, Members(terms), [a]) by { SingleAtom(ts, terms, step); }
      AppendAtom(ts, Members(terms), s.now, a);
      AppendRows(ts, s.now, a);
    }
  }

  lemma SingleAtom(ts: Arena, terms: seq<nat>, step: Step)
    requires EufEngine.StepOk(ts, terms, step) && step.Assert?
    ensures AtomsIn(ts, Members(terms), [Atom(step.lit, step.term)]) && step.term < |ts|
  {
  }

  /** The rows in force are those of the literals in force. */
  lemma {:induction false} RunRows(ts: Arena, terms: seq<nat>, steps: seq<Step>)
    requires forall k :: 0 <= k < |steps| ==> EufEngine.StepOk(ts, terms, steps[k])
    ensures StackOk(ts, Members(terms), AtomsAfter(steps)) && StackLive(ts, AtomsAfter(steps), LiveAfter(ts, terms, steps))
    decreases |steps|
  {
    if steps == [] {
      NoneSaved(ts, terms);
    } else {
      hide StepAtoms, StepLive, StackOk, StackLive, EufEngine.StepOk, LiveAfter;
      var n := |steps| - 1;
      StepFacts(ts, terms, steps, n);
      assert steps[..n + 1] == steps;
      RunRows(ts, terms, steps[..n]);
      StepRows(ts, terms, AtomsAfter(steps[..n]), LiveAfter(ts, terms, steps[..n]), steps[n]);
    }
  }

  /** The verdict answers for the literals whose rows were checked. */
  ghost predicate AnswersFor(ts: Arena, atoms: seq<Atom>, v: Verdict)
    requires ArenaOk(ts) && InArena(ts, atoms)
  {
    && (AllRead(ts, atoms) ==> (v.NoConflict? <==> Satisfiable(ts, atoms)))
    && (v.Conflict? <==> exists k: nat :: FirstForced(ts, atoms, k))
    && (v.Conflict? ==> forall l :: l in v.clause ==> exists a :: a in atoms && a.lit.Not() == l)
    && (v.Conflict? ==> forall k: nat :: FirstForced(ts, atoms, k) ==>
         && (!FromNegated(ts, atoms, DsOf(ts, atoms)[k]) ==> TheoryValid(ts, atoms, v.clause))
         && (FromNegated(ts, atoms, DsOf(ts, atoms)[k]) && OneTerm(atoms) ==> !TheoryValid(ts, atoms, v.clause)))
  }

  lemma FirstIsUnique(ts: Arena, atoms: seq<Atom>, j: nat, k: nat)
    requires ArenaOk(ts) && InArena(ts, atoms) && FirstForced(ts, atoms, j) && FirstForced(ts, atoms, k)
    ensures j == k
  {
  }

  lemma ConflictFirst(ts: Arena, reg: set<nat>, atoms: seq<Atom>, at: nat, clause: seq<Lit>)
    requires ArenaOk(ts) && Registered(ts, reg) && InArena(ts, atoms) && AtomsIn(ts, reg, atoms)
    requires ConflictAt(ts, reg, EqsOf(ts, atoms), DsOf(ts, atoms), at, clause)
    ensures FirstForced(ts, atoms, at)
    ensures forall l :: l in clause ==> exists a :: a in atoms && a.lit.Not() == l
  {
    hide Congruence, Registered, EqsOf, DsOf, AtomsIn, Forced, NewDiseqs;
    var eqs, ds, n := EqsOf(ts, atoms), DsOf(ts, atoms), |clause| - 1;
    RowsIn(ts, reg, atoms);
    assert ds[at] in ds;
    assert Entailed(ts, reg, eqs, ds[at].a, ds[at].b) by {
      forall r: Rel | Congruence(ts, reg, r) && Contains(r, eqs) ensures (ds[at].a, ds[at].b) in r {
        assert Contains(r, Used(eqs, clause[..n]));
      }
    }
    forall j | 0 <= j <= at ensures Forced(ts, atoms, ds[j].a, ds[j].b) <==> Entailed(ts, reg, eqs, ds[j].a, ds[j].b) {
      assert ds[j] in ds;
      ForcedIffEntailed(ts, reg, atoms, ds[j].a, ds[j].b);
    }
    assert clause == clause[..n] + [ds[at].lit.Not()];
    forall l | l in clause ensures exists a :: a in atoms && a.lit.Not() == l {
      if l in clause[..n] {
        var e :| e in eqs && e.lit.Not() == l;
        EquationFrom(ts, atoms, e);
      } else {
        DisequalityFrom(ts, atoms, ds[at]);
        var a :| a in atoms && ds[at] in NewDiseqs(ts, a.lit, a.term);
        RowLiteral(ts, a, ds[at]);
      }
    }
  }

  lemma Answer(ts: Arena, reg: set<nat>, atoms: seq<Atom>, v: Verdict, at: nat)
    requires ArenaOk(ts) && Registered(ts, reg) && InArena(ts, atoms) && AtomsIn(ts, reg, atoms)
    requires v.NoConflict? <==> Consistent(ts, reg, EqsOf(ts, atoms), DsOf(ts, atoms))
    requires v.Conflict? ==> ConflictAt(ts, reg, EqsOf(ts, atoms), DsOf(ts, atoms), at, v.clause)
    ensures AnswersFor(ts, atoms, v)
  {
    hide Registered, EqsOf, DsOf, AtomsIn, Forced, ConflictAt, TheoryValid, FromNegated, AllRead, OneTerm, Satisfiable, Congruence;
    if AllRead(ts, atoms) { ConsistentIffSatisfiable(ts, reg, atoms); }
    if v.Conflict? {
      ConflictFirst(ts, reg, atoms, at, v.clause);
      forall k: nat | FirstForced(ts, atoms, k) ensures k == at { FirstIsUnique(ts, atoms, k, at); }
      if FromNegated(ts, atoms, DsOf(ts, atoms)[at]) {
        if OneTerm(atoms) { ConflictInvalid(ts, reg, atoms, at, v.clause); }
      } else {
        ConflictValid(ts, reg, atoms, at, v.clause);
      }
    } else {
      NothingForced(ts, reg, atoms);
    }
  }

  lemma NothingForced(ts: Arena, reg: set<nat>, atoms: seq<Atom>)
    requires ArenaOk(ts) && Registered(ts, reg) && InArena(ts, atoms) && AtomsIn(ts, reg, atoms)
    requires Consistent(ts, reg, EqsOf(ts, atoms), DsOf(ts, atoms))
    ensures forall k: nat :: !FirstForced(ts, atoms, k)
  {
    hide Registered, EqsOf, DsOf, AtomsIn, Forced, Congruence;
    var ds := DsOf(ts, atoms);
    RowsIn(ts, reg, atoms);
    var r: Rel :| Congruence(ts, reg, r) && Contains(r, EqsOf(ts, atoms)) && Separates(r, ds);
    forall k: nat | k < |ds| ensures !Forced(ts, atoms, ds[k].a, ds[k].b) {
      assert ds[k] in ds;
      ForcedIffEntailed(ts, reg, atoms, ds[k].a, ds[k].b);
    }
  }

  lemma AtomsStay(ts: Arena, terms: seq<nat>, reg: set<nat>, atoms: seq<Atom>)
    requires AtomsIn(ts, Members(terms), atoms) && forall k :: 0 <= k < |terms| ==> terms[k] in reg
    ensures AtomsIn(ts, reg, atoms) && InArena(ts, atoms)
  {
    forall t | t in Members(terms) ensures t in reg {
      var k :| 0 <= k < |terms| && terms[k] == t;
    }
  }

  lemma RunAtoms(ts: Arena, terms: seq<nat>, steps: seq<Step>)
    requires forall k :: 0 <= k < |steps| ==> EufEngine.StepOk(ts, terms, steps[k])
    ensures AtomsIn(ts, Members(terms), InForce(steps)) && InArena(ts, InForce(steps))
    ensures LiveAfter(ts, terms, steps).eqs == EqsOf(ts, InForce(steps)) && LiveAfter(ts, terms, steps).diseqs == DsOf(ts, InForce(steps))
  {
    RunRows(ts, terms, steps);
  }

  /** A whole run and a check of its state, in terms of the literals in force. When each of them is
      read, no conflict means that some structure makes them all true. A conflict clause is false
      under them, and it is valid in the theory exactly when the disequality found was not made
      from a distinctness asserted false. */
  method RunAndCheck(ts: Arena, terms: seq<nat>, steps: seq<Step>) returns (v: Verdict)
    requires ArenaOk(ts) && forall k :: 0 <= k < |terms| ==> terms[k] < |ts|
    requires forall k :: 0 <= k < |steps| ==> EufEngine.StepOk(ts, terms, steps[k])
    ensures InArena(ts, InForce(steps)) && AnswersFor(ts, InForce(steps), v)
  {
    hide *;
    RunAtoms(ts, terms, steps);
    var s := Run(ts, terms, steps);
    s.ValidFacts();
    s.BaseFacts();
    AtomsStay(ts, terms, s.parent.Keys, InForce(steps));
    ghost var at: nat;
    v, at := s.Check();
    Answer(ts, s.parent.Keys, InForce(steps), v, at);
  }

  // ---------- literals that are not read ----------

  /** Rows that say what the literal says: for a distinctness that is false, or an equality of several
      terms that is, one pair has to be chosen. */
  ghost predicate AtomSpelled(ts: Arena, a: Atom, eqs: set<Equation>, ds: seq<Disequality>)
    requires a.term < |ts|
  {
    if Read(ts, a) then eqs == NewEquations(ts, a.lit, a.term) && ds == NewDiseqs(ts, a.lit, a.term)
    else
      var args := ts[a.term].args;
      if ts[a.term].Equals? && !a.lit.neg then
        eqs == (set i, j | 0 <= i < j < |args| :: Equation(args[i], args[j], a.lit)) && ds == []
      else if ts[a.term].Equals? then
        eqs == {} && exists i: nat, j: nat :: i < j < |args| && ds == [Disequality(args[i], args[j], a.lit)]
      else
        ds == [] && exists i: nat, j: nat :: i < j < |args| && eqs == {Equation(args[i], args[j], a.lit)}
  }

  ghost predicate Spelled(ts: Arena, atoms: seq<Atom>, eqs: set<Equation>, ds: seq<Disequality>)
    requires InArena(ts, atoms)
    decreases |atoms|
  {
    if atoms == [] then eqs == {} && ds == []
    else
      var n := |atoms| - 1;
      exists e: set<Equation>, d: seq<Disequality>, e': set<Equation>, d': seq<Disequality> ::
        Spelled(ts, atoms[..n], e, d) && AtomSpelled(ts, atoms[n], e', d') && eqs == e + e' && ds == d + d'
  }

  ghost predicate Fits(ts: Arena, st: Structure, eqs: set<Equation>, ds: seq<Disequality>)
    requires ArenaOk(ts)
  {
    Contains(ValueRel(ts, st), eqs) && Separates(ValueRel(ts, st), ds)
  }

  ghost predicate AtomIn(ts: Arena, reg: set<nat>, a: Atom) {
    a.term < |ts| && (EqualityAtom(ts[a.term]) ==> forall i :: 0 <= i < |ts[a.term].args| ==> ts[a.term].args[i] in reg)
  }

  lemma SpellAtom(ts: Arena, reg: set<nat>, st: Structure, a: Atom) returns (eqs: set<Equation>, ds: seq<Disequality>)
    requires ArenaOk(ts) && Registered(ts, reg) && AtomIn(ts, reg, a) && Obeys(ts, st, a)
    ensures AtomSpelled(ts, a, eqs, ds) && Fits(ts, st, eqs, ds)
  {
    hide Value;
    if Read(ts, a) {
      eqs, ds := NewEquations(ts, a.lit, a.term), NewDiseqs(ts, a.lit, a.term);
      ReadRows(ts, reg, st, a);
    } else {
      var args := ts[a.term].args;
      forall i | 0 <= i < |args| ensures args[i] < |ts| { RegisteredAt(ts, reg, args[i]); }
      if ts[a.term].Equals? && !a.lit.neg {
        eqs, ds := (set i, j | 0 <= i < j < |args| :: Equation(args[i], args[j], a.lit)), [];
      } else {
        var i: nat, j: nat :| i < j < |args| && (Value(ts, st, args[i]) == Value(ts, st, args[j]) <==> !ts[a.term].Equals?);
        if ts[a.term].Equals? {
          eqs, ds := {}, [Disequality(args[i], args[j], a.lit)];
        } else {
          eqs, ds := {Equation(args[i], args[j], a.lit)}, [];
        }
      }
    }
  }

  lemma SpelledObeys(ts: Arena, reg: set<nat>, st: Structure, a: Atom, eqs: set<Equation>, ds: seq<Disequality>)
    requires ArenaOk(ts) && Registered(ts, reg) && AtomIn(ts, reg, a) && AtomSpelled(ts, a, eqs, ds) && Fits(ts, st, eqs, ds)
    ensures Obeys(ts, st, a)
  {
    hide Value;
    if Read(ts, a) {
      ReadRows(ts, reg, st, a);
    } else {
      var args := ts[a.term].args;
      forall i | 0 <= i < |args| ensures args[i] < |ts| { RegisteredAt(ts, reg, args[i]); }
      if ts[a.term].Equals? && !a.lit.neg {
        forall i, j | 0 <= i < j < |args| ensures Value(ts, st, args[i]) == Value(ts, st, args[j]) {
          assert Equation(args[i], args[j], a.lit) in eqs;
        }
      } else if ts[a.term].Equals? {
        var i: nat, j: nat :| i < j < |args| && ds == [Disequality(args[i], args[j], a.lit)];
        assert ds[0] in ds;
      } else {
        var i: nat, j: nat :| i < j < |args| && eqs == {Equation(args[i], args[j], a.lit)};
        assert Equation(args[i], args[j], a.lit) in eqs;
      }
    }
  }

  lemma {:induction false} Spell(ts: Arena, reg: set<nat>, st: Structure, atoms: seq<Atom>) returns (eqs: set<Equation>, ds: seq<Disequality>)
    requires ArenaOk(ts) && Registered(ts, reg) && InArena(ts, atoms) && AtomsIn(ts, reg, atoms) && Satisfies(ts, st, atoms)
    ensures Spelled(ts, atoms, eqs, ds) && Fits(ts, st, eqs, ds)
    decreases |atoms|
  {
    hide Obeys, AtomSpelled, ValueRel;
    if atoms == [] {
      eqs, ds := {}, [];
    } else {
      var n := |atoms| - 1;
      var e, d := Spell(ts, reg, st, atoms[..n]);
      assert atoms[n] in atoms;
      var e', d' := SpellAtom(ts, reg, st, atoms[n]);
      eqs, ds := e + e', d + d';
    }
  }

  lemma {:induction false} SpelledSatisfies(ts: Arena, reg: set<nat>, st: Structure, atoms: seq<Atom>, eqs: set<Equation>, ds: seq<Disequality>)
    requires ArenaOk(ts) && Registered(ts, reg) && InArena(ts, atoms) && AtomsIn(ts, reg, atoms)
    requires Spelled(ts, atoms, eqs, ds) && Fits(ts, st, eqs, ds)
    ensures Satisfies(ts, st, atoms)
    decreases |atoms|
  {
    hide Obeys, AtomSpelled, ValueRel;
    if atoms != [] {
      var n := |atoms| - 1;
      var e: set<Equation>, d: seq<Disequality>, e': set<Equation>, d': seq<Disequality> :|
        Spelled(ts, atoms[..n], e, d) && AtomSpelled(ts, atoms[n], e', d') && eqs == e + e' && ds == d + d';
      assert atoms == atoms[..n] + [atoms[n]] && atoms[n] in atoms;
      SpelledSatisfies(ts, reg, st, atoms[..n], e, d);
      SpelledObeys(ts, reg, st, atoms[n], e', d');
    }
  }

  lemma {:induction false} SpelledIn(ts: Arena, reg: set<nat>, atoms: seq<Atom>, eqs: set<Equation>, ds: seq<Disequality>)
    requires InArena(ts, atoms) && AtomsIn(ts, reg, atoms) && Spelled(ts, atoms, eqs, ds)
    ensures (forall e :: e in eqs ==> e.a in reg && e.b in reg) && forall d :: d in ds ==> d.a in reg && d.b in reg
    decreases |atoms|
  {
    hide AtomSpelled;
    if atoms != [] {
      var n := |atoms| - 1;
      var e: set<Equation>, d: seq<Disequality>, e': set<Equation>, d': seq<Disequality> :|
        Spelled(ts, atoms[..n], e, d) && AtomSpelled(ts, atoms[n], e', d') && eqs == e + e' && ds == d + d';
      assert atoms[n] in atoms;
      SpelledIn(ts, reg, atoms[..n], e, d);
      AtomSpelledIn(ts, reg, atoms[n], e', d');
    }
  }

  lemma AtomSpelledIn(ts: Arena, reg: set<nat>, a: Atom, eqs: set<Equation>, ds: seq<Disequality>)
    requires AtomIn(ts, reg, a) && AtomSpelled(ts, a, eqs, ds)
    ensures (forall e :: e in eqs ==> e.a in reg && e.b in reg) && forall d :: d in ds ==> d.a in reg && d.b in reg
  {
    if Read(ts, a) {
      assert [a][..0] == [];
      assert AtomsIn(ts, reg, [a]) && InArena(ts, [a]);
      RowsIn(ts, reg, [a]);
      assert EqsOf(ts, [a]) == EqsOf(ts, []) + eqs && DsOf(ts, [a]) == DsOf(ts, []) + ds;
    }
  }

  /** In general the literals are satisfiable exactly when a pair can be chosen for each that needs
      one such that the rows are consistent: a finite number of congruence closures. */
  lemma SatisfiableIffSpelled(ts: Arena, reg: set<nat>, atoms: seq<Atom>)
    requires ArenaOk(ts) && Registered(ts, reg) && InArena(ts, atoms) && AtomsIn(ts, reg, atoms)
    ensures Satisfiable(ts, atoms) <==>
      exists eqs: set<Equation>, ds: seq<Disequality> :: Spelled(ts, atoms, eqs, ds) && Consistent(ts, reg, eqs, ds)
  {
    hide Congruence, Registered, ClassStructure, ValueRel, Spelled, Satisfies, AtomsIn;
    if Satisfiable(ts, atoms) {
      var st: Structure :| Satisfies(ts, st, atoms);
      var eqs, ds := Spell(ts, reg, st, atoms);
      ValuesAreCongruence(ts, reg, st);
      assert Consistent(ts, reg, eqs, ds);
    }
    if exists eqs: set<Equation>, ds: seq<Disequality> :: Spelled(ts, atoms, eqs, ds) && Consistent(ts, reg, eqs, ds) {
      var eqs: set<Equation>, ds: seq<Disequality> :| Spelled(ts, atoms, eqs, ds) && Consistent(ts, reg, eqs, ds);
      var r: Rel :| Congruence(ts, reg, r) && Contains(r, eqs) && Separates(r, ds);
      SpelledIn(ts, reg, atoms, eqs, ds);
      ClassRows(ts, reg, r, eqs, ds);
      SpelledSatisfies(ts, reg, ClassStructure(ts, reg, r), atoms, eqs, ds);
    }
  }

  // ---------- two runs over a, b, distinct(a, b) and a = b ----------

  const PAIR: Arena := [Other, Other, Distinct([0, 1]), Equals([0, 1])]

  /** Two literals in force, without scopes. */
  lemma TwoInForce(p: Step, q: Step)
    requires p.Assert? && q.Assert?
    ensures InForce([p, q]) == [Atom(p.lit, p.term), Atom(q.lit, q.term)]
  {
    assert [p, q][..1] == [p] && [p][..0] == [];
    assert AtomsAfter([p]) == StepAtoms(AtomsAfter([]), p);
  }

  lemma RowsOfTwo(ts: Arena, a: Atom, b: Atom)
    requires InArena(ts, [a, b])
    ensures EqsOf(ts, [a, b]) == NewEquations(ts, a.lit, a.term) + NewEquations(ts, b.lit, b.term)
    ensures DsOf(ts, [a, b]) == NewDiseqs(ts, a.lit, a.term) + NewDiseqs(ts, b.lit, b.term)
  {
    assert a in [a, b] && b in [a, b];
    AppendRows(ts, [], a);
    AppendRows(ts, [a], b);
    assert [] + [a] == [a] && [a] + [b] == [a, b];
  }

  lemma PairRows(a: Lit, b: Lit)
    ensures NewDiseqs(PAIR, a, 2) == [Disequality(0, 1, a)] && NewEquations(PAIR, a, 2) == {}
    ensures NewDiseqs(PAIR, b, 3) == if b.neg then [Disequality(0, 1, b)] else []
    ensures NewEquations(PAIR, b, 3) == if b.neg then {} else {Equation(0, 1, b)}
  {
    var args := [0, 1];
    assert Rows(args, a, 2) == Rows(args, a, 1) + Row(args, a, 1, 2);
    assert Rows(args, a, 1) == Rows(args, a, 0) + Row(args, a, 0, 2);
    assert Row(args, a, 0, 2) == Row(args, a, 0, 1) + [Disequality(0, 1, a)];
  }

  /** `a = b` and `distinct(a, b)` false: a structure makes both true, the engine finds a conflict,
      and its clause is not valid. */
  method RefutedThoughSatisfiable() returns (v: Verdict)
    ensures var atoms := [Atom(Lit(1, false), 3), Atom(Lit(0, true), 2)];
      ArenaOk(PAIR) && InArena(PAIR, atoms) && Satisfiable(PAIR, atoms) && v.Conflict? && !TheoryValid(PAIR, atoms, v.clause)
  {
    var p, q := Assert(Lit(1, false), 3), Assert(Lit(0, true), 2);
    ghost var atoms := [Atom(p.lit, 3), Atom(q.lit, 2)];
    TwoInForce(p, q);
    v := RunAndCheck(PAIR, [0, 1], [p, q]);
    RefutedFacts(atoms);
  }

  lemma PairTruths(st: Structure)
    ensures ArenaOk(PAIR) && Value(PAIR, st, 0) == st.leaf(0) && Value(PAIR, st, 1) == st.leaf(1)
    ensures Truth(PAIR, st, 2) <==> st.leaf(0) != st.leaf(1)
    ensures Truth(PAIR, st, 3) <==> st.leaf(0) == st.leaf(1)
    ensures SameValue(PAIR, st, 0, 1) <==> st.leaf(0) == st.leaf(1)
  {
    hide Truth;
    TwoTruth(PAIR, st, 2);
    TwoTruth(PAIR, st, 3);
  }

  lemma TwoTruth(ts: Arena, st: Structure, t: nat)
    requires ArenaOk(ts) && t < |ts| && EqualityAtom(ts[t]) && |ts[t].args| == 2
    ensures var args := ts[t].args; Truth(ts, st, t) <==> (Value(ts, st, args[0]) == Value(ts, st, args[1]) <==> ts[t].Equals?)
  {
    var args := ts[t].args;
    assert Truth(ts, st, t) ==> (Value(ts, st, args[0]) == Value(ts, st, args[1]) <==> ts[t].Equals?);
  }

  lemma RefutedFacts(atoms: seq<Atom>)
    requires atoms == [Atom(Lit(1, false), 3), Atom(Lit(0, true), 2)]
    ensures ArenaOk(PAIR) && InArena(PAIR, atoms) && Satisfiable(PAIR, atoms) && OneTerm(atoms)
    ensures FirstForced(PAIR, atoms, 0) && FromNegated(PAIR, atoms, DsOf(PAIR, atoms)[0])
  {
    hide Truth, Value, EqsOf, DsOf, NewEquations, NewDiseqs;
    RowsOfTwo(PAIR, atoms[0], atoms[1]);
    PairRows(Lit(0, true), Lit(1, false));
    PairTruths(Constantly());
    assert Satisfies(PAIR, Constantly(), atoms);
    assert atoms[1] in atoms;
    var e := Equation(0, 1, Lit(1, false));
    assert e in EqsOf(PAIR, atoms);
  }

  /** `a = b` and `distinct(a, b)` both false: no structure makes both true, and there is no conflict. */
  method AcceptedThoughUnsatisfiable() returns (v: Verdict)
    ensures var atoms := [Atom(Lit(1, true), 3), Atom(Lit(0, true), 2)];
      ArenaOk(PAIR) && InArena(PAIR, atoms) && !Satisfiable(PAIR, atoms) && v.NoConflict?
  {
    var p, q := Assert(Lit(1, true), 3), Assert(Lit(0, true), 2);
    ghost var atoms := [Atom(p.lit, 3), Atom(q.lit, 2)];
    TwoInForce(p, q);
    v := RunAndCheck(PAIR, [0, 1], [p, q]);
    AcceptedFacts(atoms);
  }

  lemma AcceptedFacts(atoms: seq<Atom>)
    requires atoms == [Atom(Lit(1, true), 3), Atom(Lit(0, true), 2)]
    ensures ArenaOk(PAIR) && InArena(PAIR, atoms) && !Satisfiable(PAIR, atoms)
    ensures forall k: nat :: !FirstForced(PAIR, atoms, k)
  {
    hide Truth, Value, EqsOf, DsOf, NewEquations, NewDiseqs, SameValue;
    RowsOfTwo(PAIR, atoms[0], atoms[1]);
    PairRows(Lit(0, true), Lit(1, true));
    var st := Structure(t => t, (f, vs) => 0);
    PairTruths(st);
    assert Contains(ValueRel(PAIR, st), EqsOf(PAIR, atoms)) && !Forced(PAIR, atoms, 0, 1);
    forall st: Structure ensures !Satisfies(PAIR, st, atoms) {
      PairTruths(st);
      assert atoms[0] in atoms && atoms[1] in atoms;
    }
  }
}
