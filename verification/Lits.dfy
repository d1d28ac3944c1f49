/** Variables, literals, ternary values and the propositional semantics shared by
    the SAT core, the proof checker and the clause compilers. */
module Lits {

  datatype Option<+T> = None | Some(value: T)

  /** A literal. The source packs `var << 1 | sign` into one word; `Index` is that word. */
  datatype Lit = Lit(v: nat, neg: bool) {

    function Not(): Lit { Lit(v, !neg) }

    function Index(): nat { 2 * v + (if neg then 1 else 0) }

    /** 1-based signed integer of the DIMACS format. */
    function ToDimacs(): int { if neg then -(v + 1) else v + 1 }
  }

  function FromIndex(i: nat): Lit { Lit(i / 2, i % 2 == 1) }

  function FromDimacs(d: int): Lit
    requires d != 0
  {
    Lit(if d < 0 then -d - 1 else d - 1, d < 0)
  }

  /** The packed word and the DIMACS integer both determine the literal, and flipping the
      low bit of the word is negation. */
  lemma LitEncodings(l: Lit, i: nat, d: int)
    ensures FromIndex(l.Index()) == l && FromIndex(i).Index() == i
    ensures l.Not().Index() == if l.Index() % 2 == 0 then l.Index() + 1 else l.Index() - 1
    ensures l.Not().Not() == l && l.Not() != l
    ensures FromDimacs(l.ToDimacs()) == l
    ensures d != 0 ==> FromDimacs(d).ToDimacs() == d && FromDimacs(-d) == FromDimacs(d).Not()
  {
  }

  datatype LBool = Undef | True | False {
    function Not(): LBool {
      match this
      case True => False
      case False => True
      case Undef => Undef
    }
  }

  /** A total valuation: the set of variables that are true. */
  type Valuation = iset<nat>

  type Cnf = seq<seq<Lit>>

  ghost predicate Holds(m: Valuation, l: Lit) { (l.v in m) != l.neg }

  ghost predicate SatClause(m: Valuation, c: seq<Lit>) {
    exists l :: l in c && Holds(m, l)
  }

  ghost predicate Models(m: Valuation, f: Cnf) {
    forall c :: c in f ==> SatClause(m, c)
  }

  ghost predicate Entails(f: Cnf, c: seq<Lit>) {
    forall m: Valuation :: Models(m, f) ==> SatClause(m, c)
  }

  ghost predicate Unsat(f: Cnf) {
    forall m: Valuation :: !Models(m, f)
  }

  lemma HoldsNot(m: Valuation, l: Lit)
    ensures Holds(m, l.Not()) <==> !Holds(m, l)
  {
  }

  lemma EntailsEmpty(f: Cnf)
    ensures Entails(f, []) <==> Unsat(f)
  {
    if Entails(f, []) {
      forall m: Valuation ensures !Models(m, f) {
        assert Models(m, f) ==> SatClause(m, []);
      }
    }
  }

  /** More clauses entail no less, and a clause with no fewer literals is entailed. */
  lemma EntailsMono(f: Cnf, g: Cnf, c: seq<Lit>, d: seq<Lit>)
    requires Entails(f, c)
    requires forall k :: k in f ==> k in g
    requires forall l :: l in c ==> l in d
    ensures Entails(g, d)
  {
    forall m: Valuation | Models(m, g) ensures SatClause(m, d) {
      assert Models(m, f);
      assert SatClause(m, c);
      var l :| l in c && Holds(m, l);
      assert l in d;
    }
  }

  // ---------- sorting a clause ----------

  /** Strictly increasing in the packed word, hence without duplicates. */
  ghost predicate StrictlySorted(c: seq<Lit>) {
    forall i, j :: 0 <= i < j < |c| ==> c[i].Index() < c[j].Index()
  }

  function InsertLit(l: Lit, c: seq<Lit>): (r: seq<Lit>)
    requires StrictlySorted(c)
    ensures StrictlySorted(r)
    ensures forall x :: x in r <==> x == l || x in c
  {
    if c == [] then [l]
    else if l == c[0] then c
    else if l.Index() < c[0].Index() then [l] + c
    else
      var r := InsertLit(l, c[1..]);
      assert forall x :: x in r ==> c[0].Index() < x.Index();
      [c[0]] + r
  }

  /** The literals of `c` sorted and without duplicates. */
  function SortDedup(c: seq<Lit>): (r: seq<Lit>)
    ensures StrictlySorted(r)
    ensures forall x :: x in r <==> x in c
  {
    if c == [] then [] else InsertLit(c[0], SortDedup(c[1..]))
  }
}
